/** Reading and writing the settings tree by path: the laws between the two. */
module SettingsTree {
  import opened Json

  function Root(m: Members): Value {
    Defined(Object(m))
  }

  function ReadAt(root: Members, path: Path): Value {
    At(Root(root), path)
  }

  /** The tree after SettingsFilePrivate::write: nothing happens when the value is already there. */
  function WriteAt(root: Members, path: Path, v: Value): Members {
    if ReadAt(root, path) == v then root else Put(Root(root), path, v).ToObject()
  }

  ghost predicate Comparable(p: Path, q: Path) {
    p <= q || q <= p
  }

  lemma {:induction false} AtConcat(v: Value, p: Path, q: Path)
    ensures At(v, p + q) == At(At(v, p), q)
    decreases p
  {
    if p == [] {
      assert p + q == q;
    } else {
      assert (p + q)[1..] == p[1..] + q;
      AtConcat(Child(v, p[0]), p[1..], q);
    }
  }

  lemma {:induction false} AtUndefined(v: Value, q: Path)
    requires v.ToObject() == map[] && q != []
    ensures At(v, q) == Undefined
    decreases q
  {
    if |q| > 1 {
      AtUndefined(Undefined, q[1..]);
    }
  }

  /** A defined value has objects all the way up. */
  lemma {:induction false} ParentsAreObjects(v: Value, p: Path, q: Path)
    requires p < q && At(v, q).Defined?
    ensures At(v, p).IsObject() && At(v, p).ToObject() != map[]
  {
    var rest := q[|p|..];
    assert q == p + rest;
    AtConcat(v, p, rest);
    if At(v, p).ToObject() == map[] {
      AtUndefined(At(v, p), rest);
    }
  }

  lemma {:induction false} PutThenAt(v: Value, p: Path, w: Value)
    ensures At(Put(v, p, w), p) == w
    decreases p
  {
    if p != [] {
      PutThenAt(Child(v, p[0]), p[1..], w);
    }
  }

  lemma {:induction false} PutElsewhere(v: Value, p: Path, w: Value, q: Path)
    requires !Comparable(p, q)
    ensures At(Put(v, p, w), q) == At(v, q)
    decreases p
  {
    if p[0] == q[0] {
      assert p == [p[0]] + p[1..] && q == [q[0]] + q[1..];
      PutElsewhere(Child(v, p[0]), p[1..], w, q[1..]);
    }
  }

  lemma {:induction false} PutAbove(v: Value, p: Path, w: Value, q: Path)
    requires q < p
    ensures At(Put(v, p, w), q).IsObject()
    decreases p
  {
    if q != [] {
      assert q[1..] < p[1..];
      PutAbove(Child(v, p[0]), p[1..], w, q[1..]);
    }
  }

  lemma {:induction false} PutPut(v: Value, p: Path, a: Value, b: Value)
    ensures Put(Put(v, p, a), p, b) == Put(v, p, b)
    decreases p
  {
    if p != [] {
      PutPut(Child(v, p[0]), p[1..], a, b);
      var m := v.ToObject();
      var x, y := Put(Child(v, p[0]), p[1..], a), Put(Child(v, p[0]), p[1..], b);
      assert Insert(Insert(m, p[0], x), p[0], y) == Insert(m, p[0], y);
    }
  }

  /** Storing what is already there changes nothing exactly when the parent is an object. */
  lemma {:induction false} PutSame(v: Value, p: Path)
    ensures Put(v, p, At(v, p)) == v <==> p == [] || At(v, p[..|p| - 1]).IsObject()
    decreases p
  {
    if |p| == 1 {
      assert p[..0] == [];
      if v.IsObject() {
        assert Insert(v.ToObject(), p[0], Child(v, p[0])) == v.ToObject();
      }
    } else if |p| > 1 {
      var c := Child(v, p[0]);
      PutSame(c, p[1..]);
      assert p[..|p| - 1][1..] == p[1..][..|p| - 2];
      var m := v.ToObject();
      if At(v, p[..|p| - 1]).IsObject() {
        assert At(v, p[..|p| - 1]) == At(c, p[1..][..|p| - 2]);
        assert m[p[0] := m[p[0]]] == m;
      }
    }
  }

  // ---- the laws of SettingsFilePrivate::write ----

  /** What was written is read back, and paths below it read inside the written value. */
  lemma ReadAfterWrite(root: Members, p: Path, v: Value, q: Path)
    requires p != []
    ensures ReadAt(WriteAt(root, p, v), p + q) == At(v, q)
  {
    PutThenAt(Root(root), p, v);
    AtConcat(Root(WriteAt(root, p, v)), p, q);
  }

  /** At the empty path only the object content of the value survives. */
  lemma ReadAfterRootWrite(root: Members, v: Value, q: Path)
    requires q != []
    ensures WriteAt(root, [], v) == v.ToObject()
    ensures ReadAt(WriteAt(root, [], v), q) == At(v, q)
  {
  }

  /** Paths neither above nor below the written one read as before. */
  lemma WriteLeavesOthers(root: Members, p: Path, v: Value, q: Path)
    requires !Comparable(p, q)
    ensures ReadAt(WriteAt(root, p, v), q) == ReadAt(root, q)
  {
    PutElsewhere(Root(root), p, v, q);
  }

  /** Paths above the written one keep an object, or stay as they were when nothing was written. */
  lemma WriteAbove(root: Members, p: Path, v: Value, q: Path)
    requires q < p && ReadAt(root, p) != v
    ensures ReadAt(WriteAt(root, p, v), q).IsObject()
    ensures ReadAt(WriteAt(root, p, v), q).ToObject() != ReadAt(root, q).ToObject()
  {
    PutAbove(Root(root), p, v, q);
    var rest := p[|q|..];
    assert p == q + rest;
    AtConcat(Root(root), q, rest);
    AtConcat(Root(WriteAt(root, p, v)), q, rest);
    PutThenAt(Root(root), p, v);
  }

  /** The tree is left alone exactly when the value is already there. */
  lemma WriteUnchanged(root: Members, p: Path, v: Value)
    requires p != []
    ensures WriteAt(root, p, v) == root <==> ReadAt(root, p) == v
  {
    PutThenAt(Root(root), p, v);
  }

  /**
   A second write supersedes the first, except that removing a key again leaves
   behind the parent objects that the first write had to create.
   */
  lemma SecondWriteSupersedes(root: Members, p: Path, a: Value, b: Value)
    ensures WriteAt(WriteAt(root, p, a), p, b) == WriteAt(root, p, b)
      <==> b.Defined? || a == Undefined || p == [] || ReadAt(root, p[..|p| - 1]).IsObject()
  {
    var once := WriteAt(root, p, a);
    PutPut(Root(root), p, a, b);
    PutSame(Root(root), p);
    if p != [] {
      PutThenAt(Root(root), p, a);
      PutThenAt(Root(root), p, b);
      PutSame(Root(once), p);
      if ReadAt(root, p).Defined? {
        ParentsAreObjects(Root(root), p[..|p| - 1], p);
      }
      assert Put(Root(root), p, b) == Root(Put(Root(root), p, b).ToObject());
    }
  }
}
