/** When the announced changes of a write are enough to keep every cached subtree up to date. */
module SettingsCoherence {
  import opened Json
  import opened SettingsTree
  import opened SettingsDiff

  function Keys(o: Value, n: Value): set<string> {
    o.ToObject().Keys + n.ToObject().Keys
  }

  /** A measure for walking two values in step. */
  function Size(v: Value): Json {
    if v.Defined? then v.json else Null
  }

  /** No leaf of one side is missing from, or different in, the other: only empty objects may differ. */
  predicate SameLeaves(o: Value, n: Value)
    decreases if o.Defined? then 1 else 0, Size(o), Size(n)
  {
    if o.IsObject() || n.IsObject() then
      forall key | key in Keys(o, n) ::
        if key in o.ToObject() then SameLeaves(Defined(o.ToObject()[key]), Child(n, key))
        else SameLeaves(Undefined, Defined(n.ToObject()[key]))
    else o == n
  }

  /** Wherever the two sides have different object contents, some leaf differs too. */
  predicate LeavesShowChange(o: Value, n: Value)
    decreases if o.Defined? then 1 else 0, Size(o), Size(n)
  {
    || o.ToObject() == n.ToObject()
    || (&& !SameLeaves(o, n)
        && forall key | key in Keys(o, n) ::
             if key in o.ToObject() then LeavesShowChange(Defined(o.ToObject()[key]), Child(n, key))
             else LeavesShowChange(Undefined, Defined(n.ToObject()[key])))
  }

  /** The condition on a write of n over o at a path under which no cached subtree goes stale. */
  predicate Announces(path: Path, o: Value, n: Value) {
    (path == [] || !SameLeaves(o, n)) && LeavesShowChange(o, n)
  }

  /** A cache of the subtree at q is refreshed: some announced path lies at or below q. */
  ghost predicate Touched(q: Path, path: Path, o: Value, n: Value) {
    exists r :: Changed(o, n, r) && q <= path + r
  }

  lemma {:induction false} SameLeavesMeansNoChange(o: Value, n: Value)
    ensures SameLeaves(o, n) <==> forall r :: !Changed(o, n, r)
    decreases if o.Defined? then 1 else 0, Size(o), Size(n)
  {
    if o.IsObject() || n.IsObject() {
      forall key | key in Keys(o, n)
        ensures SameLeaves(Child(o, key), Child(n, key)) <==> forall r :: !Changed(Child(o, key), Child(n, key), r)
      {
        SameLeavesMeansNoChange(Child(o, key), Child(n, key));
      }
      if SameLeaves(o, n) {
        forall r
          ensures !Changed(o, n, r)
        {
          if r != [] {
            ChangedBelow(o, n, r);
            EqualMeansUnchanged(Undefined);
          }
        }
      } else {
        var key :| key in Keys(o, n) && !SameLeaves(Child(o, key), Child(n, key));
        var r :| Changed(Child(o, key), Child(n, key), r);
        assert ([key] + r)[1..] == r;
        ChangedBelow(o, n, [key] + r);
      }
    } else {
      if o == n {
        EqualMeansUnchanged(o);
      } else {
        assert Changed(o, n, []);
      }
    }
  }

  lemma {:induction false} LeavesShowChangeAt(o: Value, n: Value, r: Path)
    requires LeavesShowChange(o, n)
    ensures At(o, r).ToObject() == At(n, r).ToObject() || !SameLeaves(At(o, r), At(n, r))
    decreases r
  {
    if r != [] && At(o, r) != At(n, r) {
      assert r[0] in Keys(o, n);
      LeavesShowChangeAt(Child(o, r[0]), Child(n, r[0]), r[1..]);
    }
  }

  lemma {:induction false} HiddenChange(o: Value, n: Value) returns (r: Path)
    requires !LeavesShowChange(o, n)
    ensures At(o, r).ToObject() != At(n, r).ToObject() && SameLeaves(At(o, r), At(n, r))
    decreases if o.Defined? then 1 else 0, Size(o), Size(n)
  {
    if SameLeaves(o, n) {
      r := [];
    } else {
      var key :| key in Keys(o, n) && !LeavesShowChange(Child(o, key), Child(n, key));
      var rest := HiddenChange(Child(o, key), Child(n, key));
      r := [key] + rest;
      assert r[1..] == rest;
    }
  }

  lemma ChangedConcat(o: Value, n: Value, r: Path, s: Path)
    ensures Changed(o, n, r + s) <==> Changed(At(o, r), At(n, r), s)
  {
    AtConcat(o, r, s);
    AtConcat(n, r, s);
  }

  /** At or above the written path, a cache is refreshed as soon as any leaf changed. */
  lemma TouchedAbove(q: Path, path: Path, o: Value, n: Value)
    requires q <= path
    ensures Touched(q, path, o, n) <==> !SameLeaves(o, n)
  {
    SameLeavesMeansNoChange(o, n);
    if !SameLeaves(o, n) {
      var r :| Changed(o, n, r);
      assert q <= path + r;
    }
  }

  /** Below the written path, a cache is refreshed as soon as a leaf of its own subtree changed. */
  lemma TouchedBelow(path: Path, s: Path, o: Value, n: Value)
    ensures Touched(path + s, path, o, n) <==> !SameLeaves(At(o, s), At(n, s))
  {
    SameLeavesMeansNoChange(At(o, s), At(n, s));
    if Touched(path + s, path, o, n) {
      var r :| Changed(o, n, r) && path + s <= path + r;
      assert s <= r by {
        assert (path + r)[|path|..] == r && (path + s)[|path|..] == s;
      }
      var rest := r[|s|..];
      assert r == s + rest;
      ChangedConcat(o, n, s, rest);
    }
    if !SameLeaves(At(o, s), At(n, s)) {
      var rest :| Changed(At(o, s), At(n, s), rest);
      ChangedConcat(o, n, s, rest);
      assert path + s <= path + (s + rest);
    }
  }

  /** The subtree that a cache for path q should hold is the same before and after the write. */
  ghost predicate SameSubtree(root: Members, path: Path, v: Value, q: Path) {
    ReadAt(WriteAt(root, path, v), q).ToObject() == ReadAt(root, q).ToObject()
  }

  lemma ReadBelow(root: Members, path: Path, v: Value, s: Path)
    ensures ReadAt(root, path + s) == At(ReadAt(root, path), s)
    ensures ReadAt(WriteAt(root, path, v), path + s).ToObject() == At(v, s).ToObject()
  {
    AtConcat(Root(root), path, s);
    if path != [] {
      ReadAfterWrite(root, path, v, s);
    } else {
      assert path + s == s;
    }
  }

  /**
   Refreshing only the caches at or above an announced path keeps every
   possible cache up to date if and only if the write satisfies Announces.
   */
  lemma CoherenceExact(root: Members, path: Path, v: Value)
    requires ReadAt(root, path) != v
    ensures Announces(path, ReadAt(root, path), v)
      <==> forall q :: Touched(q, path, ReadAt(root, path), v) || SameSubtree(root, path, v, q)
  {
    var o := ReadAt(root, path);
    if Announces(path, o, v) {
      forall q
        ensures Touched(q, path, o, v) || SameSubtree(root, path, v, q)
      {
        UpToDate(root, path, v, q);
      }
    } else if path != [] && SameLeaves(o, v) {
      TouchedAbove([], path, o, v);
      WriteAbove(root, path, v, []);
      assert !SameSubtree(root, path, v, []);
    } else {
      var s := HiddenChange(o, v);
      TouchedBelow(path, s, o, v);
      ReadBelow(root, path, v, s);
      assert !SameSubtree(root, path, v, path + s);
    }
  }

  lemma UpToDate(root: Members, path: Path, v: Value, q: Path)
    requires ReadAt(root, path) != v && Announces(path, ReadAt(root, path), v)
    ensures Touched(q, path, ReadAt(root, path), v) || SameSubtree(root, path, v, q)
  {
    var o := ReadAt(root, path);
    if path <= q {
      var s := q[|path|..];
      assert q == path + s;
      LeavesShowChangeAt(o, v, s);
      TouchedBelow(path, s, o, v);
      ReadBelow(root, path, v, s);
    } else if q <= path {
      TouchedAbove(q, path, o, v);
    } else {
      WriteLeavesOthers(root, path, v, q);
    }
  }

  /** The value neither is nor contains an empty object. */
  predicate NoEmptyObject(v: Value)
    decreases Size(v)
  {
    v.IsObject() ==> v.ToObject() != map[] && forall key | key in v.ToObject() :: NoEmptyObject(Defined(v.ToObject()[key]))
  }

  lemma {:induction false} NoEmptyObjectShows(o: Value, n: Value)
    requires NoEmptyObject(o) && NoEmptyObject(n)
    ensures SameLeaves(o, n) ==> o == n
    ensures LeavesShowChange(o, n)
    decreases if o.Defined? then 1 else 0, Size(o), Size(n)
  {
    forall key | key in Keys(o, n)
      ensures SameLeaves(Child(o, key), Child(n, key)) ==> Child(o, key) == Child(n, key)
      ensures LeavesShowChange(Child(o, key), Child(n, key))
    {
      NoEmptyObjectShows(Child(o, key), Child(n, key));
    }
    if SameLeaves(o, n) && (o.IsObject() || n.IsObject()) {
      forall key | key in Keys(o, n)
        ensures Child(o, key) == Child(n, key)
      {
      }
      var a, b := o.ToObject(), n.ToObject();
      forall key
        ensures Get(a, key) == Get(b, key)
      {
        if key in Keys(o, n) { assert Child(o, key) == Child(n, key); }
      }
      assert a.Keys == b.Keys by {
        forall key
          ensures key in a <==> key in b
        {
          assert Get(a, key) == Get(b, key);
        }
      }
      forall key | key in a
        ensures a[key] == b[key]
      {
        assert Get(a, key) == Get(b, key);
      }
      assert a == b;
    }
  }

  /** Empty objects are the only obstacle. */
  lemma CoherentWithoutEmptyObjects(root: Members, path: Path, v: Value, q: Path)
    requires ReadAt(root, path) != v
    requires NoEmptyObject(ReadAt(root, path)) && NoEmptyObject(v)
    ensures Announces(path, ReadAt(root, path), v)
    ensures Touched(q, path, ReadAt(root, path), v) || SameSubtree(root, path, v, q)
  {
    NoEmptyObjectShows(ReadAt(root, path), v);
    UpToDate(root, path, v, q);
  }

  /** Replacing a plain value by an empty object is announced to nobody, so the root's cache goes stale. */
  lemma EmptyObjectGoesUnnoticed()
    ensures var root := map["tor" := Double(5.0)];
            var v := Defined(Object(map[]));
            && ReadAt(root, ["tor"]) != v
            && !Touched([], ["tor"], ReadAt(root, ["tor"]), v)
            && !SameSubtree(root, ["tor"], v, [])
  {
    var root: Members := map["tor" := Double(5.0)];
    var o, v := ReadAt(root, ["tor"]), Defined(Object(map[]));
    assert o == Defined(Double(5.0)) by { assert ["tor"][1..] == []; }
    assert SameLeaves(o, v);
    TouchedAbove([], ["tor"], o, v);
    WriteAbove(root, ["tor"], v, []);
  }
}
