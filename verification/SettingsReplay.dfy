/** Replaying the announced changes on the old tree, in any order. */
module SettingsReplay {
  import opened Json
  import opened SettingsTree
  import opened SettingsDiff
  import SettingsCoherence

  function Replay(root: Members, entries: seq<Entry>): Members
    decreases entries
  {
    if entries == [] then root else Replay(WriteAt(root, entries[0].path, entries[0].value), entries[1..])
  }

  /** The leaf at a path: Undefined when nothing or an object is there. */
  function Leaf(v: Value): Value {
    if v.IsObject() then Undefined else v
  }

  function LeafAt(root: Members, q: Path): Value {
    Leaf(ReadAt(root, q))
  }

  ghost predicate SameLeafMap(a: Members, b: Members) {
    forall q :: LeafAt(a, q) == LeafAt(b, q)
  }

  predicate HasLeaf(v: Value)
    decreases if v.Defined? then v.json else Null
  {
    if v.IsObject() then exists key | key in v.ToObject() :: HasLeaf(Defined(v.ToObject()[key]))
    else v.Defined?
  }

  ghost predicate IsLeaf(v: Value, r: Path) {
    At(v, r).Defined? && !At(v, r).IsObject()
  }

  /** No object gives way to a plain value, and no plain value to an object without leaves. */
  predicate Replayable(o: Value, n: Value)
    decreases if o.Defined? then o.json else Null
  {
    if o.IsObject() then
      if n.IsObject() then
        forall key | key in o.ToObject() :: Replayable(Defined(o.ToObject()[key]), Child(n, key))
      else n == Undefined
    else o.Defined? && n.IsObject() ==> HasLeaf(n)
  }

  /** Announced paths never lie above one another. */
  lemma ExactDiffIncomparable(entries: seq<Entry>, base: Path, o: Value, n: Value)
    requires ExactDiff(entries, base, o, n)
    ensures forall i, j | 0 <= i < j < |entries| :: !Comparable(entries[i].path, entries[j].path)
  {
    forall a, b | a in entries && b in entries && a.path < b.path
      ensures false
    {
      var r, s := a.path[|base|..], b.path[|base|..];
      assert r < s;
      if At(o, s).Defined? {
        ParentsAreObjects(o, r, s);
      } else {
        ParentsAreObjects(n, r, s);
      }
    }
    forall i, j | 0 <= i < j < |entries|
      ensures !Comparable(entries[i].path, entries[j].path)
    {
      assert entries[i] in entries && entries[j] in entries;
      assert entries[i].path != entries[j].path;
    }
  }

  /** The effect of one replayed leaf on the leaf map. */
  lemma LeafAfterWrite(root: Members, e: Path, v: Value, q: Path)
    requires e != [] && !v.IsObject() && !ReadAt(root, e).IsObject()
    requires v.Defined? || ReadAt(root, e).Defined?
    ensures LeafAt(WriteAt(root, e, v), q)
      == if q == e then v else if q < e && v.Defined? then Undefined else LeafAt(root, q)
  {
    if e <= q {
      var rest := q[|e|..];
      assert q == e + rest;
      ReadAfterWrite(root, e, v, rest);
      AtConcat(Root(root), e, rest);
      if rest != [] {
        AtUndefined(v, rest);
        AtUndefined(ReadAt(root, e), rest);
      } else {
        assert e + [] == e;
      }
    } else if q <= e {
      assert e + [] == e;
      ReadAfterWrite(root, e, v, []);
      if ReadAt(root, e).Defined? { ParentsAreObjects(Root(root), q, e); }
      if ReadAt(root, e) != v { WriteAbove(root, e, v, q); }
    } else {
      WriteLeavesOthers(root, e, v, q);
    }
  }

  /** What can be replayed: leaves at pairwise incomparable paths, removing only leaves that are there. */
  ghost predicate LeafWrites(root: Members, entries: seq<Entry>) {
    && (forall e | e in entries ::
          && e.path != [] && !e.value.IsObject() && !ReadAt(root, e.path).IsObject()
          && (e.value.Defined? || ReadAt(root, e.path).Defined?))
    && (forall i, j | 0 <= i < j < |entries| :: !Comparable(entries[i].path, entries[j].path))
  }

  /** Writing the first entry disturbs none of the others. */
  lemma RestStaysWritable(root: Members, entries: seq<Entry>)
    requires LeafWrites(root, entries) && entries != []
    ensures LeafWrites(WriteAt(root, entries[0].path, entries[0].value), entries[1..])
    ensures forall e | e in entries[1..] :: !Comparable(entries[0].path, e.path)
  {
    var first, rest := entries[0], entries[1..];
    forall e | e in rest
      ensures !Comparable(first.path, e.path)
      ensures ReadAt(WriteAt(root, first.path, first.value), e.path) == ReadAt(root, e.path)
    {
      var i :| 0 <= i < |rest| && rest[i] == e;
      assert entries[i + 1] == e;
      WriteLeavesOthers(root, first.path, first.value, e.path);
    }
  }

  /** No entry is at q, and none above which q lies makes room for a leaf. */
  ghost predicate Spares(entries: seq<Entry>, q: Path) {
    forall e | e in entries :: e.path != q && (q < e.path ==> e.value == Undefined)
  }

  lemma {:induction false} ReplaySpares(root: Members, entries: seq<Entry>, q: Path)
    requires LeafWrites(root, entries) && Spares(entries, q)
    ensures LeafAt(Replay(root, entries), q) == LeafAt(root, q)
    decreases entries
  {
    if entries != [] {
      RestStaysWritable(root, entries);
      ReplaySpares(WriteAt(root, entries[0].path, entries[0].value), entries[1..], q);
      LeafAfterWrite(root, entries[0].path, entries[0].value, q);
    }
  }

  /** A replayed entry settles the leaf at its own path, and makes room for itself above. */
  lemma {:induction false} ReplayHits(root: Members, entries: seq<Entry>, e: Entry, q: Path)
    requires LeafWrites(root, entries) && e in entries
    requires q == e.path || (q < e.path && e.value.Defined?)
    ensures LeafAt(Replay(root, entries), q) == if q == e.path then e.value else Undefined
    decreases entries
  {
    var first, rest := entries[0], entries[1..];
    var next := WriteAt(root, first.path, first.value);
    RestStaysWritable(root, entries);
    LeafAfterWrite(root, first.path, first.value, q);
    if f :| f in rest && (q == f.path || (q < f.path && f.value.Defined?)) {
      if e in rest {
        ReplayHits(next, rest, e, q);
      } else {
        ReplayHits(next, rest, f, q);
      }
    } else {
      ReplaySpares(next, rest, q);
    }
  }

  lemma ExactDiffIsLeafWrites(root: Members, path: Path, v: Value, entries: seq<Entry>)
    requires ReadAt(root, path) != v
    requires ExactDiff(entries, path, ReadAt(root, path), v)
    ensures LeafWrites(root, entries)
  {
    ExactDiffIncomparable(entries, path, ReadAt(root, path), v);
    forall e | e in entries
      ensures e.path != [] && !e.value.IsObject() && !ReadAt(root, e.path).IsObject()
      ensures e.value.Defined? || ReadAt(root, e.path).Defined?
    {
      AtConcat(Root(root), path, e.path[|path|..]);
      assert e.path == path + e.path[|path|..];
    }
  }

  /** The two ways in which the announced leaves fail to tell what happened at a path. */
  predicate Lost(o: Value, n: Value) {
    || (o.IsObject() && n.Defined? && !n.IsObject())
    || (o.Defined? && !o.IsObject() && n.IsObject() && !HasLeaf(n))
  }

  ghost predicate LostAt(o: Value, n: Value, r: Path) {
    Lost(At(o, r), At(n, r))
  }

  lemma {:induction false} ReplayableExact(o: Value, n: Value)
    ensures Replayable(o, n) <==> forall r :: !LostAt(o, n, r)
    decreases if o.Defined? then o.json else Null
  {
    if o.IsObject() && n.IsObject() {
      forall key | key in o.ToObject()
        ensures Replayable(Child(o, key), Child(n, key)) <==> forall r :: !LostAt(Child(o, key), Child(n, key), r)
      {
        ReplayableExact(Child(o, key), Child(n, key));
      }
      if Replayable(o, n) {
        forall r
          ensures !LostAt(o, n, r)
        {
          if r != [] {
            assert LostAt(o, n, r) <==> LostAt(Child(o, r[0]), Child(n, r[0]), r[1..]);
            if r[0] !in o.ToObject() && r[1..] != [] { AtUndefined(Undefined, r[1..]); }
          }
        }
      } else {
        var key :| key in o.ToObject() && !Replayable(Child(o, key), Child(n, key));
        var r :| LostAt(Child(o, key), Child(n, key), r);
        assert ([key] + r)[1..] == r;
        assert LostAt(o, n, [key] + r);
      }
    } else {
      assert LostAt(o, n, []) <==> Lost(o, n);
      forall r | r != []
        ensures !LostAt(o, n, r)
      {
        if !o.IsObject() { AtUndefined(o, r); } else { AtUndefined(n, r); }
      }
    }
  }

  lemma {:induction false} HasLeafExact(v: Value)
    ensures HasLeaf(v) <==> exists r :: IsLeaf(v, r)
    decreases if v.Defined? then v.json else Null
  {
    if v.IsObject() {
      forall key | key in v.ToObject()
        ensures HasLeaf(Child(v, key)) <==> exists r :: IsLeaf(Child(v, key), r)
      {
        HasLeafExact(Child(v, key));
      }
      if HasLeaf(v) {
        var key :| key in v.ToObject() && HasLeaf(Child(v, key));
        var r :| IsLeaf(Child(v, key), r);
        assert ([key] + r)[1..] == r;
        assert IsLeaf(v, [key] + r);
      } else {
        forall r
          ensures !IsLeaf(v, r)
        {
          if r != [] {
            assert IsLeaf(v, r) <==> IsLeaf(Child(v, r[0]), r[1..]);
            if r[0] !in v.ToObject() && r[1..] != [] { AtUndefined(Undefined, r[1..]); }
          }
        }
      }
    } else {
      assert IsLeaf(v, []) <==> v.Defined?;
      forall r | r != []
        ensures At(v, r) == Undefined
      {
        AtUndefined(v, r);
      }
    }
  }

  /** No plain value sits above the path, where the write would have to make room for an object. */
  predicate NoPlainAbove(root: Members, path: Path) {
    forall i | 0 <= i < |path| :: LeafAt(root, path[..i]) == Undefined
  }

  lemma ReadBelowWrite(root: Members, path: Path, v: Value, s: Path)
    requires path + s != []
    ensures ReadAt(root, path + s) == At(ReadAt(root, path), s)
    ensures ReadAt(WriteAt(root, path, v), path + s) == At(v, s)
  {
    AtConcat(Root(root), path, s);
    if path != [] {
      ReadAfterWrite(root, path, v, s);
    } else {
      assert path + s == s;
      ReadAfterRootWrite(root, v, s);
    }
  }

  /** The leaf at a path below the written one: a change at the path itself, or a new leaf further down. */
  lemma LeafBelowAnnounced(root: Members, path: Path, v: Value, entries: seq<Entry>, s: Path, rest: Path)
    requires ReadAt(root, path) != v
    requires ExactDiff(entries, path, ReadAt(root, path), v)
    requires path + s != []
    requires Changed(ReadAt(root, path), v, s + rest) && (rest == [] || At(v, s + rest).Defined?)
    ensures LeafAt(Replay(root, entries), path + s) == LeafAt(WriteAt(root, path, v), path + s)
    ensures !Lost(At(ReadAt(root, path), s), At(v, s))
  {
    ExactDiffIsLeafWrites(root, path, v, entries);
    ReadBelowWrite(root, path, v, s);
    var e := Entry(path + (s + rest), At(v, s + rest));
    assert e in entries;
    assert path + s <= e.path;
    ReplayHits(root, entries, e, path + s);
    if rest == [] {
      assert s + rest == s;
    } else {
      ParentsAreObjects(v, s, s + rest);
      HasLeafExact(At(v, s));
      AtConcat(v, s, rest);
      assert IsLeaf(At(v, s), rest);
    }
  }

  /** A leaf inside an object that is new shows as a change. */
  lemma NewLeafChanges(o: Value, v: Value, s: Path)
    requires HasLeaf(At(v, s)) && !At(o, s).IsObject() && At(v, s).IsObject()
    ensures exists rest | rest != [] :: Changed(o, v, s + rest) && At(v, s + rest) != Undefined
  {
    HasLeafExact(At(v, s));
    var rest :| IsLeaf(At(v, s), rest);
    AtConcat(v, s, rest);
    AtConcat(o, s, rest);
    AtUndefined(At(o, s), rest);
    assert Changed(o, v, s + rest);
  }

  lemma QuietEntry(path: Path, o: Value, v: Value, s: Path, e: Entry)
    requires Tells(e, path, o, v) && !Changed(o, v, s)
    requires forall rest | rest != [] && Changed(o, v, s + rest) :: At(v, s + rest) == Undefined
    ensures e.path != path + s && (path + s < e.path ==> e.value == Undefined)
  {
    var r := e.path[|path|..];
    assert e.path == path + r;
    if path + s <= e.path {
      assert r[..|s|] == s;
      assert r == s + r[|s|..];
    }
  }

  /** The leaf at a path below the written one when nothing at or below it is announced as a new leaf. */
  lemma LeafBelowQuiet(root: Members, path: Path, v: Value, entries: seq<Entry>, s: Path)
    requires ReadAt(root, path) != v
    requires ExactDiff(entries, path, ReadAt(root, path), v)
    requires path + s != []
    requires !Changed(ReadAt(root, path), v, s)
    requires forall rest | rest != [] && Changed(ReadAt(root, path), v, s + rest) :: At(v, s + rest) == Undefined
    ensures LeafAt(Replay(root, entries), path + s) == LeafAt(WriteAt(root, path, v), path + s)
      <==> !Lost(At(ReadAt(root, path), s), At(v, s))
  {
    var o, q := ReadAt(root, path), path + s;
    ExactDiffIsLeafWrites(root, path, v, entries);
    ReadBelowWrite(root, path, v, s);
    forall e | e in entries
      ensures e.path != q && (q < e.path ==> e.value == Undefined)
    {
      QuietEntry(path, o, v, s, e);
    }
    ReplaySpares(root, entries, q);
    HasLeafExact(At(v, s));
    if HasLeaf(At(v, s)) && !At(o, s).IsObject() && At(v, s).IsObject() {
      NewLeafChanges(o, v, s);
    }
  }

  lemma LeafBelow(root: Members, path: Path, v: Value, entries: seq<Entry>, s: Path)
    requires ReadAt(root, path) != v
    requires ExactDiff(entries, path, ReadAt(root, path), v)
    requires path + s != []
    ensures LeafAt(Replay(root, entries), path + s) == LeafAt(WriteAt(root, path, v), path + s)
      <==> !Lost(At(ReadAt(root, path), s), At(v, s))
  {
    var o := ReadAt(root, path);
    assert s + [] == s;
    if Changed(o, v, s) {
      LeafBelowAnnounced(root, path, v, entries, s, []);
    } else if rest :| rest != [] && Changed(o, v, s + rest) && At(v, s + rest).Defined? {
      LeafBelowAnnounced(root, path, v, entries, s, rest);
    } else {
      LeafBelowQuiet(root, path, v, entries, s);
    }
  }

  /** The leaf at a path above the written one. */
  lemma LeafAbove(root: Members, path: Path, v: Value, entries: seq<Entry>, q: Path)
    requires ReadAt(root, path) != v
    requires ExactDiff(entries, path, ReadAt(root, path), v)
    requires q < path
    ensures LeafAt(Replay(root, entries), q) == LeafAt(WriteAt(root, path, v), q)
      <==> HasLeaf(v) || LeafAt(root, q) == Undefined
  {
    var o := ReadAt(root, path);
    ExactDiffIsLeafWrites(root, path, v, entries);
    WriteAbove(root, path, v, q);
    HasLeafExact(v);
    if o == Undefined && HasLeaf(v) {
      var r :| IsLeaf(v, r);
      if r != [] { AtUndefined(o, r); }
      assert Changed(o, v, r);
      ReplayHits(root, entries, Entry(path + r, At(v, r)), q);
    } else if e :| e in entries && e.value.Defined? {
      assert IsLeaf(v, e.path[|path|..]);
      ReplayHits(root, entries, e, q);
    } else {
      ReplaySpares(root, entries, q);
    }
    if o.Defined? {
      ParentsAreObjects(Root(root), q, path);
    }
  }

  /**
   Replaying the announced entries on the old tree, in whatever order they come,
   rebuilds the leaf map of the new tree exactly under this condition on the write.
   */
  predicate ReplaySuffices(root: Members, path: Path, v: Value) {
    if path == [] then !v.IsObject() || Replayable(ReadAt(root, path), v)
    else Replayable(ReadAt(root, path), v) && (HasLeaf(v) || NoPlainAbove(root, path))
  }

  lemma ReplayExact(root: Members, path: Path, v: Value, entries: seq<Entry>)
    requires ReadAt(root, path) != v
    requires ExactDiff(entries, path, ReadAt(root, path), v)
    ensures SameLeafMap(Replay(root, entries), WriteAt(root, path, v)) <==> ReplaySuffices(root, path, v)
  {
    var o := ReadAt(root, path);
    var replayed, written := Replay(root, entries), WriteAt(root, path, v);
    ReplayableExact(o, v);
    if ReplaySuffices(root, path, v) {
      forall q
        ensures LeafAt(replayed, q) == LeafAt(written, q)
      {
        ReplayAt(root, path, v, entries, q);
      }
    } else if !Replayable(o, v) {
      var r :| LostAt(o, v, r);
      assert path + r != [] by { if path == [] { assert v.IsObject(); } }
      LeafBelow(root, path, v, entries, r);
      assert LeafAt(replayed, path + r) != LeafAt(written, path + r);
    } else {
      var i :| 0 <= i < |path| && LeafAt(root, path[..i]) != Undefined;
      LeafAbove(root, path, v, entries, path[..i]);
      assert LeafAt(replayed, path[..i]) != LeafAt(written, path[..i]);
    }
  }

  lemma ReplayAt(root: Members, path: Path, v: Value, entries: seq<Entry>, q: Path)
    requires ReadAt(root, path) != v
    requires ExactDiff(entries, path, ReadAt(root, path), v)
    requires ReplaySuffices(root, path, v)
    ensures LeafAt(Replay(root, entries), q) == LeafAt(WriteAt(root, path, v), q)
  {
    var o := ReadAt(root, path);
    if q == [] {
    } else if path <= q {
      var s := q[|path|..];
      assert q == path + s;
      LeafBelow(root, path, v, entries, s);
      ReplayableExact(o, v);
      assert Replayable(o, v) ==> !LostAt(o, v, s);
      if path == [] && !v.IsObject() { AtUndefined(v, s); }
    } else if q <= path {
      LeafAbove(root, path, v, entries, q);
      assert path[..|q|] == q;
    } else {
      ExactDiffIsLeafWrites(root, path, v, entries);
      WriteLeavesOthers(root, path, v, q);
      forall e | e in entries
        ensures e.path != q && !(q < e.path)
      {
        assert forall i | 0 <= i < |path| :: path[i] == e.path[i];
      }
      ReplaySpares(root, entries, q);
    }
  }

  /** The new value keeps every object an object, or drops it. */
  ghost predicate KeepsObjects(o: Value, n: Value) {
    forall r :: At(o, r).IsObject() && At(n, r).Defined? ==> At(n, r).IsObject()
  }

  lemma {:induction false} NoEmptyObjectHasLeaf(v: Value)
    requires SettingsCoherence.NoEmptyObject(v) && v.Defined?
    ensures HasLeaf(v)
    decreases v.json
  {
    if v.IsObject() {
      var key :| key in v.ToObject();
      NoEmptyObjectHasLeaf(Child(v, key));
    }
  }

  lemma {:induction false} NoEmptyObjectInside(v: Value, r: Path)
    requires SettingsCoherence.NoEmptyObject(v)
    ensures SettingsCoherence.NoEmptyObject(At(v, r))
    decreases r
  {
    if r != [] {
      NoEmptyObjectInside(Child(v, r[0]), r[1..]);
    }
  }

  /** Without empty objects in the new value and without objects turned plain, every order of replay works. */
  lemma ReplayWithoutEmptyObjects(root: Members, path: Path, v: Value, entries: seq<Entry>)
    requires ReadAt(root, path) != v
    requires ExactDiff(entries, path, ReadAt(root, path), v)
    requires SettingsCoherence.NoEmptyObject(v) && KeepsObjects(ReadAt(root, path), v)
    ensures SameLeafMap(Replay(root, entries), WriteAt(root, path, v))
  {
    var o := ReadAt(root, path);
    forall r
      ensures !LostAt(o, v, r)
    {
      NoEmptyObjectInside(v, r);
      if At(v, r).Defined? { NoEmptyObjectHasLeaf(At(v, r)); }
    }
    ReplayableExact(o, v);
    if v.Defined? {
      NoEmptyObjectHasLeaf(v);
    } else {
      forall i | 0 <= i < |path|
        ensures LeafAt(root, path[..i]) == Undefined
      {
        ParentsAreObjects(Root(root), path[..i], path);
      }
    }
    ReplayExact(root, path, v, entries);
  }
}
