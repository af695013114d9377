/** findModifiedRecursive: which paths a write announces. */
module SettingsDiff {
  import opened Json
  import opened SettingsTree

  /** An announced path with its new value. */
  datatype Entry = Entry(path: Path, value: Value)

  /** Both sides read as a non-object (Undefined counts as one) and differ. */
  ghost predicate Changed(o: Value, n: Value, r: Path) {
    !At(o, r).IsObject() && !At(n, r).IsObject() && At(o, r) != At(n, r)
  }

  ghost predicate DistinctPaths(entries: seq<Entry>) {
    forall i, j | 0 <= i < j < |entries| :: entries[i].path != entries[j].path
  }

  /** The entry lies below base and tells a change between o and n. */
  ghost predicate Tells(e: Entry, base: Path, o: Value, n: Value) {
    && base <= e.path
    && Changed(o, n, e.path[|base|..])
    && e.value == At(n, e.path[|base|..])
  }

  /** The entries are exactly the changes between o and n, in some order, each once. */
  ghost predicate ExactDiff(entries: seq<Entry>, base: Path, o: Value, n: Value) {
    && DistinctPaths(entries)
    && (forall e | e in entries :: Tells(e, base, o, n))
    && (forall r | Changed(o, n, r) :: Entry(base + r, At(n, r)) in entries)
  }

  /** The part of an exact diff whose first step below base is one of the given keys. */
  ghost predicate PartialDiff(entries: seq<Entry>, base: Path, o: Value, n: Value, keys: set<string>) {
    && DistinctPaths(entries)
    && (forall e | e in entries :: Tells(e, base, o, n) && |e.path| > |base| && e.path[|base|] in keys)
    && (forall r | r != [] && r[0] in keys && Changed(o, n, r) :: Entry(base + r, At(n, r)) in entries)
  }

  lemma ChangedBelow(o: Value, n: Value, r: Path)
    requires r != []
    ensures Changed(o, n, r) <==> Changed(Child(o, r[0]), Child(n, r[0]), r[1..])
  {
  }

  lemma EqualMeansUnchanged(v: Value)
    ensures forall r :: !Changed(v, v, r)
  {
  }

  /** Two different values, neither of which is an object, differ only at the top. */
  lemma LeafDiff(base: Path, o: Value, n: Value)
    requires o != n && !o.IsObject() && !n.IsObject()
    ensures ExactDiff([Entry(base, n)], base, o, n)
  {
    forall r | Changed(o, n, r)
      ensures r == []
    {
      if r != [] {
        AtUndefined(o, r);
        AtUndefined(n, r);
      }
    }
    assert base + [] == base;
    assert base[|base|..] == [];
  }

  /** The diff of one more child extends a partial diff. */
  lemma AddChild(entries: seq<Entry>, sub: seq<Entry>, base: Path, o: Value, n: Value, keys: set<string>, key: string)
    requires PartialDiff(entries, base, o, n, keys) && key !in keys
    requires ExactDiff(sub, base + [key], Child(o, key), Child(n, key))
    ensures PartialDiff(entries + sub, base, o, n, keys + {key})
  {
    forall e | e in sub
      ensures Tells(e, base, o, n) && |e.path| > |base| && e.path[|base|] == key
    {
      var r := e.path[|base| + 1..];
      assert e.path[|base + [key]|..] == r;
      assert e.path[|base|] == (base + [key])[|base|];
      assert e.path[|base|..] == [key] + r;
      ChangedBelow(o, n, [key] + r);
    }
    var all := entries + sub;
    forall i, j | 0 <= i < j < |all|
      ensures all[i].path != all[j].path
    {
      assert all[i] in entries || all[i] in sub;
      if i < |entries| <= j {
        assert all[i] in entries && all[j] in sub;
      }
    }
    forall r | r != [] && r[0] in keys + {key} && Changed(o, n, r)
      ensures Entry(base + r, At(n, r)) in all
    {
      if r[0] == key {
        ChangedBelow(o, n, r);
        assert base + r == base + [key] + r[1..];
      }
    }
  }

  /** A child that does not change adds nothing. */
  lemma SkipChild(entries: seq<Entry>, base: Path, o: Value, n: Value, keys: set<string>, key: string)
    requires PartialDiff(entries, base, o, n, keys) && key !in keys
    requires Child(o, key) == Child(n, key)
    ensures PartialDiff(entries, base, o, n, keys + {key})
  {
    forall r | r != [] && r[0] == key
      ensures !Changed(o, n, r)
    {
      EqualMeansUnchanged(Child(o, key));
      ChangedBelow(o, n, r);
    }
  }

  /** Once every key of both objects is covered, the partial diff is the whole diff. */
  lemma AllKeysCovered(entries: seq<Entry>, base: Path, o: Value, n: Value, keys: set<string>)
    requires o.IsObject() || n.IsObject()
    requires keys == o.ToObject().Keys + n.ToObject().Keys
    requires PartialDiff(entries, base, o, n, keys)
    ensures ExactDiff(entries, base, o, n)
  {
    forall r | Changed(o, n, r)
      ensures r != [] && r[0] in keys
    {
      if r != [] && r[0] !in keys {
        EqualMeansUnchanged(Undefined);
        ChangedBelow(o, n, r);
      }
    }
  }

  /** Appends the changes below one child that differs. */
  method FindModifiedChild(modified: seq<Entry>, path: Path, o: Value, n: Value) returns (result: seq<Entry>)
    requires o != n
    ensures modified <= result
    ensures ExactDiff(result[|modified|..], path, o, n)
    decreases if o.Defined? then 1 else 0, if o.Defined? then o.json else Null, if n.Defined? then n.json else Null, 1
  {
    if o.IsObject() || n.IsObject() {
      result := FindModifiedRecursive(modified, path, o, n);
    } else {
      LeafDiff(path, o, n);
      result := modified + [Entry(path, n)];
      assert result[|modified|..] == [Entry(path, n)];
    }
  }

  /**
   Appends the changes between o and n to the list, whatever order the keys are visited in.
   */
  method FindModifiedRecursive(modified: seq<Entry>, path: Path, o: Value, n: Value) returns (result: seq<Entry>)
    requires o != n
    ensures modified <= result
    ensures ExactDiff(result[|modified|..], path, o, n)
    decreases if o.Defined? then 1 else 0, if o.Defined? then o.json else Null, if n.Defined? then n.json else Null, 0
  {
    if o.IsObject() || n.IsObject() {
      var oldObject, newObject := o.ToObject(), n.ToObject();
      ghost var added: seq<Entry> := [];
      result := modified;

      var todo := oldObject.Keys;
      while todo != {}
        invariant result == modified + added
        invariant todo <= oldObject.Keys
        invariant PartialDiff(added, path, o, n, oldObject.Keys - todo)
      {
        var key :| key in todo;
        ghost var before, done := result, oldObject.Keys - todo;
        todo := todo - {key};
        assert oldObject.Keys - todo == done + {key};
        if Defined(oldObject[key]) == Get(newObject, key) {
          SkipChild(added, path, o, n, done, key);
        } else {
          result := FindModifiedChild(result, path + [key], Defined(oldObject[key]), Get(newObject, key));
          AddChild(added, result[|before|..], path, o, n, done, key);
          added := added + result[|before|..];
        }
      }

      todo := newObject.Keys - oldObject.Keys;
      while todo != {}
        invariant result == modified + added
        invariant todo <= newObject.Keys - oldObject.Keys
        invariant PartialDiff(added, path, o, n, oldObject.Keys + newObject.Keys - todo)
      {
        var key :| key in todo;
        ghost var before, done := result, oldObject.Keys + newObject.Keys - todo;
        todo := todo - {key};
        assert oldObject.Keys + newObject.Keys - todo == done + {key};
        result := FindModifiedChild(result, path + [key], Undefined, Defined(newObject[key]));
        AddChild(added, result[|before|..], path, o, n, done, key);
        added := added + result[|before|..];
      }
      AllKeysCovered(added, path, o, n, oldObject.Keys + newObject.Keys);
      assert result[|modified|..] == added;
    } else {
      LeafDiff(path, o, n);
      result := modified + [Entry(path, n)];
      assert result[|modified|..] == [Entry(path, n)];
    }
  }
}
