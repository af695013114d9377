/** SettingsFile and SettingsObject: the shared tree, and the cached subtrees kept up to date by announcements. */
module SettingsStore {
  import opened Json
  import opened SettingsPath
  import opened SettingsTree
  import opened SettingsDiff
  import opened SettingsCoherence

  /** What one announcement makes an object with path q emit. */
  ghost function Told(e: Entry, q: Path): seq<Entry> {
    if q <= e.path then [Entry(e.path[|q|..], e.value)] else []
  }

  /** The announcements that reach an object with path q, relative to that path. */
  ghost function Heard(announced: seq<Entry>, q: Path): seq<Entry> {
    if announced == [] then []
    else var last := |announced| - 1; Heard(announced[..last], q) + Told(announced[last], q)
  }

  ghost predicate Reaches(announced: seq<Entry>, q: Path) {
    exists e | e in announced :: q <= e.path
  }

  /** The state of one listener: what it has emitted and what it caches. */
  datatype Listener = Listener(heard: seq<Entry>, cache: Members)

  /** A listener with path q after one more announcement about the given tree. */
  ghost function Notified(l: Listener, q: Path, e: Entry, root: Members): Listener {
    Listener(l.heard + Told(e, q), if q <= e.path then ReadAt(root, q).ToObject() else l.cache)
  }

  ghost function NotifiedAll(l: Listener, q: Path, announced: seq<Entry>, root: Members): Listener {
    if announced == [] then l
    else
      var last := |announced| - 1;
      Notified(NotifiedAll(l, q, announced[..last], root), q, announced[last], root)
  }

  /** However many announcements reach a listener, they all leave it with the subtree of the final tree. */
  lemma {:induction false} NotifiedAllMeans(l: Listener, q: Path, announced: seq<Entry>, root: Members)
    ensures NotifiedAll(l, q, announced, root)
      == Listener(l.heard + Heard(announced, q), if Reaches(announced, q) then ReadAt(root, q).ToObject() else l.cache)
  {
    if announced != [] {
      var last := |announced| - 1;
      NotifiedAllMeans(l, q, announced[..last], root);
      assert announced == announced[..last] + [announced[last]];
      if q <= announced[last].path { assert announced[last] in announced; }
    }
  }

  lemma ReachesMeansTouched(announced: seq<Entry>, q: Path, path: Path, o: Value, n: Value)
    requires ExactDiff(announced, path, o, n)
    ensures Reaches(announced, q) <==> Touched(q, path, o, n)
  {
    if e :| e in announced && q <= e.path {
      assert e.path == path + e.path[|path|..];
    }
    if r :| Changed(o, n, r) && q <= path + r {
      assert Entry(path + r, At(n, r)) in announced;
    }
  }

  /** The announced entries are the exact difference between the whole old and new trees. */
  lemma WholeTreeDiff(root: Members, path: Path, v: Value, announced: seq<Entry>)
    requires ReadAt(root, path) != v && ExactDiff(announced, path, ReadAt(root, path), v)
    ensures ExactDiff(announced, [], Root(root), Root(WriteAt(root, path, v)))
  {
    var o, after := ReadAt(root, path), Root(WriteAt(root, path, v));
    forall r | path + r != []
      ensures At(Root(root), path + r) == At(o, r) && At(after, path + r) == At(v, r)
    {
      AtConcat(Root(root), path, r);
      if path != [] { ReadAfterWrite(root, path, v, r); } else { assert path + r == r; ReadAfterRootWrite(root, v, r); }
    }
    forall e | e in announced
      ensures Tells(e, [], Root(root), after)
    {
      assert e.path == path + e.path[|path|..];
      assert e.path[0..] == e.path;
    }
    forall q | Changed(Root(root), after, q)
      ensures Entry([] + q, At(after, q)) in announced
    {
      assert [] + q == q;
      if !Comparable(path, q) {
        WriteLeavesOthers(root, path, v, q);
      } else if q < path {
        WriteAbove(root, path, v, q);
      } else {
        assert q == path + q[|path|..];
      }
    }
  }

  lemma {:induction false} HeardMembers(announced: seq<Entry>, q: Path)
    ensures forall e | e in Heard(announced, q) :: Entry(q + e.path, e.value) in announced
    ensures forall e | e in announced && q <= e.path :: Entry(e.path[|q|..], e.value) in Heard(announced, q)
  {
    if announced != [] {
      var last := |announced| - 1;
      HeardMembers(announced[..last], q);
      assert announced == announced[..last] + [announced[last]];
      var e := announced[last];
      if q <= e.path {
        assert q + e.path[|q|..] == e.path;
      }
    }
  }

  lemma AppendNoRepeats(entries: seq<Entry>, e: Entry)
    requires DistinctPaths(entries) && forall x | x in entries :: x.path != e.path
    ensures DistinctPaths(entries + [e])
  {
  }

  lemma NotHeardBefore(announced: seq<Entry>, q: Path)
    requires DistinctPaths(announced) && announced != [] && q <= announced[|announced| - 1].path
    ensures forall x | x in Heard(announced[..|announced| - 1], q) :: x.path != announced[|announced| - 1].path[|q|..]
  {
    var before, path := announced[..|announced| - 1], announced[|announced| - 1].path;
    HeardMembers(before, q);
    assert q + path[|q|..] == path;
    forall x | x in Heard(before, q)
      ensures x.path != path[|q|..]
    {
      var k :| 0 <= k < |before| && before[k] == Entry(q + x.path, x.value);
      assert announced[k].path == q + x.path;
    }
  }

  lemma {:induction false} HeardNoRepeats(announced: seq<Entry>, q: Path)
    requires DistinctPaths(announced)
    ensures DistinctPaths(Heard(announced, q))
  {
    if announced != [] {
      var last := |announced| - 1;
      var e, before := announced[last], announced[..last];
      HeardNoRepeats(before, q);
      if q <= e.path {
        NotHeardBefore(announced, q);
        AppendNoRepeats(Heard(before, q), Entry(e.path[|q|..], e.value));
      }
    }
  }

  /** What one object hears of a write is the exact difference of its own subtree. */
  lemma HeardIsOwnDiff(root: Members, path: Path, v: Value, announced: seq<Entry>, q: Path)
    requires ReadAt(root, path) != v && ExactDiff(announced, path, ReadAt(root, path), v)
    ensures ExactDiff(Heard(announced, q), [], ReadAt(root, q), ReadAt(WriteAt(root, path, v), q))
  {
    var before, after := Root(root), Root(WriteAt(root, path, v));
    WholeTreeDiff(root, path, v, announced);
    HeardMembers(announced, q);
    HeardNoRepeats(announced, q);
    forall e | e in Heard(announced, q)
      ensures Tells(e, [], At(before, q), At(after, q))
    {
      var whole := Entry(q + e.path, e.value);
      assert Tells(whole, [], before, after);
      assert whole.path[0..] == whole.path && e.path[0..] == e.path;
      ChangedConcat(before, after, q, e.path);
      AtConcat(after, q, e.path);
    }
    forall r | Changed(At(before, q), At(after, q), r)
      ensures Entry([] + r, At(At(after, q), r)) in Heard(announced, q)
    {
      ChangedConcat(before, after, q, r);
      AtConcat(after, q, r);
      assert [] + (q + r) == q + r && [] + r == r;
      assert Entry(q + r, At(after, q + r)) in announced;
      assert (q + r)[|q|..] == r;
    }
  }

  /** A write that leaves every cache as it should be. */
  predicate KeepsCaches(root: Members, path: Path, v: Value) {
    ReadAt(root, path) == v || Announces(path, ReadAt(root, path), v)
  }

  /** One step down the path, and one step back up with the rebuilt child. */
  lemma OneStep(v: Value, path: Path, k: nat, w: Value)
    requires k < |path|
    ensures At(v, path[..k + 1]) == Child(At(v, path[..k]), path[k])
    ensures Put(At(v, path[..k]), path[k..], w)
      == Root(Insert(At(v, path[..k]).ToObject(), path[k], Put(At(v, path[..k + 1]), path[k + 1..], w)))
  {
    assert path[..k + 1] == path[..k] + [path[k]];
    AtConcat(v, path[..k], [path[k]]);
    assert path[k..][1..] == path[k + 1..];
  }

  class SettingsFile {
    var jsonRoot: Members
    var listeners: seq<SettingsObject>

    constructor ()
      ensures jsonRoot == map[] && listeners == []
    {
      jsonRoot, listeners := map[], [];
    }

    ghost predicate Valid()
      reads this, listeners
    {
      && (forall i, j | 0 <= i < j < |listeners| :: listeners[i] != listeners[j])
      && (forall s | s in listeners :: s.file == this && IsPlain(s.path) && (s.invalid ==> s.path == []))
    }

    /** Every valid object's cached subtree is the one a plain read of the file finds. */
    ghost predicate Coherent()
      reads this, listeners
    {
      forall s | s in listeners :: !s.invalid ==> s.cache == ReadAt(jsonRoot, s.path).ToObject()
    }

    static method Read(base: Members, path: Path) returns (value: Value)
      ensures value == ReadAt(base, path)
    {
      value := Root(base);
      for i := 0 to |path|
        invariant At(Root(base), path) == At(value, path[i..])
      {
        var members := value.ToObject();
        value := Get(members, path[i]);
        if members == map[] || value == Undefined {
          if path[i + 1..] != [] { AtUndefined(Undefined, path[i + 1..]); }
          return Undefined;
        }
      }
    }

    /** Walks down to the path remembering the parents, then rebuilds them bottom up. */
    static method Rebuild(root: Members, path: Path, value: Value) returns (original: Value, updated: Members)
      ensures original == ReadAt(root, path)
      ensures updated == WriteAt(root, path, value)
    {
      var current, currentKey := Root(root), "";
      var stack: seq<(string, Members)> := [];
      for i := 0 to |path|
        invariant |stack| == i
        invariant current == At(Root(root), path[..i])
        invariant currentKey == if i == 0 then "" else path[i - 1]
        invariant forall j | 0 <= j < i ::
                    stack[j] == (if j == 0 then "" else path[j - 1], At(Root(root), path[..j]).ToObject())
      {
        OneStep(Root(root), path, i, value);
        var parent := current.ToObject();
        stack := stack + [(currentKey, parent)];
        current := Get(parent, path[i]);
        currentKey := path[i];
      }
      assert path[..|path|] == path;

      original := current;
      if current == value {
        return original, root;
      }
      current := value;
      var k := |stack|;
      while k > 0
        invariant 0 <= k <= |path|
        invariant current == Put(At(Root(root), path[..k]), path[k..], value)
        invariant currentKey == if k == 0 then "" else path[k - 1]
      {
        k := k - 1;
        OneStep(Root(root), path, k, value);
        current := Defined(Object(Insert(stack[k].1, currentKey, current)));
        currentKey := stack[k].0;
      }
      assert path[..0] == [] && path[0..] == path;
      updated := current.ToObject();
    }

    method Write(path: Path, value: Value) returns (changed: bool, ghost announced: seq<Entry>)
      requires Valid()
      modifies this`jsonRoot, listeners`cache, listeners`heard
      ensures Valid()
      ensures changed <==> ReadAt(old(jsonRoot), path) != value
      ensures jsonRoot == WriteAt(old(jsonRoot), path, value)
      ensures if changed then ExactDiff(announced, path, ReadAt(old(jsonRoot), path), value) else announced == []
      ensures forall s | s in listeners :: s.heard == old(s.heard) + Heard(announced, s.path)
      ensures forall s | s in listeners ::
                s.cache == if changed && Touched(s.path, path, ReadAt(old(jsonRoot), path), value)
                           then ReadAt(jsonRoot, s.path).ToObject() else old(s.cache)
      ensures old(Coherent()) && KeepsCaches(old(jsonRoot), path, value) ==> Coherent()
    {
      var originalValue, updated := Rebuild(jsonRoot, path, value);
      if originalValue == value {
        return false, [];
      }
      ghost var oldRoot := jsonRoot;
      jsonRoot := updated;
      var modified := FindModifiedRecursive([], path, originalValue, value);
      assert modified[0..] == modified;
      EmitAll(modified);
      changed, announced := true, modified;

      forall s | s in listeners
        ensures s.heard == old(s.heard) + Heard(announced, s.path)
        ensures s.cache == if Touched(s.path, path, originalValue, value) then ReadAt(jsonRoot, s.path).ToObject() else old(s.cache)
      {
        NotifiedAllMeans(old(s.State()), s.path, modified, jsonRoot);
        ReachesMeansTouched(announced, s.path, path, originalValue, value);
      }
      if KeepsCaches(oldRoot, path, value) {
        forall s | s in listeners
          ensures Touched(s.path, path, originalValue, value) || SameSubtree(oldRoot, path, value, s.path)
        {
          UpToDate(oldRoot, path, value, s.path);
        }
      }
    }

    method EmitAll(modified: seq<Entry>)
      requires Valid()
      modifies listeners`cache, listeners`heard
      ensures forall s | s in listeners :: s.State() == NotifiedAll(old(s.State()), s.path, modified, jsonRoot)
    {
      for i := 0 to |modified|
        invariant forall s | s in listeners :: s.State() == NotifiedAll(old(s.State()), s.path, modified[..i], jsonRoot)
      {
        Emit(modified[i]);
        assert modified[..i + 1][..i] == modified[..i];
      }
      assert modified[..|modified|] == modified;
    }

    method Emit(e: Entry)
      requires Valid()
      modifies listeners`cache, listeners`heard
      ensures forall s | s in listeners :: s.State() == Notified(old(s.State()), s.path, e, jsonRoot)
    {
      for i := 0 to |listeners|
        invariant forall j | 0 <= j < i ::
                    listeners[j].State() == Notified(old(listeners[j].State()), listeners[j].path, e, jsonRoot)
        invariant forall j | i <= j < |listeners| :: listeners[j].State() == old(listeners[j].State())
      {
        listeners[i].Modified(e.path, e.value);
      }
    }
  }

  class SettingsObject {
    const file: SettingsFile
    var path: Path
    var cache: Members
    var invalid: bool
    /** The (relative path, value) pairs emitted through this object's own modified signal. */
    ghost var heard: seq<Entry>

    constructor (file: SettingsFile, input: string)
      requires file.Valid()
      modifies file`listeners
      ensures this.file == file && file.listeners == old(file.listeners) + [this] && file.Valid()
      ensures if Parse(input).Good?
              then !invalid && path == Parse(input).path && cache == ReadAt(file.jsonRoot, path).ToObject()
              else invalid && path == [] && cache == map[]
      ensures old(file.Coherent()) ==> file.Coherent()
    {
      this.file, path, cache, invalid := file, [], map[], true;
      heard := [];
      new;
      file.listeners := file.listeners + [this];
      SetPath(input);
    }

    /** An object whose path extends that of another one. */
    constructor Under(base: SettingsObject, input: string)
      requires base in base.file.listeners && base.file.Valid()
      modifies base.file`listeners
      ensures file == base.file && file.listeners == old(base.file.listeners) + [this] && file.Valid()
      ensures if input != "" && input[0] != DOT && Parse(input).Good?
              then !invalid && path == base.path + Parse(input).path && cache == ReadAt(file.jsonRoot, path).ToObject()
              else invalid && path == [] && cache == map[]
      ensures old(base.file.Coherent()) ==> file.Coherent()
    {
      this.file, path, cache, invalid := base.file, [], map[], true;
      heard := [];
      new;
      file.listeners := file.listeners + [this];
      ParseChild(base.path, input);
      SetPath(Print(base.path) + [DOT] + input);
    }

    ghost function State(): Listener
      reads this
    {
      Listener(heard, cache)
    }

    /** The slot on the file's announcements. It does not look at invalid. */
    method Modified(key: Path, value: Value)
      modifies this`cache, this`heard
      ensures State() == Notified(old(State()), path, Entry(key, value), file.jsonRoot)
    {
      if |key| < |path| {
        return;
      }
      for i := 0 to |path|
        invariant path[..i] == key[..i]
      {
        if path[i] != key[i] {
          return;
        }
      }
      var current := SettingsFile.Read(file.jsonRoot, path);
      cache := current.ToObject();
      heard := heard + [Entry(key[|path|..], value)];
    }

    method SetPath(input: string)
      requires this in file.listeners && file.Valid()
      modifies this`path, this`cache, this`invalid
      ensures file.Valid()
      ensures Parse(input) == Bad ==> invalid && path == [] && cache == map[]
      ensures Parse(input).Good? ==> !invalid && path == Parse(input).path
      ensures Parse(input).Good? ==>
                cache == if !old(invalid) && old(path) == path then old(cache) else ReadAt(file.jsonRoot, path).ToObject()
      ensures old(file.Coherent()) ==> file.Coherent()
    {
      var parsed := SplitPath(input);
      match parsed {
        case Bad =>
          invalid, path, cache := true, [], map[];
        case Good(newPath) =>
          PrintParse(input);
          if !invalid && path == newPath {
            return;
          }
          path, invalid := newPath, false;
          var value := SettingsFile.Read(file.jsonRoot, path);
          cache := value.ToObject();
      }
    }

    method SetData(input: Members)
      requires this in file.listeners && file.Valid() && file.Coherent()
      modifies file`jsonRoot, file.listeners`cache, file.listeners`heard
      ensures file.Valid()
      ensures invalid ==> file.jsonRoot == old(file.jsonRoot) && cache == old(cache)
      ensures !invalid ==> cache == input && ReadAt(file.jsonRoot, path).ToObject() == input
      ensures file.jsonRoot == if invalid || old(cache) == input then old(file.jsonRoot)
                               else WriteAt(old(file.jsonRoot), path, Root(input))
      ensures KeepsCaches(old(file.jsonRoot), path, Root(input)) ==> file.Coherent()
    {
      if invalid || cache == input {
        return;
      }
      ghost var root := file.jsonRoot;
      cache := input;
      var changed, announced := file.Write(path, Root(cache));
      SameAfterWrite(root, path, Root(input));
      if KeepsCaches(root, path, Root(input)) {
        StillCoherent(root, Root(input));
      }
    }

    /** What every listener's cache holds after a write that KeepsCaches, given what it held before. */
    lemma StillCoherent(root: Members, v: Value)
      requires this in file.listeners
      requires KeepsCaches(root, path, v)
      requires file.jsonRoot == WriteAt(root, path, v)
      requires cache == ReadAt(file.jsonRoot, path).ToObject()
      requires forall s | s in file.listeners && s != this ::
                 || s.cache == ReadAt(file.jsonRoot, s.path).ToObject()
                 || (!Touched(s.path, path, ReadAt(root, path), v) && (s.invalid || s.cache == ReadAt(root, s.path).ToObject()))
                 || (ReadAt(root, path) == v && (s.invalid || s.cache == ReadAt(root, s.path).ToObject()))
      ensures file.Coherent()
    {
      forall s | s in file.listeners && !s.invalid
        ensures s.cache == ReadAt(file.jsonRoot, s.path).ToObject()
      {
        if ReadAt(root, path) != v { UpToDate(root, path, v, s.path); }
      }
    }

    static lemma SameAfterWrite(root: Members, path: Path, v: Value)
      ensures ReadAt(WriteAt(root, path, v), path).ToObject() == v.ToObject()
    {
      assert path + [] == path;
      if path != [] { ReadAfterWrite(root, path, v, []); }
    }

    /** Reading through the cache: a plain read of the file when the cache is coherent. */
    method Read(key: string, defaultValue: Value) returns (value: Value)
      requires this in file.listeners
      ensures var p := Parse(key);
              if invalid || p == Bad || p.path == [] then value == defaultValue
              else
                var found := At(Root(cache), p.path);
                value == (if found == Undefined then defaultValue else found)
                && (file.Coherent() ==> found == ReadAt(file.jsonRoot, path + p.path))
    {
      var splitKey := SplitPath(key);
      if invalid || splitKey == Bad || splitKey.path == [] {
        return defaultValue;
      }
      AtConcat(Root(file.jsonRoot), path, splitKey.path);
      value := SettingsFile.Read(cache, splitKey.path);
      if value == Undefined {
        value := defaultValue;
      }
    }

    method Write(key: string, value: Value)
      requires this in file.listeners && file.Valid()
      modifies file`jsonRoot, file.listeners`cache, file.listeners`heard
      ensures file.Valid()
      ensures var p := Parse(key);
              if invalid || p == Bad || p.path == [] then file.jsonRoot == old(file.jsonRoot) && cache == old(cache)
              else
                && file.jsonRoot == WriteAt(old(file.jsonRoot), path + p.path, value)
                && (old(file.Coherent()) && KeepsCaches(old(file.jsonRoot), path + p.path, value)
                    ==> file.Coherent() && At(Root(cache), p.path) == value)
    {
      var splitKey := SplitPath(key);
      if invalid || splitKey == Bad || splitKey.path == [] {
        return;
      }
      ghost var root := file.jsonRoot;
      var full := path + splitKey.path;
      var changed, announced := file.Write(full, value);
      ReadAfterWrite(root, full, value, []);
      assert full + [] == full;
      AtConcat(Root(file.jsonRoot), path, splitKey.path);
    }

    /** QJsonValue() is null, so unsetting a key stores null there. */
    method Unset(key: string)
      requires this in file.listeners && file.Valid()
      modifies file`jsonRoot, file.listeners`cache, file.listeners`heard
      ensures file.Valid()
      ensures var p := Parse(key);
              if invalid || p == Bad || p.path == [] then file.jsonRoot == old(file.jsonRoot) && cache == old(cache)
              else
                && file.jsonRoot == WriteAt(old(file.jsonRoot), path + p.path, Defined(Null))
                && ReadAt(file.jsonRoot, path + p.path) == Defined(Null)
                && (old(file.Coherent()) && KeepsCaches(old(file.jsonRoot), path + p.path, Defined(Null))
                    ==> file.Coherent() && At(Root(cache), p.path) == Defined(Null))
    {
      ghost var root := file.jsonRoot;
      Write(key, Defined(Null));
      if !invalid && Parse(key).Good? && Parse(key).path != [] {
        var full := path + Parse(key).path;
        ReadAfterWrite(root, full, Defined(Null), []);
        assert full + [] == full;
      }
    }

    method Undefine()
      requires this in file.listeners && file.Valid() && file.Coherent()
      modifies file`jsonRoot, file.listeners`cache, file.listeners`heard
      ensures file.Valid()
      ensures invalid ==> file.jsonRoot == old(file.jsonRoot) && cache == old(cache)
      ensures !invalid ==> file.jsonRoot == WriteAt(old(file.jsonRoot), path, Undefined) && cache == map[]
      ensures KeepsCaches(old(file.jsonRoot), path, Undefined) ==> file.Coherent()
    {
      if invalid {
        return;
      }
      ghost var root := file.jsonRoot;
      cache := map[];
      var changed, announced := file.Write(path, Undefined);
      SameAfterWrite(root, path, Undefined);
      if KeepsCaches(root, path, Undefined) {
        StillCoherent(root, Undefined);
      }
    }
  }
}
