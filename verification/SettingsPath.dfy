/** Dotted settings paths: SettingsFilePrivate::splitPath and SettingsObject::path. */
module SettingsPath {
  import opened Json
  import opened Strings

  datatype ParsedPath = Bad | Good(path: Path)

  const DOT := '.'

  /** What a dotted text denotes: one leading dot is dropped, any other empty component is an error. */
  function Parse(input: string): ParsedPath {
    var all := Split(input, DOT);
    var components := if all[0] == "" then all[1..] else all;
    if "" in components then Bad else Good(components)
  }

  function Print(path: Path): string {
    Join(path, DOT)
  }

  ghost predicate IsPlain(path: Path) {
    forall word | word in path :: word != "" && DOT !in word
  }

  method SplitPath(input: string) returns (parsed: ParsedPath)
    ensures parsed == Parse(input)
  {
    var components := Split(input, DOT);
    if components[0] == "" {
      components := components[1..];
    }
    for i := 0 to |components|
      invariant "" !in components[..i]
    {
      if components[i] == "" {
        return Bad;
      }
    }
    return Good(components);
  }

  lemma SplitPrint(path: Path)
    requires IsPlain(path)
    ensures Split(Print(path), DOT) == if path == [] then [""] else path
  {
    if path != [] {
      SplitJoin(path, DOT);
    }
  }

  /** Printing and parsing are inverse: parsing yields only printable paths, and loses none of them. */
  lemma ParsePrint(path: Path)
    ensures IsPlain(path) <==> Parse(Print(path)) == Good(path)
  {
    if IsPlain(path) {
      SplitPrint(path);
    } else {
      JoinSplit(Print(path), DOT);
    }
  }

  lemma PrintParse(input: string)
    requires Parse(input).Good?
    ensures IsPlain(Parse(input).path)
    ensures Print(Parse(input).path) == if input != "" && input[0] == DOT then input[1..] else input
  {
    JoinSplit(input, DOT);
    var all := Split(input, DOT);
    if all[0] == "" && input != "" {
      assert input[0] == DOT;
      JoinSplit(input[1..], DOT);
      assert all[1..] == Split(input[1..], DOT);
    }
  }

  /** The separator is the full stop, and a leading one is no component of its own. */
  lemma {:induction false} FullStopSeparates(a: string, b: string)
    requires a != "" && b != "" && '.' !in a && '.' !in b
    ensures Parse(a + "." + b) == Parse("." + a + "." + b) == Good([a, b])
  {
    var path := [a, b];
    SplitPrint(path);
    assert path[1..] == [b];
    assert Join([b], DOT) == b && Print(path) == a + [DOT] + b;
    assert a + [DOT] + b == a + "." + b;
    SplitConcat("", a + "." + b, DOT);
    assert "" + [DOT] + (a + "." + b) == "." + a + "." + b;
  }

  /**
   The path of a child object is the base path followed by the key's own path;
   an empty key and a key with a leading dot are rejected, except that a
   leading dot has no other effect on a text of its own.
   */
  lemma ParseChild(base: Path, key: string)
    requires IsPlain(base)
    ensures Parse(Print(base) + [DOT] + key)
      == if key != "" && key[0] != DOT && Parse(key).Good? then Good(base + Parse(key).path) else Bad
  {
    SplitPrint(base);
    SplitConcat(Print(base), key, DOT);
    JoinSplit(key, DOT);
    var words := Split(key, DOT);
    var all := Split(Print(base), DOT) + words;
    assert words[0] == "" <==> key == "" || key[0] == DOT;
    if base == [] {
      assert all[1..] == words;
    } else {
      assert all == base + words;
      assert all[0] == base[0] && base[0] in base;
    }
    assert "" in words ==> "" in base + words;
  }
}
