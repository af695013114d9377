/** What the gateway's regular expressions for names match, and that its name checks are exactly that. */
module IrcPatterns {
  import opened IrcState
  import opened Options
  import opened Sequences

  /** A bracketed set of characters, or everything else. */
  datatype CharSet = CharSet(singles: string, ranges: seq<(char, char)>, negated: bool)
  {
    predicate Has(c: char) {
      (c in singles || exists i | 0 <= i < |ranges| :: ranges[i].0 <= c <= ranges[i].1) != negated
    }
  }

  /** A set with how often it may repeat; no upper bound means any number of times. */
  datatype Item = Item(chars: CharSet, least: nat, most: Option<nat>)

  /** A pattern that starts at the beginning of the text and, if closed, ends at its end or before a last newline. */
  datatype Pattern = Pattern(items: seq<Item>, closed: bool)

  predicate Fits(item: Item, s: string) {
    && item.least <= |s| && (item.most.Some? ==> |s| <= item.most.value)
    && forall i | 0 <= i < |s| :: item.chars.Has(s[i])
  }

  predicate Matches(p: Pattern, s: string)
    decreases |p.items|
  {
    if p.items == [] then !p.closed || s == "" || s == "\n"
    else exists n | 0 <= n <= |s| :: Fits(p.items[0], s[..n]) && Matches(p.(items := p.items[1..]), s[n..])
  }

  const LETTERS := [('A', 'Z'), ('a', 'z')]
  const DIGIT := ('0', '9')
  const HEAD := CharSet("][`_^{|}", LETTERS, false)
  const TAIL := CharSet("][`_^{|}-", LETTERS + [DIGIT], false)
  const NICK := Pattern([Item(HEAD, 1, Some(1)), Item(TAIL, 0, Some(50))], true)
  const REALNAME := Pattern([Item(CharSet(".-", LETTERS + [DIGIT], false), 1, None)], false)
  const SIGIL := CharSet("&#+!", [], false)
  const UNFORBIDDEN := CharSet("\0\U{0007}\n\r ,:", [], true)
  const CHANNEL := Pattern([Item(SIGIL, 1, Some(1)), Item(UNFORBIDDEN, 0, Some(50))], true)

  lemma {:induction false} HeadChars(c: char)
    ensures HEAD.Has(c) <==> IsNickHead(c)
  {
    assert LETTERS[0] == ('A', 'Z') && LETTERS[1] == ('a', 'z');
  }

  lemma {:induction false} TailChars(c: char)
    ensures TAIL.Has(c) <==> IsNickTail(c)
  {
    var ranges := LETTERS + [DIGIT];
    assert ranges[0] == ('A', 'Z') && ranges[1] == ('a', 'z') && ranges[2] == DIGIT;
  }

  lemma {:induction false} MatchFits(item: Item, s: string, n: nat)
    requires !item.chars.Has('\n') && n <= |s| && Fits(item, s[..n]) && (s[n..] == "" || s[n..] == "\n")
    ensures Body(s) == s[..n]
  {
    if s[n..] == "" {
      assert s[..n] == s;
    } else {
      assert s[|s| - 1] == s[n..][0];
    }
  }

  lemma {:induction false} Ending(s: string)
    ensures var n := |Body(s)|; n <= |s| && s[..n] == Body(s) && (s[n..] == "" || s[n..] == "\n")
  {
  }

  lemma {:induction false} OneItem(item: Item, s: string)
    requires !item.chars.Has('\n')
    ensures Matches(Pattern([item], true), s) <==> Fits(item, Body(s))
  {
    var p, end := Pattern([item], true), Pattern([], true);
    assert p.(items := p.items[1..]) == end;
    if Matches(p, s) {
      var n :| 0 <= n <= |s| && Fits(item, s[..n]) && Matches(end, s[n..]);
      MatchFits(item, s, n);
    }
    if Fits(item, Body(s)) {
      Ending(s);
      assert Matches(end, s[|Body(s)|..]);
    }
  }

  /** One character, and up to fifty more. */
  lemma {:induction false} TwoItems(p: Pattern, first: CharSet, more: CharSet, s: string)
    requires !first.Has('\n') && !more.Has('\n')
    requires p == Pattern([Item(first, 1, Some(1)), Item(more, 0, Some(50))], true)
    ensures Matches(p, s) <==>
            1 <= |Body(s)| <= 51 && first.Has(Body(s)[0]) && forall i | 1 <= i < |Body(s)| :: more.Has(Body(s)[i])
  {
    var one, rest := Item(first, 1, Some(1)), Item(more, 0, Some(50));
    assert p.(items := p.items[1..]) == Pattern([rest], true);
    if s != "" {
      OneItem(rest, s[1..]);
      assert Fits(one, s[..1]) <==> first.Has(s[0]);
      assert forall n | 0 <= n <= |s| && Fits(one, s[..n]) :: n == 1;
      if s[0] != '\n' { assert Body(s[1..]) == Body(s)[1..]; }
    }
  }

  lemma {:induction false} NickPattern(s: string)
    ensures ValidNick(s) <==> Matches(NICK, s)
  {
    HeadChars('\n');
    TailChars('\n');
    TwoItems(NICK, HEAD, TAIL, s);
    var body := Body(s);
    if body != "" { HeadChars(body[0]); }
    forall i | 1 <= i < |body|
      ensures TAIL.Has(body[i]) <==> IsNickTail(body[i])
    {
      TailChars(body[i]);
    }
  }

  lemma {:induction false} ChannelChars(c: char)
    ensures SIGIL.Has(c) <==> IsChannelHead(c)
    ensures UNFORBIDDEN.Has(c) <==> IsChannelTail(c)
  {
  }

  lemma {:induction false} ChannelPattern(s: string)
    ensures ValidChannel(s) <==> Matches(CHANNEL, s)
  {
    ChannelChars('\n');
    TwoItems(CHANNEL, SIGIL, UNFORBIDDEN, s);
    var body := Body(s);
    if body != "" { ChannelChars(body[0]); }
    forall i | 1 <= i < |body|
      ensures UNFORBIDDEN.Has(body[i]) <==> IsChannelTail(body[i])
    {
      ChannelChars(body[i]);
    }
  }

  lemma {:induction false} RealnamePattern(s: string)
    ensures ValidRealname(s) <==> Matches(REALNAME, s)
  {
    var item := REALNAME.items[0];
    var ranges := LETTERS + [DIGIT];
    assert ranges[0] == ('A', 'Z') && ranges[1] == ('a', 'z') && ranges[2] == DIGIT;
    if s != "" {
      assert item.chars.Has(s[0]) <==> ValidRealname(s);
      if ValidRealname(s) { assert Fits(item, s[..1]) && Matches(Pattern([], false), s[1..]); }
    }
  }

  // ---- trimming ----

  predicate AllBlank(s: string) {
    forall c | c in s :: IsBlank(c)
  }

  lemma {:induction false} OneMoreBlank(s: string, c: char)
    requires AllBlank(s) && IsBlank(c)
    ensures AllBlank([c] + s) && AllBlank(s + [c])
  {
  }

  lemma {:induction false} TrimLeftExact(s: string) returns (a: string)
    ensures AllBlank(a) && s == a + TrimLeft(s)
    ensures TrimLeft(s) != "" ==> !IsBlank(TrimLeft(s)[0])
  {
    if s != "" && IsBlank(s[0]) {
      var rest := TrimLeftExact(s[1..]);
      OneMoreBlank(rest, s[0]);
      a := [s[0]] + rest;
      Assoc([s[0]], rest, TrimLeft(s));
    } else {
      a := "";
      AppendNothing(s);
    }
  }

  lemma {:induction false} LastMovesOut(s: string, x: string, back: string) returns (b: string)
    requires s != "" && IsBlank(s[|s| - 1]) && AllBlank(back) && s[..|s| - 1] == x + back
    ensures AllBlank(b) && s == x + b
  {
    var last := s[|s| - 1];
    Assoc(x, back, [last]);
    assert s == s[..|s| - 1] + [last];
    OneMoreBlank(back, last);
    b := back + [last];
  }

  /** Trimming takes off blanks at both ends, and all of them. */
  lemma {:induction false} TrimExact(s: string) returns (a: string, b: string)
    ensures AllBlank(a) && AllBlank(b) && s == a + Trim(s) + b
    ensures var t := Trim(s); t != "" ==> !IsBlank(t[0]) && !IsBlank(t[|t| - 1])
    decreases |s|
  {
    if s != "" && IsBlank(s[|s| - 1]) {
      var back: string;
      a, back := TrimExact(s[..|s| - 1]);
      b := LastMovesOut(s, a + Trim(s), back);
    } else {
      a := TrimLeftExact(s);
      b := "";
      AppendNothing(a + TrimLeft(s));
    }
  }

  /** The blanks that a keyboard gives. */
  lemma {:induction false} Blanks(c: char)
    ensures c in " \t\n\r" ==> IsBlank(c)
    ensures '!' <= c <= '~' ==> !IsBlank(c)
  {
  }
}
