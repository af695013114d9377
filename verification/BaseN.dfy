/** Base 32 with the lower-case alphabet and base 64, after sections 6 and 4 of RFC 4648, on sequences of bits. */
module BaseN {
  import opened Options

  type Bits = seq<bool>

  function Pow2(w: nat): (p: nat)
    ensures p > 0
  {
    if w == 0 then 1 else 2 * Pow2(w - 1)
  }

  // ---- numbers of w bits, most significant bit first ----

  function ToBits(n: nat, w: nat): (b: Bits)
    ensures |b| == w
  {
    if w == 0 then [] else ToBits(n / 2, w - 1) + [n % 2 == 1]
  }

  function FromBits(b: Bits): nat {
    if b == [] then 0 else 2 * FromBits(b[..|b| - 1]) + if b[|b| - 1] then 1 else 0
  }

  lemma {:induction false} FromToBits(n: nat, w: nat)
    requires n < Pow2(w)
    ensures FromBits(ToBits(n, w)) == n
  {
    if w > 0 {
      FromToBits(n / 2, w - 1);
      assert ToBits(n, w)[..w - 1] == ToBits(n / 2, w - 1);
    }
  }

  lemma {:induction false} ToFromBits(b: Bits)
    ensures FromBits(b) < Pow2(|b|) && ToBits(FromBits(b), |b|) == b
  {
    if b != [] {
      ToFromBits(b[..|b| - 1]);
      assert b == b[..|b| - 1] + [b[|b| - 1]];
    }
  }

  // ---- words of w bits in a row ----

  function Spread(words: seq<nat>, w: nat): Bits {
    if words == [] then [] else ToBits(words[0], w) + Spread(words[1..], w)
  }

  lemma {:induction false} SpreadLength(words: seq<nat>, w: nat)
    ensures |Spread(words, w)| == |words| * w
  {
    if words != [] {
      SpreadLength(words[1..], w);
    }
  }

  /** The bits cut into words of w; fewer than w bits at the end are dropped. */
  function Gather(b: Bits, w: nat): seq<nat>
    requires w > 0
    decreases |b|
  {
    if |b| < w then [] else [FromBits(b[..w])] + Gather(b[w..], w)
  }

  predicate Fit(words: seq<nat>, w: nat) {
    forall n | n in words :: n < Pow2(w)
  }

  /** Spreading words and gathering them again, with a few bits left over, gives the words. */
  lemma {:induction false} GatherSpread(words: seq<nat>, rest: Bits, w: nat)
    requires w > 0 && Fit(words, w) && |rest| < w
    ensures Gather(Spread(words, w) + rest, w) == words
  {
    if words == [] {
      assert Spread(words, w) + rest == rest;
    } else {
      var head, tail := ToBits(words[0], w), Spread(words[1..], w) + rest;
      assert Spread(words, w) + rest == head + tail;
      assert words[0] in words && forall n | n in words[1..] :: n in words;
      FromToBits(words[0], w);
      GatherSpread(words[1..], rest, w);
      GatherFirst(head, tail, w);
    }
  }

  lemma GatherFirst(head: Bits, tail: Bits, w: nat)
    requires w > 0 && |head| == w
    ensures Gather(head + tail, w) == [FromBits(head)] + Gather(tail, w)
  {
    assert (head + tail)[..w] == head && (head + tail)[w..] == tail;
  }

  /** Gathering bits and spreading the words gives all the bits but the dropped ones. */
  lemma {:induction false} SpreadGather(b: Bits, w: nat)
    requires w > 0
    ensures Fit(Gather(b, w), w) && Spread(Gather(b, w), w) <= b && |b| - |Spread(Gather(b, w), w)| < w
    decreases |b|
  {
    if |b| >= w {
      ToFromBits(b[..w]);
      SpreadGather(b[w..], w);
      assert b == b[..w] + b[w..];
    }
  }

  // ---- digits ----

  datatype Alphabet = Base32 | Base64
  {
    function Width(): nat {
      if Base32? then 5 else 6
    }

    function Size(): nat {
      if Base32? then 32 else 64
    }

    function Digit(v: nat): char
      requires v < Size()
    {
      match this
      case Base32 => if v < 26 then ('a' as int + v) as char else ('2' as int + v - 26) as char
      case Base64 =>
        if v < 26 then ('A' as int + v) as char
        else if v < 52 then ('a' as int + v - 26) as char
        else if v < 62 then ('0' as int + v - 52) as char
        else if v == 62 then '+' else '/'
    }

    function Value(c: char): Option<nat> {
      match this
      case Base32 =>
        if 'a' <= c <= 'z' then Some(c as int - 'a' as int)
        else if '2' <= c <= '7' then Some(c as int - '2' as int + 26)
        else None
      case Base64 =>
        if 'A' <= c <= 'Z' then Some(c as int - 'A' as int)
        else if 'a' <= c <= 'z' then Some(c as int - 'a' as int + 26)
        else if '0' <= c <= '9' then Some(c as int - '0' as int + 52)
        else if c == '+' then Some(62)
        else if c == '/' then Some(63)
        else None
    }
  }

  predicate InAlphabet(a: Alphabet, s: string) {
    forall c | c in s :: a.Value(c).Some?
  }

  predicate Digitable(a: Alphabet, values: seq<nat>) {
    forall v | v in values :: v < a.Size()
  }

  function Digits(a: Alphabet, values: seq<nat>): (s: string)
    requires Digitable(a, values)
    ensures |s| == |values|
  {
    seq(|values|, i requires 0 <= i < |values| => assert values[i] in values; a.Digit(values[i]))
  }

  function Values(a: Alphabet, s: string): (values: seq<nat>)
    requires InAlphabet(a, s)
    ensures |values| == |s|
  {
    seq(|s|, i requires 0 <= i < |s| => assert s[i] in s; a.Value(s[i]).value)
  }

  lemma ValuesDigits(a: Alphabet, values: seq<nat>)
    requires Digitable(a, values)
    ensures InAlphabet(a, Digits(a, values)) && Values(a, Digits(a, values)) == values
  {
    forall i | 0 <= i < |values|
      ensures a.Value(Digits(a, values)[i]) == Some(values[i])
    {
      assert values[i] in values;
    }
  }

  lemma DigitsValues(a: Alphabet, s: string)
    requires InAlphabet(a, s)
    ensures Digitable(a, Values(a, s)) && Digits(a, Values(a, s)) == s
  {
    forall i | 0 <= i < |s|
      ensures Values(a, s)[i] < a.Size() && a.Digit(Values(a, s)[i]) == s[i]
    {
      assert s[i] in s;
    }
  }

  // ---- bytes and text ----

  type Byte = b: nat | b < 256

  predicate AreBytes(s: seq<nat>) {
    forall b | b in s :: b < 256
  }

  lemma Powers()
    ensures Pow2(5) == 32 && Pow2(6) == 64 && Pow2(8) == 256
  {
    assert Pow2(4) == 16;
    assert Pow2(6) == 64;
    assert Pow2(8) == 4 * Pow2(6);
  }

  lemma FitMeans(words: seq<nat>)
    ensures Fit(words, 8) <==> AreBytes(words)
    ensures Fit(words, 5) <==> Digitable(Base32, words)
    ensures Fit(words, 6) <==> Digitable(Base64, words)
  {
    Powers();
  }

  function Zeros(n: nat): Bits {
    seq(n, _ => false)
  }

  /** Zero bits up to a whole number of digits. */
  function Padded(b: Bits, w: nat): Bits
    requires w > 0
  {
    b + Zeros(PadLength(|b|, w))
  }

  function Encode(a: Alphabet, bytes: seq<nat>): string {
    var values := Gather(Padded(Spread(bytes, 8), a.Width()), a.Width());
    assert Digitable(a, values) by {
      SpreadGather(Padded(Spread(bytes, 8), a.Width()), a.Width());
      FitMeans(values);
    }
    Digits(a, values)
  }

  /** The bytes that the digits hold; the bits after the last whole byte are dropped. */
  function Decode(a: Alphabet, s: string): Option<seq<nat>> {
    if InAlphabet(a, s) then Some(Gather(Spread(Values(a, s), a.Width()), 8)) else None
  }

  function PadLength(n: nat, w: nat): (z: nat)
    requires w > 0
    ensures z < w
  {
    (w - n % w) % w
  }

  /** The padding is the one number of bits below w that completes the last digit. */
  lemma PadLengthExact(a: Alphabet, n: nat, z: nat)
    requires z < a.Width()
    ensures z == PadLength(n, a.Width()) <==> (n + z) % a.Width() == 0
  {
    match a
    case Base32 =>
    case Base64 =>
  }

  lemma WholeWords(a: Alphabet, k: nat)
    ensures (k * a.Width()) % a.Width() == 0
  {
    match a
    case Base32 =>
    case Base64 =>
  }

  /** Whole digits lose nothing. */
  lemma GatherAll(a: Alphabet, b: Bits)
    requires |b| % a.Width() == 0
    ensures Fit(Gather(b, a.Width()), a.Width()) && Spread(Gather(b, a.Width()), a.Width()) == b
  {
    var w := a.Width();
    SpreadGather(b, w);
    SpreadLength(Gather(b, w), w);
    WholeWords(a, |Gather(b, w)|);
    PadLengthExact(a, |Spread(Gather(b, w), w)|, |b| - |Spread(Gather(b, w), w)|);
    PadLengthExact(a, |Spread(Gather(b, w), w)|, 0);
  }

  /** The digits of an encoding hold the bits of the bytes, and zeros. */
  lemma EncodingHolds(a: Alphabet, bytes: seq<nat>)
    ensures InAlphabet(a, Encode(a, bytes))
    ensures Spread(Values(a, Encode(a, bytes)), a.Width()) == Padded(Spread(bytes, 8), a.Width())
  {
    var b := Spread(bytes, 8);
    PadLengthExact(a, |b|, PadLength(|b|, a.Width()));
    GatherAll(a, Padded(b, a.Width()));
    FitMeans(Gather(Padded(b, a.Width()), a.Width()));
    ValuesDigits(a, Gather(Padded(b, a.Width()), a.Width()));
  }

  /** Decoding an encoding gives the bytes. */
  lemma DecodeEncode(a: Alphabet, bytes: seq<nat>)
    requires AreBytes(bytes)
    ensures Decode(a, Encode(a, bytes)) == Some(bytes)
  {
    var b := Spread(bytes, 8);
    EncodingHolds(a, bytes);
    FitMeans(bytes);
    var padded := Padded(b, a.Width());
    GatherSpread(bytes, padded[|b|..], 8);
    assert padded == b + padded[|b|..];
  }

  /** The bits that decoding drops. */
  function Dropped(a: Alphabet, s: string): Bits
    requires InAlphabet(a, s)
  {
    var b := Spread(Values(a, s), a.Width());
    SpreadGather(b, 8);
    b[|Spread(Gather(b, 8), 8)|..]
  }

  /** No digit is superfluous, and the dropped bits are zero. */
  predicate Canonical(a: Alphabet, s: string) {
    InAlphabet(a, s) && |Dropped(a, s)| < a.Width() && forall bit | bit in Dropped(a, s) :: !bit
  }

  lemma {:induction false} KeptAndDropped(a: Alphabet, s: string)
    requires InAlphabet(a, s)
    ensures AreBytes(Decode(a, s).value)
    ensures Spread(Values(a, s), a.Width()) == Spread(Decode(a, s).value, 8) + Dropped(a, s)
  {
    SpreadGather(Spread(Values(a, s), a.Width()), 8);
    FitMeans(Decode(a, s).value);
  }

  /** Every encoding is canonical. */
  lemma EncodeIsCanonical(a: Alphabet, bytes: seq<nat>)
    requires AreBytes(bytes)
    ensures Canonical(a, Encode(a, bytes))
  {
    var s, b := Encode(a, bytes), Spread(bytes, 8);
    DecodeEncode(a, bytes);
    EncodingHolds(a, bytes);
    KeptAndDropped(a, s);
    assert b + Dropped(a, s) == b + Zeros(PadLength(|b|, a.Width()));
    assert Dropped(a, s) == (b + Dropped(a, s))[|b|..];
  }

  /** Decoding and encoding gives every canonical text back. */
  lemma CanonicalReturns(a: Alphabet, s: string)
    requires Canonical(a, s)
    ensures Encode(a, Decode(a, s).value) == s
  {
    var kept := Spread(Decode(a, s).value, 8);
    KeptAndDropped(a, s);
    SpreadLength(Values(a, s), a.Width());
    WholeWords(a, |Values(a, s)|);
    PadLengthExact(a, |kept|, |Dropped(a, s)|);
    AllZeros(Dropped(a, s));
    ValuesReturn(a, s);
  }

  /** Encoding a decoded text gives the text back exactly when it is canonical. */
  lemma EncodeDecodeExact(a: Alphabet, s: string)
    requires InAlphabet(a, s)
    ensures AreBytes(Decode(a, s).value)
    ensures Encode(a, Decode(a, s).value) == s <==> Canonical(a, s)
  {
    KeptAndDropped(a, s);
    EncodeIsCanonical(a, Decode(a, s).value);
    if Canonical(a, s) {
      CanonicalReturns(a, s);
    }
  }

  lemma AllZeros(b: Bits)
    ensures b == Zeros(|b|) <==> forall bit | bit in b :: !bit
  {
    if forall bit | bit in b :: !bit {
      forall i | 0 <= i < |b|
        ensures b[i] == Zeros(|b|)[i]
      {
        assert b[i] in b;
      }
    }
  }

  lemma ValuesReturn(a: Alphabet, s: string)
    requires InAlphabet(a, s)
    ensures Digitable(a, Gather(Spread(Values(a, s), a.Width()), a.Width()))
    ensures Digits(a, Gather(Spread(Values(a, s), a.Width()), a.Width())) == s
  {
    var b := Spread(Values(a, s), a.Width());
    DigitsValues(a, s);
    FitMeans(Values(a, s));
    assert b == b + [];
    GatherSpread(Values(a, s), [], a.Width());
  }

  // ---- the encodings as numerals ----

  /** The number that a list of digits of some base denotes, most significant first. */
  function Numeral(digits: seq<nat>, radix: nat): nat {
    if digits == [] then 0
    else Numeral(digits[..|digits| - 1], radix) * radix + digits[|digits| - 1]
  }

  lemma {:induction false} FromBitsConcat(a: Bits, b: Bits)
    ensures FromBits(a + b) == FromBits(a) * Pow2(|b|) + FromBits(b)
  {
    if b == [] {
      assert a + b == a;
    } else {
      var front, last := b[..|b| - 1], b[|b| - 1];
      FromBitsConcat(a, front);
      assert (a + b)[..|a + b| - 1] == a + front && (a + b)[|a + b| - 1] == last;
      DoubleSum(FromBits(a), Pow2(|front|), FromBits(front));
    }
  }

  lemma {:induction false} DoubleSum(x: nat, p: nat, y: nat)
    ensures 2 * (x * p + y) == x * (2 * p) + 2 * y
  {
  }

  lemma {:induction false} SpreadMore(words: seq<nat>, n: nat, w: nat)
    ensures Spread(words + [n], w) == Spread(words, w) + ToBits(n, w)
  {
    if words == [] {
      assert words + [n] == [n] && [n][1..] == [];
    } else {
      SpreadMore(words[1..], n, w);
      assert (words + [n])[0] == words[0] && (words + [n])[1..] == words[1..] + [n];
    }
  }

  /** The bits of words, read as one number, are the numeral of the words. */
  lemma {:induction false} SpreadIsNumeral(words: seq<nat>, w: nat)
    requires Fit(words, w)
    ensures FromBits(Spread(words, w)) == Numeral(words, Pow2(w))
  {
    if words != [] {
      var front, last := words[..|words| - 1], words[|words| - 1];
      assert words == front + [last] && last in words && forall n | n in front :: n in words;
      SpreadIsNumeral(front, w);
      SpreadMore(front, last, w);
      FromToBits(last, w);
      FromBitsConcat(Spread(front, w), ToBits(last, w));
    }
  }

  lemma {:induction false} ZerosAreZero(n: nat)
    ensures FromBits(Zeros(n)) == 0
  {
    if n > 0 {
      ZerosAreZero(n - 1);
      assert Zeros(n)[..n - 1] == Zeros(n - 1);
    }
  }

  /** An encoding, read in base 32 or 64, is the bytes read in base 256, times a power of two for the padding. */
  lemma {:induction false} EncodingIsNumeral(a: Alphabet, bytes: seq<nat>)
    requires AreBytes(bytes)
    ensures InAlphabet(a, Encode(a, bytes))
    ensures Numeral(Values(a, Encode(a, bytes)), if a == Base32 then 32 else 64)
            == Numeral(bytes, 256) * Pow2(PadLength(|bytes| * 8, a.Width()))
  {
    EncodingHolds(a, bytes);
    var values, b := Values(a, Encode(a, bytes)), Spread(bytes, 8);
    var z := PadLength(|b|, a.Width());
    SpreadLength(bytes, 8);
    Powers();
    FitMeans(bytes);
    FitMeans(values);
    SpreadIsNumeral(bytes, 8);
    DigitsValues(a, Encode(a, bytes));
    SpreadIsNumeral(values, a.Width());
    ZerosAreZero(z);
    FromBitsConcat(b, Zeros(z));
  }

  const LOWER := "abcdefghijklmnopqrstuvwxyz"
  const UPPER := "ABCDEFGHIJKLMNOPQRSTUVWXYZ"
  const DECIMAL := "0123456789"

  lemma {:induction false} LowerAt(i: nat)
    requires i < 26
    ensures LOWER[i] as int == 'a' as int + i
  {
  }

  lemma {:induction false} UpperAt(i: nat)
    requires i < 26
    ensures UPPER[i] as int == 'A' as int + i
  {
  }

  lemma {:induction false} DecimalAt(i: nat)
    requires i < 10
    ensures DECIMAL[i] as int == '0' as int + i
  {
  }

  /** The digits are those of RFC 4648, base 32 in lower case. */
  lemma {:induction false} DigitsExact(v: nat)
    ensures v < 26 ==> Base32.Digit(v) == LOWER[v]
    ensures 26 <= v < 32 ==> Base32.Digit(v) == DECIMAL[v - 24]
    ensures v < 26 ==> Base64.Digit(v) == UPPER[v]
    ensures 26 <= v < 52 ==> Base64.Digit(v) == LOWER[v - 26]
    ensures 52 <= v < 62 ==> Base64.Digit(v) == DECIMAL[v - 52]
    ensures Base64.Digit(62) == '+' && Base64.Digit(63) == '/'
  {
    if v < 26 {
      LowerAt(v);
      UpperAt(v);
    } else {
      if v < 32 { DecimalAt(v - 24); }
      if v < 52 { LowerAt(v - 26); } else if v < 62 { DecimalAt(v - 52); }
    }
  }
}
