/** Version 3 onion service ids and private key blobs. */
module Ed25519 {
  import opened BaseN
  import opened Options

  const SERVICE_ID_LENGTH: nat := 56
  const SERVICE_ID_SIZE: nat := 57
  const RAW_SIZE: nat := 35
  const PUBLIC_KEY_SIZE: nat := 32
  const SECRET_KEY_SIZE: nat := 64
  const KEYBLOB_LENGTH: nat := 99
  const KEYBLOB_SIZE: nat := 100
  const VERSION: Byte := 3

  /** SHA3-256 is any function from bytes to 32 bytes. */
  type Digest = seq<nat> -> seq<nat>

  ghost predicate IsDigest(h: Digest) {
    forall text :: |h(text)| == 32 && AreBytes(h(text))
  }

  /** ".onion checksum" in ASCII. */
  const PREFIX: seq<nat> := [46, 111, 110, 105, 111, 110, 32, 99, 104, 101, 99, 107, 115, 117, 109]

  function Checksum(h: Digest, key: seq<nat>): (c: seq<nat>)
    requires IsDigest(h)
    ensures |c| == 2 && AreBytes(c)
  {
    var digest := h(PREFIX + key + [VERSION]);
    assert AreBytes(digest);
    assert digest[0] in digest && digest[1] in digest;
    [digest[0], digest[1]]
  }

  function RawId(h: Digest, key: seq<nat>): seq<nat>
    requires IsDigest(h)
  {
    key + Checksum(h, key) + [VERSION]
  }

  function IdOf(h: Digest, key: seq<nat>): string
    requires IsDigest(h)
  {
    Encode(Base32, RawId(h, key))
  }

  predicate IsValid(h: Digest, id: string)
    requires IsDigest(h)
  {
    |id| == SERVICE_ID_LENGTH
    && match Decode(Base32, id)
       case None => false
       case Some(raw) => |raw| == RAW_SIZE && raw[34] == VERSION && raw[32..34] == Checksum(h, raw[..32])
  }

  lemma {:induction false} GatherLength(b: Bits, w: nat)
    requires w > 0
    ensures |Gather(b, w)| * w <= |b| < |Gather(b, w)| * w + w
    decreases |b|
  {
    if |b| >= w {
      GatherLength(b[w..], w);
    }
  }

  lemma EncodeLength(a: Alphabet, bytes: seq<nat>)
    ensures |Encode(a, bytes)| * a.Width() == |bytes| * 8 + PadLength(|bytes| * 8, a.Width())
  {
    EncodingHolds(a, bytes);
    SpreadLength(Values(a, Encode(a, bytes)), a.Width());
    SpreadLength(bytes, 8);
  }

  lemma DecodeLength(a: Alphabet, s: string)
    requires InAlphabet(a, s)
    ensures |Decode(a, s).value| * 8 <= |s| * a.Width() < |Decode(a, s).value| * 8 + 8
  {
    SpreadLength(Values(a, s), a.Width());
    GatherLength(Spread(Values(a, s), a.Width()), 8);
  }

  /** 280 bits are 56 digits and 35 bytes: nothing is dropped. */
  lemma ServiceIdsAreCanonical(id: string)
    requires |id| == SERVICE_ID_LENGTH && InAlphabet(Base32, id)
    ensures |Decode(Base32, id).value| == RAW_SIZE && Canonical(Base32, id)
  {
    DecodeLength(Base32, id);
    KeptAndDropped(Base32, id);
    SpreadLength(Values(Base32, id), 5);
    SpreadLength(Decode(Base32, id).value, 8);
  }

  /** The id built for a key is valid, has the right form and decodes to the key, whatever the hash is. */
  lemma IdOfIsValid(h: Digest, key: seq<nat>)
    requires IsDigest(h) && |key| == PUBLIC_KEY_SIZE && AreBytes(key)
    ensures IsValid(h, IdOf(h, key)) && InAlphabet(Base32, IdOf(h, key))
    ensures Decode(Base32, IdOf(h, key)).value[..32] == key
  {
    var raw := RawId(h, key);
    DecodeEncode(Base32, raw);
    EncodeLength(Base32, raw);
    assert raw[..32] == key && raw[32..34] == Checksum(h, key);
  }

  /** Every valid id is the id of the key it decodes to. */
  lemma ValidIsIdOf(h: Digest, id: string)
    requires IsDigest(h) && IsValid(h, id)
    ensures var key := Decode(Base32, id).value[..32];
            |key| == PUBLIC_KEY_SIZE && AreBytes(key) && IdOf(h, key) == id
  {
    var raw := Decode(Base32, id).value;
    ServiceIdsAreCanonical(id);
    EncodeDecodeExact(Base32, id);
    assert raw == RawId(h, raw[..32]);
    assert forall b | b in raw[..32] :: b in raw;
  }

  /** The valid ids are exactly the ids of keys. */
  lemma ValidExact(h: Digest, id: string)
    requires IsDigest(h)
    ensures IsValid(h, id) <==> exists key | |key| == PUBLIC_KEY_SIZE && AreBytes(key) :: IdOf(h, key) == id
  {
    if IsValid(h, id) {
      ValidIsIdOf(h, id);
    }
    forall key | |key| == PUBLIC_KEY_SIZE && AreBytes(key) && IdOf(h, key) == id
      ensures IsValid(h, id)
    {
      IdOfIsValid(h, key);
    }
  }

  // ---- the ids are those of rend-spec-v3 ----

  /** The checksum's first two bytes, for the 15 characters, the key and the version byte. */
  ghost predicate SpecChecksum(h: Digest, key: seq<nat>, c0: nat, c1: nat) {
    exists text: seq<nat> ::
      && |text| == 15 + |key| + 1 && text[15..15 + |key|] == key && text[15 + |key|] == 3
      && (forall i | 0 <= i < 15 :: text[i] == ".onion checksum"[i] as int)
      && |h(text)| == 32 && h(text)[0] == c0 && h(text)[1] == c1
  }

  lemma {:induction false} PrefixExact(i: nat)
    requires i < 15
    ensures |PREFIX| == 15 && PREFIX[i] == ".onion checksum"[i] as int
  {
  }

  lemma {:induction false} ChecksumExact(h: Digest, key: seq<nat>, c0: nat, c1: nat)
    requires IsDigest(h)
    ensures SpecChecksum(h, key, c0, c1) <==> Checksum(h, key) == [c0, c1]
  {
    var source := PREFIX + key + [3];
    forall i | 0 <= i < 15
      ensures source[i] == ".onion checksum"[i] as int
    {
      PrefixExact(i);
    }
    PrefixExact(0);
    assert source[15..15 + |key|] == key;
    forall text: seq<nat> | |text| == 15 + |key| + 1 && text[15..15 + |key|] == key && text[15 + |key|] == 3
                            && forall i | 0 <= i < 15 :: text[i] == ".onion checksum"[i] as int
      ensures text == source
    {
      forall i | 15 <= i < 15 + |key|
        ensures text[i] == source[i]
      {
        assert text[i] == text[15..15 + |key|][i - 15];
      }
    }
  }

  /** An id is valid exactly when its 56 lower-case digits hold a key, the checksum of that key, and version 3. */
  lemma {:induction false} ValidMeansVersion3(h: Digest, id: string)
    requires IsDigest(h)
    ensures IsValid(h, id)
      <==> && |id| == 56 && InAlphabet(Base32, id)
           && var raw := Decode(Base32, id).value;
              |raw| == 35 && raw[34] == 3 && SpecChecksum(h, raw[..32], raw[32], raw[33])
  {
    if |id| == 56 && InAlphabet(Base32, id) {
      var raw := Decode(Base32, id).value;
      if |raw| == 35 {
        ChecksumExact(h, raw[..32], raw[32], raw[33]);
        assert raw[32..34] == [raw[32], raw[33]];
      }
    }
  }

  lemma {:induction false} LowBits(x: nat, y: nat, digit: nat, byte: nat)
    requires x * 32 + digit == y * 256 + byte && digit < 32
    ensures digit == byte % 32
  {
  }

  /** Without padding the last digit is the low bits of the last byte. */
  lemma {:induction false} LastDigitOf(bytes: seq<nat>)
    requires AreBytes(bytes) && bytes != [] && PadLength(|bytes| * 8, 5) == 0
    ensures InAlphabet(Base32, Encode(Base32, bytes)) && Encode(Base32, bytes) != ""
    ensures var values := Values(Base32, Encode(Base32, bytes)); values[|values| - 1] == bytes[|bytes| - 1] % 32
  {
    EncodeLength(Base32, bytes);
    EncodingIsNumeral(Base32, bytes);
    var values := Values(Base32, Encode(Base32, bytes));
    LastValueFits(Base32, Encode(Base32, bytes));
    assert Pow2(0) == 1;
    LowBits(Numeral(values[..|values| - 1], 32), Numeral(bytes[..|bytes| - 1], 256), values[|values| - 1],
            bytes[|bytes| - 1]);
  }

  lemma {:induction false} LastValueFits(a: Alphabet, s: string)
    requires InAlphabet(a, s) && s != ""
    ensures Values(a, s)[|s| - 1] < a.Size()
  {
    assert s[|s| - 1] in s;
  }

  /** The last digit of an id is always the same. */
  lemma {:induction false} LastDigit(h: Digest, key: seq<nat>)
    requires IsDigest(h) && |key| == 32 && AreBytes(key)
    ensures |IdOf(h, key)| == 56 && IdOf(h, key)[55] == 'd'
    ensures InAlphabet(Base32, IdOf(h, key))
    ensures |Decode(Base32, IdOf(h, key)).value| == 35 && Decode(Base32, IdOf(h, key)).value[34] == 3
  {
    var raw, id := RawId(h, key), IdOf(h, key);
    IdOfIsValid(h, key);
    LastDigitOf(raw);
    assert id[55] in id && Base32.Value(id[55]) == Some(3);
    DecodeEncode(Base32, raw);
  }

  lemma {:induction false} ValidEndsInD(h: Digest, id: string)
    requires IsDigest(h) && IsValid(h, id)
    ensures Decode(Base32, id).value[34] == 3 && |id| == 56 && id[55] == 'd'
  {
    ValidIsIdOf(h, id);
    LastDigit(h, Decode(Base32, id).value[..32]);
  }

  // ---- key blobs ----

  const HEADER := "ED25519-V3:"

  function Equals(digits: nat): string {
    seq((4 - digits % 4) % 4, _ => '=')
  }

  function Encode64(bytes: seq<nat>): string {
    Encode(Base64, bytes) + Equals(|Encode(Base64, bytes)|)
  }

  function Strip(s: string): string {
    if |s| >= 2 && s[|s| - 1] == '=' && s[|s| - 2] == '=' then s[..|s| - 2]
    else if |s| >= 1 && s[|s| - 1] == '=' then s[..|s| - 1]
    else s
  }

  function Decode64(s: string): Option<seq<nat>> {
    if |s| % 4 != 0 then None else Decode(Base64, Strip(s))
  }

  /** No encoding of whole bytes ends in a lone digit. */
  lemma DigitCount(m: nat, n: nat)
    requires n * 6 == m * 8 + PadLength(m * 8, 6)
    ensures n % 4 != 1
  {
  }

  lemma StripEquals(s: string)
    requires '=' !in s && |s| % 4 != 1
    ensures Strip(s + Equals(|s|)) == s && |s + Equals(|s|)| % 4 == 0
  {
    var t := s + Equals(|s|);
    assert t[..|s|] == s;
    if |s| > 0 {
      assert s[|s| - 1] in s;
    }
  }

  lemma Decode64Encode64(bytes: seq<nat>)
    requires AreBytes(bytes)
    ensures Decode64(Encode64(bytes)) == Some(bytes)
  {
    EncodeLength(Base64, bytes);
    EncodingHolds(Base64, bytes);
    DecodeEncode(Base64, bytes);
    DigitCount(|bytes|, |Encode(Base64, bytes)|);
    StripEquals(Encode(Base64, bytes));
  }

  function BlobOf(key: seq<nat>): string {
    HEADER + Encode64(key)
  }

  /** Tor's base64_decode_maxsize. */
  function MaxSize(length: nat): nat {
    (length * 3 + 3) / 4
  }

  /** text is the blob up to its terminator; length is what the caller says it is. */
  function KeyOfBlob(text: string, length: nat): Option<seq<nat>> {
    if length != KEYBLOB_LENGTH || !(HEADER <= text) || MaxSize(|text| - |HEADER|) < SECRET_KEY_SIZE then None
    else
      match Decode64(text[|HEADER|..])
      case None => None
      case Some(key) => if |key| == SECRET_KEY_SIZE then Some(key) else None
  }

  lemma BlobLength(key: seq<nat>)
    requires |key| == SECRET_KEY_SIZE
    ensures |Encode(Base64, key)| == 86 && Encode64(key) == Encode(Base64, key) + "=="
    ensures |BlobOf(key)| == KEYBLOB_LENGTH && '\0' !in BlobOf(key)
  {
    EncodeLength(Base64, key);
    EncodingHolds(Base64, key);
  }

  /** The blob's text, written out. */
  lemma {:induction false} BlobText(key: seq<nat>)
    requires |key| == 64
    ensures BlobOf(key) == "ED25519-V3:" + Encode(Base64, key) + "==" && |BlobOf(key)| == 99
  {
    BlobLength(key);
  }

  /** The blob of a key passes every check and gives the key back. */
  lemma KeyBlobRoundTrip(key: seq<nat>)
    requires |key| == SECRET_KEY_SIZE && AreBytes(key)
    ensures KeyOfBlob(BlobOf(key), |BlobOf(key)|) == Some(key)
  {
    BlobLength(key);
    Decode64Encode64(key);
    assert BlobOf(key)[|HEADER|..] == Encode64(key);
  }

  /** An accepted blob really has the length that was claimed, and is the blob of its key exactly when it is canonical. */
  lemma AcceptedBlobExact(text: string, length: nat)
    requires KeyOfBlob(text, length).Some?
    ensures |text| == length == KEYBLOB_LENGTH
    ensures BlobOf(KeyOfBlob(text, length).value) == text <==> Canonical(Base64, Strip(text[|HEADER|..]))
  {
    var body := text[|HEADER|..];
    var s := Strip(body);
    var key := KeyOfBlob(text, length).value;
    DecodeLength(Base64, s);
    EncodeDecodeExact(Base64, s);
    BlobLength(key);
    assert text == HEADER + body;
    assert body == s + "==";
    assert Encode64(key)[..86] == Encode(Base64, key) && body[..86] == s;
    assert BlobOf(key)[|HEADER|..] == Encode64(key);
  }

  // ---- the functions on buffers ----

  /** std::copy of a whole range to a place in a buffer. */
  method Copy<T>(src: seq<T>, dest: array<T>, at: nat)
    requires at + |src| <= dest.Length
    modifies dest
    ensures dest[..] == old(dest[..at]) + src + old(dest[at + |src|..])
  {
    for i := 0 to |src|
      invariant forall j | 0 <= j < dest.Length ::
        dest[j] == if at <= j < at + i then src[j - at] else old(dest[j])
    {
      dest[at + i] := src[i];
    }
  }

  method TruncatedChecksum(h: Digest, checksum: array<Byte>, key: array<Byte>)
    requires IsDigest(h) && checksum.Length == 2 && key.Length == PUBLIC_KEY_SIZE && checksum != key
    modifies checksum
    ensures checksum[..] == Checksum(h, key[..])
  {
    var src := new Byte[48](i => 0);
    Copy(PREFIX, src, 0);
    Copy(key[..], src, 15);
    src[47] := VERSION;
    assert src[..] == PREFIX + key[..] + [VERSION];
    var digest := h(src[..]);
    assert AreBytes(digest) && digest[0] in digest && digest[1] in digest;
    checksum[0], checksum[1] := digest[0], digest[1];
  }

  /** base32_decode into a buffer of exactly the decoded size; -1 and an unchanged buffer otherwise. */
  method Base32Decode(dest: array<Byte>, text: string) returns (count: int)
    modifies dest
    ensures match Decode(Base32, text)
            case None => count == -1 && dest[..] == old(dest[..])
            case Some(bytes) =>
              if |bytes| > dest.Length then count == -1 && dest[..] == old(dest[..])
              else count == |bytes| && dest[..] == bytes + old(dest[|bytes|..])
  {
    var decoded := Decode(Base32, text);
    if decoded.None? || |decoded.value| > dest.Length {
      return -1;
    }
    EncodeDecodeExact(Base32, text);
    var bytes := decoded.value;
    assert forall i | 0 <= i < |bytes| :: bytes[i] in bytes;
    Copy(bytes, dest, 0);
    return |bytes|;
  }

  method ViewIsValid(h: Digest, view: string) returns (valid: bool)
    requires IsDigest(h)
    ensures valid <==> IsValid(h, view)
  {
    if |view| != SERVICE_ID_LENGTH {
      return false;
    }
    var raw := new Byte[RAW_SIZE](i => 0);
    var count := Base32Decode(raw, view);
    if count != RAW_SIZE || raw[34] != VERSION {
      return false;
    }
    ghost var bytes := Decode(Base32, view).value;
    assert raw[..] == bytes;
    var key := new Byte[PUBLIC_KEY_SIZE](i => 0);
    Copy(raw[..PUBLIC_KEY_SIZE], key, 0);
    assert key[..] == bytes[..32];
    var checksum := new Byte[2](i => 0);
    TruncatedChecksum(h, checksum, key);
    assert bytes[32..34] == [raw[32], raw[33]] && checksum[..] == [checksum[0], checksum[1]];
    return raw[32] == checksum[0] && raw[33] == checksum[1];
  }

  /** The id object is its zero-terminated buffer; a text that is too short or not valid is refused. */
  method ServiceIdFromString(h: Digest, text: string, length: nat) returns (id: Option<array<char>>)
    requires IsDigest(h) && length <= |text|
    ensures id.Some? <==> length >= SERVICE_ID_LENGTH && IsValid(h, text[..SERVICE_ID_LENGTH])
    ensures id.Some? ==> fresh(id.value) && id.value[..] == text[..SERVICE_ID_LENGTH] + ['\0']
  {
    if length < SERVICE_ID_LENGTH {
      return None;
    }
    var valid := ViewIsValid(h, text[..SERVICE_ID_LENGTH]);
    if !valid {
      return None;
    }
    var data := new char[SERVICE_ID_SIZE](i => '\0');
    Copy(text[..SERVICE_ID_LENGTH], data, 0);
    return Some(data);
  }

  method ServiceIdToString(data: array<char>, dest: array<char>, size: nat) returns (written: Option<nat>)
    requires data.Length == SERVICE_ID_SIZE && size <= dest.Length && data != dest
    modifies dest
    ensures written == if size < SERVICE_ID_SIZE then None else Some(SERVICE_ID_SIZE)
    ensures dest[..] == if size < SERVICE_ID_SIZE then old(dest[..]) else data[..] + old(dest[SERVICE_ID_SIZE..])
  {
    if size < SERVICE_ID_SIZE {
      return None;
    }
    Copy(data[..], dest, 0);
    return Some(SERVICE_ID_SIZE);
  }

  /** No check but that of the digits: an id object is valid by construction. */
  method PublicKeyFromServiceId(data: array<char>) returns (key: Option<array<Byte>>)
    requires data.Length == SERVICE_ID_SIZE
    ensures key.Some? <==> InAlphabet(Base32, data[..SERVICE_ID_LENGTH])
    ensures key.Some? ==> fresh(key.value) && key.value.Length == PUBLIC_KEY_SIZE
                          && |Decode(Base32, data[..SERVICE_ID_LENGTH]).value| == RAW_SIZE
                          && key.value[..] == Decode(Base32, data[..SERVICE_ID_LENGTH]).value[..PUBLIC_KEY_SIZE]
  {
    var view := data[..SERVICE_ID_LENGTH];
    var raw := new Byte[RAW_SIZE](i => 0);
    var count := Base32Decode(raw, view);
    if InAlphabet(Base32, view) {
      ServiceIdsAreCanonical(view);
    }
    if count != RAW_SIZE {
      return None;
    }
    var publicKey := new Byte[PUBLIC_KEY_SIZE](i => 0);
    Copy(raw[..PUBLIC_KEY_SIZE], publicKey, 0);
    return Some(publicKey);
  }

  /** Key, checksum and version, one after the other. */
  method BuildRawId(h: Digest, raw: array<Byte>, key: array<Byte>)
    requires IsDigest(h) && raw.Length == RAW_SIZE && key.Length == PUBLIC_KEY_SIZE && raw != key
    modifies raw
    ensures raw[..] == RawId(h, key[..])
  {
    Copy(key[..], raw, 0);
    assert raw[..32] == key[..];
    var checksum := new Byte[2](i => 0);
    TruncatedChecksum(h, checksum, key);
    Copy(checksum[..], raw, 32);
    assert raw[..34] == key[..] + checksum[..];
    raw[34] := VERSION;
  }

  method ServiceIdFromPublicKey(h: Digest, key: array<Byte>) returns (data: array<char>)
    requires IsDigest(h) && key.Length == PUBLIC_KEY_SIZE
    ensures fresh(data) && data[..] == IdOf(h, key[..]) + ['\0']
  {
    var raw := new Byte[RAW_SIZE](i => 0);
    BuildRawId(h, raw, key);
    var id := Encode(Base32, raw[..]);
    EncodeLength(Base32, raw[..]);
    data := new char[SERVICE_ID_SIZE](i => '\0');
    Copy(id, data, 0);
  }

  /** std::fill of the first characters with zeros. */
  method Zero(dest: array<char>, size: nat)
    requires size <= dest.Length
    modifies dest
    ensures forall j | 0 <= j < dest.Length :: dest[j] == if j < size then '\0' else old(dest[j])
  {
    for i := 0 to size
      invariant forall j | 0 <= j < dest.Length :: dest[j] == if j < i then '\0' else old(dest[j])
    {
      dest[i] := '\0';
    }
  }

  /** Header and digits in a buffer that was initialised with zeros; the source's checks of them cannot fail. */
  method BuildKeyBlob(blob: array<char>, key: array<Byte>)
    requires blob.Length == KEYBLOB_SIZE && key.Length == SECRET_KEY_SIZE
    requires forall j | 0 <= j < blob.Length :: blob[j] == '\0'
    modifies blob
    ensures blob[..] == BlobOf(key[..]) + ['\0']
  {
    Copy(HEADER, blob, 0);
    var base64 := Encode64(key[..]);
    BlobLength(key[..]);
    Copy(base64, blob, |HEADER|);
    assert |base64| == 88;
    assert blob[..] == HEADER + base64 + ['\0'];
    assert blob[KEYBLOB_LENGTH] == blob[..][KEYBLOB_LENGTH] == '\0';
  }

  /** Fails for a buffer without room for the terminator, and for nothing else. */
  method KeyBlobFromPrivateKey(dest: array<char>, size: nat, key: array<Byte>) returns (written: Option<nat>)
    requires size <= dest.Length && key.Length == SECRET_KEY_SIZE
    modifies dest
    ensures written == if size < KEYBLOB_SIZE then None else Some(KEYBLOB_SIZE)
    ensures size < KEYBLOB_SIZE ==> dest[..] == old(dest[..])
    ensures size >= KEYBLOB_SIZE ==> dest[..KEYBLOB_LENGTH] == BlobOf(key[..])
    ensures size >= KEYBLOB_SIZE ==> forall i | KEYBLOB_LENGTH <= i < size :: dest[i] == '\0'
    ensures forall i | size <= i < dest.Length :: dest[i] == old(dest[i])
  {
    if size < KEYBLOB_SIZE {
      return None;
    }
    Zero(dest, size);
    var blob := new char[KEYBLOB_SIZE](i => '\0');
    BuildKeyBlob(blob, key);
    BlobLength(key[..]);
    ghost var content, zeroed := blob[..], dest[..];
    Copy(blob[..], dest, 0);
    assert dest[..] == content + zeroed[KEYBLOB_SIZE..];
    assert forall i | KEYBLOB_SIZE <= i < dest.Length :: dest[i] == dest[..][i] == zeroed[i];
    assert dest[KEYBLOB_LENGTH] == dest[..][KEYBLOB_LENGTH] == content[KEYBLOB_LENGTH] == '\0';
    assert dest[..KEYBLOB_LENGTH] == content[..KEYBLOB_LENGTH] == BlobOf(key[..]);
    return Some(KEYBLOB_SIZE);
  }

  method PrivateKeyFromKeyBlob(text: string, length: nat) returns (key: Option<array<Byte>>)
    ensures key.Some? <==> KeyOfBlob(text, length).Some?
    ensures key.Some? ==> fresh(key.value) && key.value[..] == KeyOfBlob(text, length).value
  {
    if length != KEYBLOB_LENGTH || !(HEADER <= text) {
      return None;
    }
    var base64 := text[|HEADER|..];
    if MaxSize(|base64|) < SECRET_KEY_SIZE {
      return None;
    }
    var decoded := Decode64(base64);
    if decoded.None? || |decoded.value| != SECRET_KEY_SIZE {
      return None;
    }
    EncodeDecodeExact(Base64, Strip(base64));
    var bytes := decoded.value;
    assert forall i | 0 <= i < |bytes| :: bytes[i] in bytes;
    var data := new Byte[SECRET_KEY_SIZE](i => 0);
    Copy(bytes, data, 0);
    return Some(data);
  }
}
