/**
  * The two base64 classifiers: `decode` of crates/policysql-core/src/bytes.rs over UTF-8
  * bytes, and `decodedBlobLength` of deploy/cloudflare/src/binary.ts over UTF-16 code
  * units, against sections 3.5 and 4 of RFC 4648.
  */
module Base64 {
  import opened Core
  import opened Text

  /** Code units of a text: bytes on the Rust side, UTF-16 code units on the JavaScript side. */
  type Units = seq<nat>

  const PAD: nat := '=' as int

  datatype DecodeError = InvalidEncoding | TooLarge

  // ---- RFC 4648, section 4.

  function Letter(n: nat): (u: nat)
    requires n < 64
    ensures InAlphabet(u)
  {
    if n < 26 then 65 + n else if n < 52 then 71 + n else if n < 62 then n - 4 else if n == 62 then 43 else 47
  }

  predicate InAlphabet(u: nat) {
    65 <= u <= 90 || 97 <= u <= 122 || 48 <= u <= 57 || u == 43 || u == 47
  }

  function Index(u: nat): (n: nat)
    requires InAlphabet(u)
    ensures n < 64
  {
    if 65 <= u <= 90 then u - 65 else if u >= 97 then u - 71 else if u >= 48 then u + 4 else if u == 43 then 62 else 63
  }

  lemma LetterIndex(n: nat)
    requires n < 64
    ensures Index(Letter(n)) == n && Letter(n) != PAD
  {
  }

  lemma IndexLetter(u: nat)
    requires InAlphabet(u)
    ensures Letter(Index(u)) == u && u != PAD
  {
  }

  /** One group: one, two or three bytes as four letters, the missing ones padded, unused bits zero. */
  function EncodeGroup(v: seq<Byte>): (q: Units)
    requires 1 <= |v| <= 3
    ensures |q| == 4
  {
    if |v| == 1 then [Letter(v[0] / 4), Letter(v[0] % 4 * 16), PAD, PAD]
    else if |v| == 2 then [Letter(v[0] / 4), Letter(v[0] % 4 * 16 + v[1] / 16), Letter(v[1] % 16 * 4), PAD]
    else
      [Letter(v[0] / 4), Letter(v[0] % 4 * 16 + v[1] / 16), Letter(v[1] % 16 * 4 + v[2] / 64), Letter(v[2] % 64)]
  }

  /** The encoding, three bytes at a time. */
  function Encode(v: seq<Byte>): Units {
    if v == [] then []
    else if |v| <= 3 then EncodeGroup(v)
    else EncodeGroup(v[..3]) + Encode(v[3..])
  }

  /** One group, the padding read off its end and the unused bits checked. */
  function DecodeGroup(q: Units): (v: Option<seq<Byte>>)
    requires |q| == 4
    ensures v.Some? ==> 1 <= |v.value| <= 3
  {
    if !InAlphabet(q[0]) || !InAlphabet(q[1]) then None
    else
      var a, b := Index(q[0]), Index(q[1]);
      if q[2] == PAD then if q[3] == PAD && b % 16 == 0 then Some([a * 4 + b / 16]) else None
      else if !InAlphabet(q[2]) then None
      else
        var c := Index(q[2]);
        if q[3] == PAD then if c % 4 == 0 then Some([a * 4 + b / 16, b % 16 * 16 + c / 4]) else None
        else if !InAlphabet(q[3]) then None
        else Some([a * 4 + b / 16, b % 16 * 16 + c / 4, c % 4 * 64 + Index(q[3])])
  }

  /** The strict library decoder: only the last group may be padded. */
  function LibraryDecode(t: Units): (r: Option<seq<Byte>>)
    decreases |t|
  {
    if t == [] then Some([])
    else if |t| < 4 then None
    else match DecodeGroup(t[..4])
      case None => None
      case Some(v) =>
        if |t| == 4 then Some(v)
        else if |v| < 3 then None
        else match LibraryDecode(t[4..])
          case None => None
          case Some(rest) => Some(v + rest)
  }

  // ---- bytes.rs.

  /** The length of the trailing run of padding. */
  function Padding(t: Units): (n: nat)
    ensures n <= |t|
    ensures forall i | |t| - n <= i < |t| :: t[i] == PAD
    ensures n < |t| ==> t[|t| - n - 1] != PAD
  {
    if t == [] || t[|t| - 1] != PAD then 0 else 1 + Padding(t[..|t| - 1])
  }

  function DecodeUnits(t: Units, maxBytes: nat): Result<seq<Byte>, DecodeError> {
    if |t| % 4 != 0 then Err(InvalidEncoding)
    else
      var padding := Padding(t);
      if padding > 2 || exists i | 0 <= i < |t| - padding :: !InAlphabet(t[i]) then Err(InvalidEncoding)
      else if |t| >= 4 && LibraryDecode(t[|t| - 4..]).None? then Err(InvalidEncoding)
      else if |t| / 4 * 3 - padding > maxBytes then Err(TooLarge)
      else match LibraryDecode(t)
        case None => Err(InvalidEncoding)
        case Some(v) => Ok(v)
  }

  // ---- The decoder is the inverse of the encoder.

  lemma DecodeGroupEncode(v: seq<Byte>)
    requires 1 <= |v| <= 3
    ensures DecodeGroup(EncodeGroup(v)) == Some(v)
    ensures forall i | 0 <= i < 4 :: EncodeGroup(v)[i] < 128
  {
    LetterIndex(v[0] / 4);
    if |v| == 1 {
      LetterIndex(v[0] % 4 * 16);
      assert v == [v[0]];
    } else {
      LetterIndex(v[0] % 4 * 16 + v[1] / 16);
      if |v| == 2 {
        LetterIndex(v[1] % 16 * 4);
        assert v == [v[0], v[1]];
      } else {
        LetterIndex(v[1] % 16 * 4 + v[2] / 64);
        LetterIndex(v[2] % 64);
        assert v == [v[0], v[1], v[2]];
      }
    }
  }

  lemma EncodeGroupDecode(q: Units)
    requires |q| == 4 && DecodeGroup(q).Some?
    ensures EncodeGroup(DecodeGroup(q).value) == q
    ensures |DecodeGroup(q).value| == 3 - (if q[3] != PAD then 0 else if q[2] != PAD then 1 else 2)
  {
    var v := DecodeGroup(q).value;
    IndexLetter(q[0]);
    IndexLetter(q[1]);
    assert v[0] / 4 == Index(q[0]);
    if |v| > 1 {
      IndexLetter(q[2]);
      assert v[0] % 4 * 16 + v[1] / 16 == Index(q[1]);
      if |v| > 2 {
        IndexLetter(q[3]);
        assert v[1] % 16 * 4 + v[2] / 64 == Index(q[2]) && v[2] % 64 == Index(q[3]);
      }
    }
  }

  /** Reading a full group in front of a decodable text. */
  lemma GroupThenRest(first: Units, rest: Units, v: seq<Byte>, w: seq<Byte>)
    requires |first| == 4 && rest != [] && DecodeGroup(first) == Some(v) && |v| == 3 && LibraryDecode(rest) == Some(w)
    ensures LibraryDecode(first + rest) == Some(v + w)
  {
    assert (first + rest)[..4] == first && (first + rest)[4..] == rest;
  }

  lemma EncodeSplit(v: seq<Byte>, w: seq<Byte>)
    requires |v| == 3 && w != []
    ensures Encode(v + w) == EncodeGroup(v) + Encode(w)
  {
    assert (v + w)[..3] == v && (v + w)[3..] == w;
  }

  lemma {:induction false} DecodeEncode(v: seq<Byte>)
    ensures LibraryDecode(Encode(v)) == Some(v)
    ensures Ascii(Encode(v)) && (v != [] ==> Encode(v) != [])
    decreases |v|
  {
    if 1 <= |v| <= 3 {
      DecodeGroupEncode(v);
      assert Encode(v)[..4] == Encode(v);
    } else if |v| > 3 {
      var a, b := v[..3], v[3..];
      assert v == a + b;
      EncodeSplit(a, b);
      DecodeGroupEncode(a);
      DecodeEncode(b);
      AsciiSplit(EncodeGroup(a), Encode(b));
      GroupThenRest(EncodeGroup(a), Encode(b), a, b);
    }
  }

  /** What a decodable text of more than one group is made of. */
  lemma DecodeSplit(t: Units)
    requires |t| > 4 && LibraryDecode(t).Some?
    ensures DecodeGroup(t[..4]).Some? && |DecodeGroup(t[..4]).value| == 3 && LibraryDecode(t[4..]).Some?
    ensures LibraryDecode(t).value == DecodeGroup(t[..4]).value + LibraryDecode(t[4..]).value
  {
  }

  lemma {:induction false} EncodeDecode(t: Units)
    requires LibraryDecode(t).Some?
    ensures Encode(LibraryDecode(t).value) == t
    ensures t != [] ==> LibraryDecode(t).value != []
    decreases |t|
  {
    if |t| == 4 {
      assert t[..4] == t;
      EncodeGroupDecode(t);
    } else if t != [] {
      DecodeSplit(t);
      EncodeDecode(t[4..]);
      EncodeGroupDecode(t[..4]);
      EncodeSplit(DecodeGroup(t[..4]).value, LibraryDecode(t[4..]).value);
      assert t == t[..4] + t[4..];
    }
  }

  lemma {:induction false} DecodedLength(t: Units)
    requires LibraryDecode(t).Some?
    ensures |t| % 4 == 0 && |LibraryDecode(t).value| == |t| / 4 * 3 - Padding(t)
    decreases |t|
  {
    if |t| == 4 {
      assert t[..4] == t;
      EncodeGroupDecode(t);
      PaddingOfLast(t);
    } else if t != [] {
      DecodeSplit(t);
      DecodedLength(t[4..]);
      FullGroup(t[..4]);
      assert InAlphabet(t[..4][3]);
      LongPadding(t);
    }
  }

  lemma PaddingOfLast(t: Units)
    requires |t| >= 4
    ensures Padding(t) == 0 <==> t[|t| - 1] != PAD
    ensures Padding(t) == 1 <==> t[|t| - 1] == PAD && t[|t| - 2] != PAD
    ensures Padding(t) == 2 <==> t[|t| - 1] == PAD && t[|t| - 2] == PAD && t[|t| - 3] != PAD
  {
  }

  /** Padding is looked for from the end, so a group without padding in front does not change it. */
  lemma {:induction false} LongPadding(t: Units)
    requires |t| >= 4 && t[3] != PAD
    ensures Padding(t) == Padding(t[4..])
    decreases |t|
  {
    if |t| > 4 && t[|t| - 1] == PAD {
      LongPadding(t[..|t| - 1]);
      assert t[..|t| - 1][4..] == t[4..][..|t| - 5];
    }
  }

  /** A text is decoded to a value exactly when it is that value's one encoding. */
  lemma DecodesExactly(t: Units, v: seq<Byte>)
    ensures LibraryDecode(t) == Some(v) <==> t == Encode(v)
  {
    DecodeEncode(v);
    if LibraryDecode(t) == Some(v) { EncodeDecode(t); }
  }

  // ---- The early checks are complete.

  /** The shape that the checks before the decode establish. */
  predicate WellShaped(t: Units) {
    |t| % 4 == 0 && Padding(t) <= 2 && (forall i | 0 <= i < |t| - Padding(t) :: InAlphabet(t[i])) &&
    (|t| >= 4 ==> LibraryDecode(t[|t| - 4..]).Some?)
  }

  /** The whole text decodes exactly when its shape is right and its last group decodes. */
  lemma {:induction false} ShapeDecodes(t: Units)
    ensures WellShaped(t) <==> LibraryDecode(t).Some?
    decreases |t|
  {
    if |t| == 4 {
      assert t[|t| - 4..] == t && t[..4] == t;
      if LibraryDecode(t).Some? { PaddingOfLast(t); }
    } else if |t| > 4 {
      ShapeDecodes(t[4..]);
      FirstGroup(t);
      FullGroup(t[..4]);
    }
  }

  lemma FullGroup(q: Units)
    requires |q| == 4
    ensures DecodeGroup(q).Some? && |DecodeGroup(q).value| == 3 <==> forall i | 0 <= i < 4 :: InAlphabet(q[i])
  {
  }

  /** Splitting off a first group that has no padding. */
  lemma FirstGroup(t: Units)
    requires |t| > 4
    ensures WellShaped(t) <==> (forall i | 0 <= i < 4 :: InAlphabet(t[..4][i])) && WellShaped(t[4..])
  {
    if t[3] != PAD {
      LongPadding(t);
      if |t| % 4 == 0 { LastOfRest(t); }
      if |t| % 4 == 0 && Padding(t) <= 2 { LettersSplit(t, |t| - Padding(t)); }
    } else {
      assert t[..4][3] == PAD;
      assert WellShaped(t) ==> InAlphabet(t[3]);
    }
  }

  lemma LastOfRest(t: Units)
    requires |t| > 4 && |t| % 4 == 0
    ensures |t[4..]| >= 4 && t[4..][|t| - 8..] == t[|t| - 4..]
  {
  }

  lemma LettersSplit(t: Units, n: int)
    requires 4 <= n <= |t|
    ensures (forall i | 0 <= i < n :: InAlphabet(t[i])) <==>
            (forall i | 0 <= i < 4 :: InAlphabet(t[..4][i])) && (forall i | 0 <= i < n - 4 :: InAlphabet(t[4..][i]))
  {
    if (forall i | 0 <= i < 4 :: InAlphabet(t[..4][i])) && (forall i | 0 <= i < n - 4 :: InAlphabet(t[4..][i])) {
      forall i | 0 <= i < n ensures InAlphabet(t[i]) {
        if i < 4 { assert t[..4][i] == t[i]; } else { assert t[4..][i - 4] == t[i]; }
      }
    }
  }

  /** The verdict by the shape alone. */
  lemma ByShape(t: Units, maxBytes: nat)
    ensures LibraryDecode(t).Some? <==> WellShaped(t)
    ensures WellShaped(t) ==> |LibraryDecode(t).value| == |t| / 4 * 3 - Padding(t)
    ensures DecodeUnits(t, maxBytes) ==
            if !WellShaped(t) then Err(InvalidEncoding)
            else if |LibraryDecode(t).value| > maxBytes then Err(TooLarge)
            else Ok(LibraryDecode(t).value)
  {
    ShapeDecodes(t);
    if WellShaped(t) { DecodedLength(t); }
  }

  /** Every text is one of: the encoding of a value within the limit, of a longer one, or of nothing. */
  lemma Classified(t: Units, maxBytes: nat)
    ensures forall v :: DecodeUnits(t, maxBytes) == Ok(v) <==> t == Encode(v) && |v| <= maxBytes
    ensures DecodeUnits(t, maxBytes) == Err(TooLarge) <==> exists v :: t == Encode(v) && |v| > maxBytes
    ensures DecodeUnits(t, maxBytes) == Err(InvalidEncoding) <==> !exists v :: t == Encode(v)
  {
    ByShape(t, maxBytes);
    forall v ensures LibraryDecode(t) == Some(v) <==> t == Encode(v) { DecodesExactly(t, v); }
    assert WellShaped(t) ==> t == Encode(LibraryDecode(t).value);
  }

  /** After the checks the library decode cannot fail. */
  lemma DecodeNeverFails(t: Units)
    requires |t| % 4 == 0 && Padding(t) <= 2 && (forall i | 0 <= i < |t| - Padding(t) :: InAlphabet(t[i]))
    requires |t| >= 4 ==> LibraryDecode(t[|t| - 4..]).Some?
    ensures LibraryDecode(t).Some?
  {
    ShapeDecodes(t);
  }

  // ---- binary.ts.

  datatype BlobError = BadLimit | InvalidValue | OverLimit

  /** The index loop over the code units, then the last letter's unused bits, then the length. */
  method DecodedBlobLength(value: Units, maxBytes: int) returns (r: Result<nat, BlobError>)
    ensures r == Err(BadLimit) <==> !(1 <= maxBytes <= MAX_SAFE_INTEGER)
    ensures 1 <= maxBytes <= MAX_SAFE_INTEGER ==>
              match DecodeUnits(value, maxBytes)
              case Ok(v) => r == Ok(|v|)
              case Err(TooLarge) => r == Err(OverLimit)
              case Err(InvalidEncoding) => r == Err(InvalidValue)
  {
    if !(1 <= maxBytes <= MAX_SAFE_INTEGER) { return Err(BadLimit); }
    ByShape(value, maxBytes);
    if |value| % 4 != 0 { return Err(InvalidValue); }
    var padding := TrailingPad(value);
    var n := |value|;
    var index := 0;
    while index < n - padding
      invariant 0 <= index <= n - padding
      invariant forall i | 0 <= i < index :: InAlphabet(value[i])
    {
      if !InAlphabet(value[index]) {
        BadLetter(value, index);
        return Err(InvalidValue);
      }
      index := index + 1;
    }
    LastLetter(value);
    if n > 0 {
      var last := Index(value[n - padding - 1]);
      if (padding == 2 && last % 16 != 0) || (padding == 1 && last % 4 != 0) { return Err(InvalidValue); }
    }
    var length := n / 4 * 3 - padding;
    if length > maxBytes { return Err(OverLimit); }
    return Ok(length);
  }

  /** The padding found by looking at the last two units only. */
  function TrailingPad(t: Units): nat {
    var n := |t|;
    if n >= 2 && t[n - 2] == PAD && t[n - 1] == PAD then 2 else if n >= 1 && t[n - 1] == PAD then 1 else 0
  }

  /** With letters up to that padding, only the unused bits of the last letter are left to check. */
  lemma LastLetter(t: Units)
    requires |t| % 4 == 0 && forall i | 0 <= i < |t| - TrailingPad(t) :: InAlphabet(t[i])
    ensures Padding(t) == TrailingPad(t)
    ensures t == [] ==> WellShaped(t)
    ensures t != [] ==> InAlphabet(t[|t| - TrailingPad(t) - 1])
    ensures t != [] ==>
              (WellShaped(t) <==>
               var last := Index(t[|t| - TrailingPad(t) - 1]);
               (TrailingPad(t) == 2 ==> last % 16 == 0) && (TrailingPad(t) == 1 ==> last % 4 == 0))
  {
    if t != [] {
      PaddingOfLast(t);
      LastGroup(t[|t| - 4..], TrailingPad(t));
    }
  }

  /** A foreign unit before the last two padding characters makes the text malformed. */
  lemma BadLetter(t: Units, index: nat)
    requires |t| % 4 == 0 && index < |t| - TrailingPad(t) && !InAlphabet(t[index])
    ensures !WellShaped(t)
  {
    PaddingOfLast(t);
  }

  lemma LastGroup(q: Units, padding: nat)
    requires |q| == 4 && padding <= 2
    requires (forall i | 0 <= i < 4 - padding :: InAlphabet(q[i])) && (forall i | 4 - padding <= i < 4 :: q[i] == PAD)
    ensures LibraryDecode(q).Some? <==>
            (padding == 2 ==> Index(q[1]) % 16 == 0) && (padding == 1 ==> Index(q[2]) % 4 == 0)
  {
    assert q[..4] == q;
  }

  // ---- The same text on both sides.

  function HeadUnits(c: char): Units {
    var n := c as int;
    if n < 0x1_0000 then [n] else [0xD800 + (n - 0x1_0000) / 0x400, 0xDC00 + (n - 0x1_0000) % 0x400]
  }

  /** The UTF-16 code units of a text. */
  function Utf16(text: string): Units {
    if text == [] then [] else HeadUnits(text[0]) + Utf16(text[1..])
  }

  function Decode(text: string, maxBytes: nat): Result<seq<Byte>, DecodeError> {
    DecodeUnits(Utf8Bytes(text), maxBytes)
  }

  predicate Ascii(t: Units) {
    forall i | 0 <= i < |t| :: t[i] < 128
  }

  function Codes(text: string): Units {
    seq(|text|, i requires 0 <= i < |text| => text[i] as int)
  }

  lemma {:induction false} AsciiBytes(text: string)
    ensures Ascii(Codes(text)) ==> Utf8Bytes(text) == Codes(text)
    ensures Ascii(Codes(text)) <==> Ascii(Utf8Bytes(text))
    decreases |text|
  {
    if text != [] {
      AsciiBytes(text[1..]);
      assert Codes(text) == [text[0] as int] + Codes(text[1..]);
      AsciiSplit(Utf8(text[0]), Utf8Bytes(text[1..]));
      AsciiSplit([text[0] as int], Codes(text[1..]));
      HeadBytes(text[0]);
      if Ascii(Codes(text)) {
        assert [text[0] as int][0] < 128;
        assert Utf8Bytes(text) == [text[0] as int] + Codes(text[1..]);
      }
    }
  }

  lemma AsciiSplit(a: Units, b: Units)
    ensures Ascii(a + b) <==> Ascii(a) && Ascii(b)
  {
    if Ascii(a + b) {
      assert forall i | 0 <= i < |a| :: (a + b)[i] == a[i];
      forall i | 0 <= i < |b| ensures b[i] < 128 { assert (a + b)[i + |a|] == b[i]; }
    }
  }

  lemma HeadBytes(c: char)
    ensures c as int < 128 ==> Utf8(c) == [c as int]
    ensures Ascii(Utf8(c)) <==> c as int < 128
  {
    if c as int >= 128 { assert Utf8(c)[0] >= 128; }
  }

  lemma {:induction false} AsciiUnits(text: string)
    ensures Ascii(Codes(text)) ==> Utf16(text) == Codes(text)
    ensures Ascii(Codes(text)) <==> Ascii(Utf16(text))
    decreases |text|
  {
    if text != [] {
      AsciiUnits(text[1..]);
      assert Codes(text) == [text[0] as int] + Codes(text[1..]);
      AsciiSplit(HeadUnits(text[0]), Utf16(text[1..]));
      AsciiSplit([text[0] as int], Codes(text[1..]));
      if text[0] as int >= 128 { assert HeadUnits(text[0])[0] >= 128; }
      if Ascii(Codes(text)) {
        assert [text[0] as int][0] < 128;
        assert Utf16(text) == [text[0] as int] + Codes(text[1..]);
      }
    }
  }

  /** The Rust and the TypeScript classifier see different code units and give the same verdict on every string. */
  lemma SameVerdict(text: string, maxBytes: nat)
    ensures DecodeUnits(Utf16(text), maxBytes) == Decode(text, maxBytes)
  {
    AsciiBytes(text);
    AsciiUnits(text);
    if !Ascii(Codes(text)) {
      NotAscii(Utf8Bytes(text), maxBytes);
      NotAscii(Utf16(text), maxBytes);
    }
  }

  lemma NotAscii(t: Units, maxBytes: nat)
    requires !Ascii(t)
    ensures DecodeUnits(t, maxBytes) == Err(InvalidEncoding)
  {
    Classified(t, maxBytes);
    if v :| t == Encode(v) { DecodeEncode(v); }
  }

  /** What is encoded is decoded again within the limit, and refused as too large beyond it. */
  lemma BlobRoundTrip(v: seq<Byte>, maxBytes: nat)
    ensures DecodeUnits(Encode(v), maxBytes) == if |v| <= maxBytes then Ok(v) else Err(TooLarge)
  {
    Classified(Encode(v), maxBytes);
  }

  /** The size is checked before anything is copied; the bytes become code units one by one. */
  method EncodeBlob(value: seq<Byte>, maxBytes: int) returns (r: Result<Units, BlobError>)
    ensures r == Err(BadLimit) <==> !(1 <= maxBytes <= MAX_SAFE_INTEGER)
    ensures r == Err(OverLimit) <==> 1 <= maxBytes <= MAX_SAFE_INTEGER && |value| > maxBytes
    ensures r != Err(InvalidValue)
    ensures r.Ok? ==> DecodeUnits(r.value, maxBytes) == Ok(value) && DecodeUnits(r.value, |value|) == Ok(value)
  {
    if !(1 <= maxBytes <= MAX_SAFE_INTEGER) { return Err(BadLimit); }
    if |value| > maxBytes { return Err(OverLimit); }
    var binary: seq<Byte> := [];
    for i := 0 to |value|
      invariant binary == value[..i]
    {
      assert value[..i + 1] == value[..i] + [value[i]];
      binary := binary + [value[i]];
    }
    assert binary == value;
    BlobRoundTrip(value, maxBytes);
    BlobRoundTrip(value, |value|);
    return Ok(Encode(binary));
  }
}
