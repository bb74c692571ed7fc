/** Byte-to-text encodings used by the core: encoding/hex (content hashes) and the
    URL-safe, padded base64 of section 5 of RFC 4648 (session identifiers). Each
    encoder comes with a decoder and a round-trip lemma. */
module Encoding {
  import opened Wrappers

  /** Go's `byte`. */
  type Byte = b: int | 0 <= b < 256

  // ---------------------------------------------------------------------------
  // Hexadecimal (encoding/hex)
  // ---------------------------------------------------------------------------

  predicate IsLowerHexChar(c: char) {
    '0' <= c <= '9' || 'a' <= c <= 'f'
  }

  predicate IsLowerHex(s: string) {
    forall i :: 0 <= i < |s| ==> IsLowerHexChar(s[i])
  }

  function HexChar(n: nat): (c: char)
    requires n < 16
    ensures IsLowerHexChar(c)
  {
    if n < 10 then ('0' as int + n) as char else ('a' as int + n - 10) as char
  }

  /** The value of one hex digit, either case, as hex.DecodeString accepts it. */
  function NibbleValue(c: char): (r: Option<nat>)
    ensures r.Some? ==> r.value < 16
  {
    if '0' <= c <= '9' then Some(c as int - '0' as int)
    else if 'a' <= c <= 'f' then Some(c as int - 'a' as int + 10)
    else if 'A' <= c <= 'F' then Some(c as int - 'A' as int + 10)
    else None
  }

  /** hex.EncodeToString: two lowercase digits per byte, high nibble first. */
  function HexEncode(b: seq<Byte>): (s: string)
    ensures |s| == 2 * |b|
    ensures IsLowerHex(s)
  {
    if b == [] then "" else [HexChar(b[0] / 16), HexChar(b[0] % 16)] + HexEncode(b[1..])
  }

  /** hex.DecodeString: None on an odd length or a character that is not a hex digit. */
  function HexDecode(s: string): Option<seq<Byte>> {
    if s == [] then Some([])
    else if |s| == 1 then None
    else
      match (NibbleValue(s[0]), NibbleValue(s[1]), HexDecode(s[2..]))
      case (Some(hi), Some(lo), Some(rest)) => Some([hi * 16 + lo] + rest)
      case _ => None
  }

  lemma NibbleOfHexChar(n: nat)
    requires n < 16
    ensures NibbleValue(HexChar(n)) == Some(n)
  {
  }

  /** Decoding an encoded byte string gives it back, so equal hex strings mean equal bytes. */
  lemma {:induction false} HexRoundTrip(b: seq<Byte>)
    ensures HexDecode(HexEncode(b)) == Some(b)
  {
    if b != [] {
      var s := HexEncode(b);
      NibbleOfHexChar(b[0] / 16);
      NibbleOfHexChar(b[0] % 16);
      assert s[2..] == HexEncode(b[1..]);
      HexRoundTrip(b[1..]);
      assert [b[0]] + b[1..] == b;
    }
  }

  lemma HexEncodeInjective(a: seq<Byte>, b: seq<Byte>)
    requires HexEncode(a) == HexEncode(b)
    ensures a == b
  {
    HexRoundTrip(a);
    HexRoundTrip(b);
  }

  // ---------------------------------------------------------------------------
  // URL-safe base64 with padding (base64.URLEncoding)
  // ---------------------------------------------------------------------------

  predicate IsUrlLetter(c: char) {
    'A' <= c <= 'Z' || 'a' <= c <= 'z' || '0' <= c <= '9' || c == '-' || c == '_'
  }

  /** The letter for a six-bit value: A-Z, a-z, 0-9, '-', '_'. */
  function UrlLetter(n: nat): (c: char)
    requires n < 64
    ensures IsUrlLetter(c)
  {
    if n < 26 then ('A' as int + n) as char
    else if n < 52 then ('a' as int + n - 26) as char
    else if n < 62 then ('0' as int + n - 52) as char
    else if n == 62 then '-'
    else '_'
  }

  function UrlSextet(c: char): (r: Option<nat>)
    ensures r.Some? ==> r.value < 64
  {
    if 'A' <= c <= 'Z' then Some(c as int - 'A' as int)
    else if 'a' <= c <= 'z' then Some(c as int - 'a' as int + 26)
    else if '0' <= c <= '9' then Some(c as int - '0' as int + 52)
    else if c == '-' then Some(62)
    else if c == '_' then Some(63)
    else None
  }

  /** Every character of a padded encoding: a letter or the pad '='. */
  predicate IsPaddedUrlBase64(s: string) {
    forall i :: 0 <= i < |s| ==> IsUrlLetter(s[i]) || s[i] == '='
  }

  /** The four letters of a three-byte group: its 24 bits cut into four sextets. */
  function GroupLetters(b0: Byte, b1: Byte, b2: Byte): (s: string)
    ensures |s| == 4 && forall i :: 0 <= i < 4 ==> IsUrlLetter(s[i])
  {
    [UrlLetter(b0 / 4), UrlLetter((b0 % 4) * 16 + b1 / 16),
     UrlLetter((b1 % 16) * 4 + b2 / 64), UrlLetter(b2 % 64)]
  }

  /** base64.URLEncoding.EncodeToString: each group of three bytes becomes four
      letters; a final group of one or two bytes, filled up with zero bits, becomes
      two or three letters followed by '=' up to four. */
  function Base64UrlEncode(b: seq<Byte>): (s: string)
    ensures |s| == 4 * ((|b| + 2) / 3)
    ensures IsPaddedUrlBase64(s)
    decreases |b|
  {
    if |b| == 0 then ""
    else if |b| == 1 then GroupLetters(b[0], 0, 0)[..2] + "=="
    else if |b| == 2 then GroupLetters(b[0], b[1], 0)[..3] + "="
    else GroupLetters(b[0], b[1], b[2]) + Base64UrlEncode(b[3..])
  }

  /** Reads back one four-character group; '=' padding is accepted only in the last one. */
  function DecodeQuantum(q: string, last: bool): Option<seq<Byte>>
    requires |q| == 4
  {
    match (UrlSextet(q[0]), UrlSextet(q[1]), UrlSextet(q[2]), UrlSextet(q[3]))
    case (Some(x0), Some(x1), Some(x2), Some(x3)) =>
      Some([x0 * 4 + x1 / 16, (x1 % 16) * 16 + x2 / 4, (x2 % 4) * 64 + x3])
    case (Some(x0), Some(x1), Some(x2), None) =>
      if last && q[3] == '=' then Some([x0 * 4 + x1 / 16, (x1 % 16) * 16 + x2 / 4]) else None
    case (Some(x0), Some(x1), None, None) =>
      if last && q[2] == '=' && q[3] == '=' then Some([x0 * 4 + x1 / 16]) else None
    case _ => None
  }

  /** Reads back a padded URL-safe base64 string; None if it is not one. */
  function Base64UrlDecode(s: string): Option<seq<Byte>>
    decreases |s|
  {
    if s == [] then Some([])
    else if |s| < 4 then None
    else
      match (DecodeQuantum(s[..4], |s| == 4), Base64UrlDecode(s[4..]))
      case (Some(group), Some(rest)) => Some(group + rest)
      case _ => None
  }

  lemma SextetOfUrlLetter(n: nat)
    requires n < 64
    ensures UrlSextet(UrlLetter(n)) == Some(n)
  {
  }

  /** A string made of one group and a decodable rest decodes to the group's bytes
      followed by the rest's. */
  lemma DecodeCons(q: string, rest: string, group: seq<Byte>, tail: seq<Byte>)
    requires |q| == 4
    requires DecodeQuantum(q, rest == []) == Some(group)
    requires Base64UrlDecode(rest) == Some(tail)
    ensures Base64UrlDecode(q + rest) == Some(group + tail)
  {
    var s := q + rest;
    assert s[..4] == q && s[4..] == rest;
  }

  /** The sextets of a group, read back, give the three bytes. */
  lemma QuantumOfGroup(b0: Byte, b1: Byte, b2: Byte, last: bool)
    ensures DecodeQuantum(GroupLetters(b0, b1, b2), last) == Some([b0, b1, b2])
  {
    var x0, x1, x2, x3 := b0 / 4, (b0 % 4) * 16 + b1 / 16, (b1 % 16) * 4 + b2 / 64, b2 % 64;
    SextetOfUrlLetter(x0);
    SextetOfUrlLetter(x1);
    SextetOfUrlLetter(x2);
    SextetOfUrlLetter(x3);
    assert x0 * 4 + x1 / 16 == b0;
    assert (x1 % 16) * 16 + x2 / 4 == b1;
    assert (x2 % 4) * 64 + x3 == b2;
  }

  lemma QuantumOfTwoBytes(b0: Byte, b1: Byte)
    ensures DecodeQuantum(GroupLetters(b0, b1, 0)[..3] + "=", true) == Some([b0, b1])
  {
    var x0, x1, x2 := b0 / 4, (b0 % 4) * 16 + b1 / 16, (b1 % 16) * 4;
    var q := GroupLetters(b0, b1, 0)[..3] + "=";
    assert q == [UrlLetter(x0), UrlLetter(x1), UrlLetter(x2), '='];
    SextetOfUrlLetter(x0);
    SextetOfUrlLetter(x1);
    SextetOfUrlLetter(x2);
    assert x0 * 4 + x1 / 16 == b0;
    assert (x1 % 16) * 16 + x2 / 4 == b1;
  }

  lemma QuantumOfOneByte(b0: Byte)
    ensures DecodeQuantum(GroupLetters(b0, 0, 0)[..2] + "==", true) == Some([b0])
  {
    var x0, x1 := b0 / 4, (b0 % 4) * 16;
    var q := GroupLetters(b0, 0, 0)[..2] + "==";
    assert q == [UrlLetter(x0), UrlLetter(x1), '=', '='];
    SextetOfUrlLetter(x0);
    SextetOfUrlLetter(x1);
    assert x0 * 4 + x1 / 16 == b0;
  }

  lemma DecodeLastOne(b: seq<Byte>)
    requires |b| == 1
    ensures Base64UrlDecode(Base64UrlEncode(b)) == Some(b)
  {
    QuantumOfOneByte(b[0]);
    assert b == [b[0]];
    var q := Base64UrlEncode(b);
    assert q == GroupLetters(b[0], 0, 0)[..2] + "==";
    DecodeCons(q, [], b, []);
    assert q + [] == q && b + [] == b;
  }

  lemma DecodeLastTwo(b: seq<Byte>)
    requires |b| == 2
    ensures Base64UrlDecode(Base64UrlEncode(b)) == Some(b)
  {
    QuantumOfTwoBytes(b[0], b[1]);
    assert b == [b[0], b[1]];
    var q := Base64UrlEncode(b);
    assert q == GroupLetters(b[0], b[1], 0)[..3] + "=";
    DecodeCons(q, [], b, []);
    assert q + [] == q && b + [] == b;
  }

  lemma DecodeGroup(b0: Byte, b1: Byte, b2: Byte, rest: string, tail: seq<Byte>)
    requires Base64UrlDecode(rest) == Some(tail)
    ensures Base64UrlDecode(GroupLetters(b0, b1, b2) + rest) == Some([b0, b1, b2] + tail)
  {
    QuantumOfGroup(b0, b1, b2, rest == []);
    DecodeCons(GroupLetters(b0, b1, b2), rest, [b0, b1, b2], tail);
  }

  /** One step of the round trip: a leading three-byte group comes back in front of
      whatever the rest of the encoding decodes to. */
  lemma DecodeLeadingGroup(b: seq<Byte>)
    requires |b| >= 3
    requires Base64UrlDecode(Base64UrlEncode(b[3..])) == Some(b[3..])
    ensures Base64UrlDecode(Base64UrlEncode(b)) == Some([b[0], b[1], b[2]] + b[3..])
  {
    assert Base64UrlEncode(b) == GroupLetters(b[0], b[1], b[2]) + Base64UrlEncode(b[3..]);
    DecodeGroup(b[0], b[1], b[2], Base64UrlEncode(b[3..]), b[3..]);
  }

  lemma SplitFirstThree(b: seq<Byte>)
    requires |b| >= 3
    ensures [b[0], b[1], b[2]] + b[3..] == b
  {
  }

  /** Decoding an encoding gives the bytes back. */
  lemma {:induction false} Base64UrlRoundTrip(b: seq<Byte>)
    ensures Base64UrlDecode(Base64UrlEncode(b)) == Some(b)
    decreases |b|
  {
    if |b| == 1 {
      DecodeLastOne(b);
    } else if |b| == 2 {
      DecodeLastTwo(b);
    } else if |b| >= 3 {
      Base64UrlRoundTrip(b[3..]);
      DecodeLeadingGroup(b);
      SplitFirstThree(b);
    }
  }
}
