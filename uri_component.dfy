/**
 * ECMAScript `encodeURIComponent`: every character outside the unreserved
 * set of section 2.3 of RFC 3986 (letters, digits, `-`, `.`, `_`, `~`)
 * and the further marks `!`, `'`, `(`, `)`, `*` is written as the
 * percent-encoded bytes of its UTF-8 form (section 2.1 of RFC 3986, with
 * upper-case hexadecimal digits). A percent-decoder followed by a UTF-8
 * decoder is its partner: decoding gives back the input.
 */
module UriComponent {
  import opened Wrappers
  import opened Text

  type Byte = b: int | 0 <= b < 0x100

  /** The characters `encodeURIComponent` leaves as they are. */
  predicate Unescaped(c: char) {
    ('A' <= c <= 'Z') || ('a' <= c <= 'z') || ('0' <= c <= '9')
    || c == '-' || c == '_' || c == '.' || c == '!' || c == '~' || c == '*'
    || c == '\'' || c == '(' || c == ')'
  }

  /** The UTF-8 form of one character: one to four bytes. */
  function Utf8(c: char): (r: seq<Byte>)
    ensures 1 <= |r| <= 4
  {
    var cp := c as int;
    if cp < 0x80 then [cp]
    else if cp < 0x800 then [0xC0 + cp / 0x40, 0x80 + cp % 0x40]
    else if cp < 0x1_0000 then [0xE0 + cp / 0x1000, 0x80 + (cp / 0x40) % 0x40, 0x80 + cp % 0x40]
    else [0xF0 + cp / 0x4_0000, 0x80 + (cp / 0x1000) % 0x40, 0x80 + (cp / 0x40) % 0x40, 0x80 + cp % 0x40]
  }

  function Utf8Encode(s: string): seq<Byte> {
    if s == [] then [] else Utf8(s[0]) + Utf8Encode(s[1..])
  }

  const HexDigits: string := "0123456789ABCDEF"

  /** `%` and the two upper-case hexadecimal digits of a byte. */
  function PercentByte(b: Byte): (r: string)
    ensures |r| == 3 && r[0] == '%'
  {
    ['%', HexDigits[b / 16], HexDigits[b % 16]]
  }

  function PercentBytes(bs: seq<Byte>): string {
    if bs == [] then [] else PercentByte(bs[0]) + PercentBytes(bs[1..])
  }

  function EncodeChar(c: char): string {
    if Unescaped(c) then [c] else PercentBytes(Utf8(c))
  }

  /** `encodeURIComponent` of a string of Unicode scalar values. */
  function Encode(s: string): string {
    if s == [] then [] else EncodeChar(s[0]) + Encode(s[1..])
  }

  /** What may appear in an encoded string: unescaped characters, `%` and hexadecimal digits. */
  predicate EncodedChar(c: char) {
    Unescaped(c) || c == '%'
  }

  /** `%` or an upper-case hexadecimal digit: what percent-encoding writes. */
  predicate PercentChar(c: char) {
    c == '%' || c in HexDigits
  }

  /** Percent-encoded bytes are written with `%` and upper-case hexadecimal digits only. */
  lemma {:induction false} PercentBytesChars(bs: seq<Byte>)
    ensures forall i :: 0 <= i < |PercentBytes(bs)| ==> PercentChar(PercentBytes(bs)[i])
    decreases |bs|
  {
    if bs != [] {
      PercentBytesChars(bs[1..]);
      var head, tail := PercentByte(bs[0]), PercentBytes(bs[1..]);
      assert forall i :: 0 <= i < |head| ==> PercentChar(head[i]);
      assert forall i :: 0 <= i < |tail| ==> (head + tail)[|head| + i] == tail[i];
    }
  }

  /** The encoded form holds only unescaped characters and `%`. */
  lemma {:induction false} EncodeChars(s: string)
    ensures forall i :: 0 <= i < |Encode(s)| ==> EncodedChar(Encode(s)[i])
    decreases |s|
  {
    if s != [] {
      EncodeChars(s[1..]);
      var head, tail := EncodeChar(s[0]), Encode(s[1..]);
      if !Unescaped(s[0]) {
        PercentBytesChars(Utf8(s[0]));
        assert forall c :: PercentChar(c) ==> EncodedChar(c);
      }
      assert forall i :: 0 <= i < |head| ==> EncodedChar(head[i]);
      assert forall i :: 0 <= i < |tail| ==> (head + tail)[|head| + i] == tail[i];
    }
  }

  /** In particular the encoded form holds no `/` and no `?`. */
  lemma EncodeNoSlash(s: string)
    ensures '/' !in Encode(s) && '?' !in Encode(s)
  {
    EncodeChars(s);
  }

  /** The value of a hexadecimal digit, either case. */
  function HexValue(c: char): Option<nat> {
    if '0' <= c <= '9' then Some(c as int - '0' as int)
    else if 'A' <= c <= 'F' then Some(c as int - 'A' as int + 10)
    else if 'a' <= c <= 'f' then Some(c as int - 'a' as int + 10)
    else None
  }

  /**
   * Percent-decoding into bytes: `%` and two hexadecimal digits stand for a
   * byte, any other character for its UTF-8 bytes; a `%` without two digits
   * after it is an error.
   */
  function PercentDecode(s: string): Option<seq<Byte>>
    decreases |s|
  {
    if s == [] then Some([])
    else if s[0] == '%' then
      if |s| < 3 then None
      else match (HexValue(s[1]), HexValue(s[2]))
        case (Some(hi), Some(lo)) =>
          (match PercentDecode(s[3..]) case Some(rest) => Some([hi * 16 + lo] + rest) case None => None)
        case _ => None
    else
      match PercentDecode(s[1..]) case Some(rest) => Some(Utf8(s[0]) + rest) case None => None
  }

  predicate IsContinuation(b: Byte) {
    0x80 <= b < 0xC0
  }

  /**
   * The character the bytes start with and how many bytes it takes, if they
   * start with the shortest UTF-8 form of a Unicode scalar value.
   */
  function DecodeOne(bs: seq<Byte>): (r: Option<(char, nat)>)
    requires |bs| > 0
    ensures r.Some? ==> 1 <= r.value.1 <= |bs|
  {
    var b0: int := bs[0];
    if b0 < 0x80 then Some((b0 as char, 1))
    else if 0xC2 <= b0 < 0xE0 then
      if |bs| < 2 || !IsContinuation(bs[1]) then None
      else Some((((b0 - 0xC0) * 0x40 + (bs[1] as int - 0x80)) as char, 2))
    else if 0xE0 <= b0 < 0xF0 then
      if |bs| < 3 || !IsContinuation(bs[1]) || !IsContinuation(bs[2]) then None
      else
        var cp := (b0 - 0xE0) * 0x1000 + (bs[1] as int - 0x80) * 0x40 + (bs[2] as int - 0x80);
        if cp < 0x800 || (0xD800 <= cp < 0xE000) then None else Some((cp as char, 3))
    else if 0xF0 <= b0 < 0xF5 then
      if |bs| < 4 || !IsContinuation(bs[1]) || !IsContinuation(bs[2]) || !IsContinuation(bs[3]) then None
      else
        var cp := (b0 - 0xF0) * 0x4_0000 + (bs[1] as int - 0x80) * 0x1000 + (bs[2] as int - 0x80) * 0x40
          + (bs[3] as int - 0x80);
        if cp < 0x1_0000 || cp > 0x10_FFFF then None else Some((cp as char, 4))
    else None
  }

  function Utf8Decode(bs: seq<Byte>): Option<string>
    decreases |bs|
  {
    if bs == [] then Some([])
    else match DecodeOne(bs)
      case None => None
      case Some((c, n)) =>
        match Utf8Decode(bs[n..]) case Some(rest) => Some([c] + rest) case None => None
  }

  /** `decodeURIComponent`: percent-decode, then read the bytes as UTF-8. */
  function Decode(s: string): Option<string> {
    match PercentDecode(s) case Some(bs) => Utf8Decode(bs) case None => None
  }

  lemma DecodeTwo(c: char, rest: seq<Byte>)
    requires 0x80 <= c as int < 0x800
    ensures DecodeOne(Utf8(c) + rest) == Some((c, 2))
  {
    var cp := c as int;
    var bs := Utf8(c) + rest;
    assert bs[0] == 0xC0 + cp / 0x40 && bs[1] == 0x80 + cp % 0x40;
    assert (cp / 0x40) * 0x40 + cp % 0x40 == cp;
  }

  lemma DecodeThree(c: char, rest: seq<Byte>)
    requires 0x800 <= c as int < 0x1_0000
    ensures DecodeOne(Utf8(c) + rest) == Some((c, 3))
  {
    var cp := c as int;
    var bs := Utf8(c) + rest;
    assert bs[0] == 0xE0 + cp / 0x1000 && bs[1] == 0x80 + (cp / 0x40) % 0x40 && bs[2] == 0x80 + cp % 0x40;
    assert (cp / 0x1000) * 0x40 + (cp / 0x40) % 0x40 == cp / 0x40;
    assert (cp / 0x40) * 0x40 + cp % 0x40 == cp;
  }

  lemma DecodeFour(c: char, rest: seq<Byte>)
    requires 0x1_0000 <= c as int
    ensures DecodeOne(Utf8(c) + rest) == Some((c, 4))
  {
    var cp := c as int;
    var bs := Utf8(c) + rest;
    assert bs[0] == 0xF0 + cp / 0x4_0000 && bs[1] == 0x80 + (cp / 0x1000) % 0x40;
    assert bs[2] == 0x80 + (cp / 0x40) % 0x40 && bs[3] == 0x80 + cp % 0x40;
    assert (cp / 0x4_0000) * 0x40 + (cp / 0x1000) % 0x40 == cp / 0x1000;
    assert (cp / 0x1000) * 0x40 + (cp / 0x40) % 0x40 == cp / 0x40;
    assert (cp / 0x40) * 0x40 + cp % 0x40 == cp;
  }

  /** A character's UTF-8 form is read back as that character. */
  lemma DecodeUtf8(c: char, rest: seq<Byte>)
    ensures DecodeOne(Utf8(c) + rest) == Some((c, |Utf8(c)|))
  {
    var cp := c as int;
    if cp < 0x80 {
    } else if cp < 0x800 {
      DecodeTwo(c, rest);
    } else if cp < 0x1_0000 {
      DecodeThree(c, rest);
    } else {
      DecodeFour(c, rest);
    }
  }

  /** UTF-8 decoding undoes UTF-8 encoding. */
  lemma {:induction false} Utf8RoundTrip(s: string)
    ensures Utf8Decode(Utf8Encode(s)) == Some(s)
    decreases |s|
  {
    if s != [] {
      var head, tail := Utf8(s[0]), Utf8Encode(s[1..]);
      DecodeUtf8(s[0], tail);
      assert (head + tail)[|head|..] == tail;
      Utf8RoundTrip(s[1..]);
      assert Utf8Decode(head + tail) == Some([s[0]] + s[1..]);
      assert [s[0]] + s[1..] == s;
    }
  }

  lemma HexDigitValue(n: nat)
    requires n < 16
    ensures HexValue(HexDigits[n]) == Some(n)
  {
  }

  /** A percent-encoded byte is read back as that byte. */
  lemma PercentByteDecode(b: Byte, t: string)
    requires PercentDecode(t).Some?
    ensures PercentDecode(PercentByte(b) + t) == Some([b] + PercentDecode(t).value)
  {
    HexDigitValue(b / 16);
    HexDigitValue(b % 16);
    var s := PercentByte(b) + t;
    assert s[3..] == t;
    assert s[0] == '%' && s[1] == HexDigits[b / 16] && s[2] == HexDigits[b % 16];
    assert (b / 16) * 16 + b % 16 == b;
  }

  /** Percent-decoding undoes the percent-encoding of bytes. */
  lemma {:induction false} PercentBytesDecode(bs: seq<Byte>, rest: string)
    requires PercentDecode(rest).Some?
    ensures PercentDecode(PercentBytes(bs) + rest) == Some(bs + PercentDecode(rest).value)
    decreases |bs|
  {
    if bs == [] {
      assert PercentBytes(bs) + rest == rest;
      assert bs + PercentDecode(rest).value == PercentDecode(rest).value;
    } else {
      var b, r := bs[0], PercentDecode(rest).value;
      var t := PercentBytes(bs[1..]) + rest;
      PercentBytesDecode(bs[1..], rest);
      PercentByteDecode(b, t);
      ConcatAssoc(PercentByte(b), PercentBytes(bs[1..]), rest);
      ConcatAssoc([b], bs[1..], r);
      assert [b] + bs[1..] == bs;
    }
  }

  /** Percent-decoding the encoded string gives the UTF-8 bytes of the input. */
  lemma {:induction false} PercentDecodeEncode(s: string)
    ensures PercentDecode(Encode(s)) == Some(Utf8Encode(s))
    decreases |s|
  {
    if s != [] {
      PercentDecodeEncode(s[1..]);
      var tail := Encode(s[1..]);
      if Unescaped(s[0]) {
        assert ([s[0]] + tail)[1..] == tail;
      } else {
        PercentBytesDecode(Utf8(s[0]), tail);
      }
    }
  }

  /** The round trip: decoding the encoded string gives back the string. */
  lemma DecodeEncode(s: string)
    ensures Decode(Encode(s)) == Some(s)
  {
    PercentDecodeEncode(s);
    Utf8RoundTrip(s);
  }
}
