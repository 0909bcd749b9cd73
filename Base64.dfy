/**
 * UTF-8, the byte encoding `Base64.encode` applies to a Java string before
 * encoding it, and that `Base64.decode2UTFString` applies after decoding.
 */
module Utf8 {
  type Byte = b: int | 0 <= b < 256

  /** The replacement character that a decoder emits for malformed input. */
  const Replacement: char := '\U{FFFD}'

  predicate IsContinuation(b: int) {
    0x80 <= b < 0xC0
  }

  /** The bytes of one code point: one byte below U+0080, up to four above U+FFFF. */
  function EncodeChar(c: char): (bytes: seq<Byte>)
    ensures 1 <= |bytes| <= 4
  {
    var cp := c as int;
    if cp < 0x80 then [cp]
    else if cp < 0x800 then [0xC0 + cp / 64, 0x80 + cp % 64]
    else if cp < 0x1_0000 then
      var x := cp / 64;
      [0xE0 + x / 64, 0x80 + x % 64, 0x80 + cp % 64]
    else
      var x := cp / 64;
      var y := x / 64;
      [0xF0 + y / 64, 0x80 + y % 64, 0x80 + x % 64, 0x80 + cp % 64]
  }

  /** `text.getBytes(UTF_8)`. */
  function Encode(text: string): (bytes: seq<Byte>)
    ensures |text| <= |bytes| <= 4 * |text|
  {
    if text == [] then [] else EncodeChar(text[0]) + Encode(text[1..])
  }

  /**
   * Decodes the code point at the start of `b` and says how many bytes it used;
   * a byte that does not start a well-formed sequence decodes to the
   * replacement character and uses one byte.
   */
  function DecodeFirst(b: seq<Byte>): (r: (char, nat))
    requires |b| > 0
    ensures 1 <= r.1 <= |b|
  {
    var b0: int := b[0];
    var b1: int := if |b| >= 2 then b[1] else 0;
    var b2: int := if |b| >= 3 then b[2] else 0;
    var b3: int := if |b| >= 4 then b[3] else 0;
    if b0 < 0x80 then (b0 as char, 1)
    else if 0xC2 <= b0 < 0xE0 && |b| >= 2 && IsContinuation(b1) then
      (((b0 - 0xC0) * 64 + (b1 - 0x80)) as char, 2)
    else if 0xE0 <= b0 < 0xF0 && |b| >= 3 && IsContinuation(b1) && IsContinuation(b2) then
      var cp := ((b0 - 0xE0) * 64 + (b1 - 0x80)) * 64 + (b2 - 0x80);
      if 0x800 <= cp && !(0xD800 <= cp < 0xE000) then (cp as char, 3) else (Replacement, 1)
    else if 0xF0 <= b0 < 0xF5 && |b| >= 4 && IsContinuation(b1) && IsContinuation(b2) && IsContinuation(b3) then
      var cp := (((b0 - 0xF0) * 64 + (b1 - 0x80)) * 64 + (b2 - 0x80)) * 64 + (b3 - 0x80);
      if 0x1_0000 <= cp < 0x11_0000 then (cp as char, 4) else (Replacement, 1)
    else (Replacement, 1)
  }

  /** `new String(bytes, UTF_8)`: never fails, malformed bytes become replacement characters. */
  function Decode(b: seq<Byte>): (text: string)
    ensures |text| <= |b|
    decreases |b|
  {
    if b == [] then []
    else
      var (c, n) := DecodeFirst(b);
      [c] + Decode(b[n..])
  }

  /** The first code point of bytes that start with a character's encoding is that character. */
  lemma DecodeFirstEncodeChar(c: char, rest: seq<Byte>)
    ensures DecodeFirst(EncodeChar(c) + rest) == (c, |EncodeChar(c)|)
  {
    var cp := c as int;
    if cp < 0x80 {
      assert (EncodeChar(c) + rest)[0] == cp;
    } else if cp < 0x800 {
      DecodeTwoBytes(c, rest);
    } else if cp < 0x1_0000 {
      DecodeThreeBytes(c, rest);
    } else {
      DecodeFourBytes(c, rest);
    }
  }

  lemma DecodeTwoBytes(c: char, rest: seq<Byte>)
    requires 0x80 <= c as int < 0x800
    ensures DecodeFirst(EncodeChar(c) + rest) == (c, 2)
  {
    var cp := c as int;
    var b := EncodeChar(c) + rest;
    assert b[0] == 0xC0 + cp / 64 && b[1] == 0x80 + cp % 64;
  }

  lemma DecodeThreeBytes(c: char, rest: seq<Byte>)
    requires 0x800 <= c as int < 0x1_0000
    ensures DecodeFirst(EncodeChar(c) + rest) == (c, 3)
  {
    var cp := c as int;
    var x := cp / 64;
    var b := EncodeChar(c) + rest;
    assert b[0] == 0xE0 + x / 64 && b[1] == 0x80 + x % 64 && b[2] == 0x80 + cp % 64;
    assert ((b[0] as int - 0xE0) * 64 + (b[1] as int - 0x80)) * 64 + (b[2] as int - 0x80) == cp;
  }

  lemma DecodeFourBytes(c: char, rest: seq<Byte>)
    requires 0x1_0000 <= c as int
    ensures DecodeFirst(EncodeChar(c) + rest) == (c, 4)
  {
    var cp := c as int;
    var x := cp / 64;
    var y := x / 64;
    var b := EncodeChar(c) + rest;
    assert b[0] == 0xF0 + y / 64 && b[1] == 0x80 + y % 64 && b[2] == 0x80 + x % 64 && b[3] == 0x80 + cp % 64;
    assert (((b[0] as int - 0xF0) * 64 + (b[1] as int - 0x80)) * 64 + (b[2] as int - 0x80)) * 64 + (b[3] as int - 0x80) == cp;
  }

  /** Decoding the UTF-8 bytes of a string gives the string back. */
  lemma {:induction false} DecodeEncode(text: string)
    ensures Decode(Encode(text)) == text
  {
    if text != [] {
      var head := EncodeChar(text[0]);
      var rest := Encode(text[1..]);
      DecodeFirstEncodeChar(text[0], rest);
      assert (head + rest)[|head|..] == rest;
      DecodeEncode(text[1..]);
    }
  }
}

/**
 * The agent's `Base64` helper: the RFC 4648 section 4 alphabet with `=`
 * padding over the UTF-8 bytes of a string. The decoder accepts a final unit
 * of two or three characters without padding, and rejects everything else
 * that is not a sequence of four-character units of the alphabet.
 */
module Base64 {
  import opened Wrappers
  import Utf8

  type Byte = Utf8.Byte
  type Sextet = x: int | 0 <= x < 64

  /** The character of the RFC 4648 section 4 alphabet for a six-bit value. */
  function CharOf(x: Sextet): char {
    if x < 26 then ('A' as int + x) as char
    else if x < 52 then ('a' as int + (x - 26)) as char
    else if x < 62 then ('0' as int + (x - 52)) as char
    else if x == 62 then '+'
    else '/'
  }

  /** The six-bit value of an alphabet character; None for any other character. */
  function SextetOf(c: char): (r: Option<Sextet>)
    ensures r.Some? ==> CharOf(r.value) == c
  {
    if 'A' <= c <= 'Z' then Some(c as int - 'A' as int)
    else if 'a' <= c <= 'z' then Some(c as int - 'a' as int + 26)
    else if '0' <= c <= '9' then Some(c as int - '0' as int + 52)
    else if c == '+' then Some(62)
    else if c == '/' then Some(63)
    else None
  }

  predicate InAlphabet(c: char) {
    SextetOf(c).Some?
  }

  lemma SextetOfCharOf(x: Sextet)
    ensures SextetOf(CharOf(x)) == Some(x)
  {
  }

  /** Encoded text uses the alphabet and `=` only. */
  predicate EncodedChars(s: string) {
    forall i | 0 <= i < |s| :: InAlphabet(s[i]) || s[i] == '='
  }

  /** Encodes bytes in units of three bytes to four characters, padding the last unit. */
  function EncodeBytes(b: seq<Byte>): (s: string)
    ensures EncodedChars(s)
  {
    if |b| == 0 then ""
    else if |b| == 1 then
      SextetOfCharOf(b[0] / 4);
      SextetOfCharOf((b[0] % 4) * 16);
      [CharOf(b[0] / 4), CharOf((b[0] % 4) * 16), '=', '=']
    else if |b| == 2 then
      SextetOfCharOf(b[0] / 4);
      SextetOfCharOf((b[0] % 4) * 16 + b[1] / 16);
      SextetOfCharOf((b[1] % 16) * 4);
      [CharOf(b[0] / 4), CharOf((b[0] % 4) * 16 + b[1] / 16), CharOf((b[1] % 16) * 4), '=']
    else
      var u := EncodeUnit(b[0], b[1], b[2]);
      var rest := EncodeBytes(b[3..]);
      assert forall i | 0 <= i < |u + rest| :: (u + rest)[i] == if i < 4 then u[i] else rest[i - 4];
      u + rest
  }

  /** The bytes of a full unit of four alphabet characters. */
  function DecodeUnit(c0: char, c1: char, c2: char, c3: char): Option<seq<Byte>> {
    match (SextetOf(c0), SextetOf(c1), SextetOf(c2), SextetOf(c3))
    case (Some(s0), Some(s1), Some(s2), Some(s3)) =>
      Some([s0 as int * 4 + s1 / 16, (s1 % 16) as int * 16 + s2 / 4, (s2 % 4) as int * 64 + s3])
    case _ => None
  }

  /** The byte of a final unit holding two characters. */
  function DecodeUnit2(c0: char, c1: char): Option<seq<Byte>> {
    match (SextetOf(c0), SextetOf(c1))
    case (Some(s0), Some(s1)) => Some([s0 as int * 4 + s1 / 16])
    case _ => None
  }

  /** The two bytes of a final unit holding three characters. */
  function DecodeUnit3(c0: char, c1: char, c2: char): Option<seq<Byte>> {
    match (SextetOf(c0), SextetOf(c1), SextetOf(c2))
    case (Some(s0), Some(s1), Some(s2)) => Some([s0 as int * 4 + s1 / 16, (s1 % 16) as int * 16 + s2 / 4])
    case _ => None
  }

  /** The last unit: `xx==`, `xxx=`, `xxxx`, or two or three characters without padding. */
  function DecodeLast(s: string): Option<seq<Byte>>
    requires 1 <= |s| <= 4
  {
    if |s| == 1 then None
    else if |s| == 2 then DecodeUnit2(s[0], s[1])
    else if |s| == 3 then DecodeUnit3(s[0], s[1], s[2])
    else if s[2] == '=' && s[3] == '=' then DecodeUnit2(s[0], s[1])
    else if s[3] == '=' then DecodeUnit3(s[0], s[1], s[2])
    else DecodeUnit(s[0], s[1], s[2], s[3])
  }

  /** Decodes base64 text; None when the text is not well-formed (IllegalArgumentException). */
  function DecodeBytes(s: string): (r: Option<seq<Byte>>)
    ensures r.Some? ==> EncodedChars(s)
    decreases |s|
  {
    if |s| == 0 then Some([])
    else if |s| <= 4 then DecodeLast(s)
    else
      match (DecodeUnit(s[0], s[1], s[2], s[3]), DecodeBytes(s[4..]))
      case (Some(u), Some(rest)) => Some(u + rest)
      case _ => None
  }

  /** The six-bit groups of three bytes give the bytes back. */
  lemma {:induction false} RegroupThree(b0: Byte, b1: Byte, b2: Byte)
    ensures var s1 := (b0 % 4) * 16 + b1 / 16;
            var s2 := (b1 % 16) * 4 + b2 / 64;
            (b0 / 4) * 4 + s1 / 16 == b0 && (s1 % 16) * 16 + s2 / 4 == b1 && (s2 % 4) * 64 + b2 % 64 == b2
  {
    var s1 := (b0 % 4) * 16 + b1 / 16;
    var s2 := (b1 % 16) * 4 + b2 / 64;
    assert s1 / 16 == b0 % 4 && s1 % 16 == b1 / 16;
    assert s2 / 4 == b1 % 16 && s2 % 4 == b2 / 64;
  }

  /** The four characters of a full unit decode to its three bytes. */
  lemma DecodeFullUnit(b0: Byte, b1: Byte, b2: Byte)
    ensures var u := EncodeUnit(b0, b1, b2); DecodeUnit(u[0], u[1], u[2], u[3]) == Some([b0, b1, b2])
  {
    var s0: Sextet := b0 / 4;
    var s1: Sextet := (b0 % 4) * 16 + b1 / 16;
    var s2: Sextet := (b1 % 16) * 4 + b2 / 64;
    var s3: Sextet := b2 % 64;
    SextetOfCharOf(s0);
    SextetOfCharOf(s1);
    SextetOfCharOf(s2);
    SextetOfCharOf(s3);
    RegroupThree(b0, b1, b2);
    assert DecodeUnit(CharOf(s0), CharOf(s1), CharOf(s2), CharOf(s3))
        == Some([s0 as int * 4 + s1 / 16, (s1 % 16) as int * 16 + s2 / 4, (s2 % 4) as int * 64 + s3]);
  }

  /** Two bytes encode to a unit padded with one `=`, which decodes to them. */
  lemma DecodeEncodeTwo(b0: Byte, b1: Byte)
    ensures DecodeBytes(EncodeBytes([b0, b1])) == Some([b0, b1])
  {
    var s := [CharOf(b0 / 4), CharOf((b0 % 4) * 16 + b1 / 16), CharOf((b1 % 16) * 4), '='];
    assert EncodeBytes([b0, b1]) == s;
    SextetOfCharOf(b0 / 4);
    SextetOfCharOf((b0 % 4) * 16 + b1 / 16);
    SextetOfCharOf((b1 % 16) * 4);
    RegroupThree(b0, b1, 0);
    assert DecodeBytes(s) == DecodeUnit3(s[0], s[1], s[2]);
  }

  /** One byte encodes to a unit padded with `==`, which decodes to it. */
  lemma DecodeEncodeOne(b0: Byte)
    ensures DecodeBytes(EncodeBytes([b0])) == Some([b0])
  {
    var s := [CharOf(b0 / 4), CharOf((b0 % 4) * 16), '=', '='];
    assert EncodeBytes([b0]) == s;
    SextetOfCharOf(b0 / 4);
    SextetOfCharOf((b0 % 4) * 16);
    assert DecodeBytes(s) == DecodeUnit2(s[0], s[1]);
  }

  /** Every started group of three bytes takes four characters. */
  lemma {:induction false} EncodedLength(b: seq<Byte>)
    ensures |EncodeBytes(b)| == 4 * ((|b| + 2) / 3)
  {
    var n := |b|;
    if n > 3 {
      EncodedLength(b[3..]);
      assert |EncodeBytes(b)| == 4 + |EncodeBytes(b[3..])|;
      assert (n + 2) / 3 == (n - 1) / 3 + 1;
    }
  }

  /** The four characters that encode a full unit of three bytes. */
  function EncodeUnit(b0: Byte, b1: Byte, b2: Byte): (u: string)
    ensures |u| == 4
    ensures forall i | 0 <= i < 4 :: InAlphabet(u[i])
  {
    SextetOfCharOf(b0 / 4);
    SextetOfCharOf((b0 % 4) * 16 + b1 / 16);
    SextetOfCharOf((b1 % 16) * 4 + b2 / 64);
    SextetOfCharOf(b2 % 64);
    [CharOf(b0 / 4), CharOf((b0 % 4) * 16 + b1 / 16), CharOf((b1 % 16) * 4 + b2 / 64), CharOf(b2 % 64)]
  }

  /** A full unit followed by more text decodes to the unit's bytes followed by the rest's. */
  lemma DecodeBytesUnitThenRest(u: string, tail: string, x: seq<Byte>, y: seq<Byte>)
    requires |u| == 4 && |tail| > 0
    requires DecodeUnit(u[0], u[1], u[2], u[3]) == Some(x)
    requires DecodeBytes(tail) == Some(y)
    ensures DecodeBytes(u + tail) == Some(x + y)
  {
    var s := u + tail;
    assert s[0] == u[0] && s[1] == u[1] && s[2] == u[2] && s[3] == u[3];
    assert s[4..] == tail;
  }

  /** Three bytes encode to one unpadded unit, which decodes to them. */
  lemma DecodeEncodeThree(b0: Byte, b1: Byte, b2: Byte)
    ensures DecodeBytes(EncodeBytes([b0, b1, b2])) == Some([b0, b1, b2])
  {
    var u := EncodeUnit(b0, b1, b2);
    assert [b0, b1, b2][3..] == [];
    assert EncodeBytes([b0, b1, b2]) == u;
    DecodeFullUnit(b0, b1, b2);
    assert InAlphabet(u[2]) && InAlphabet(u[3]);
    assert DecodeBytes(u) == DecodeLast(u);
  }

  /** Decoding the encoding of any bytes gives the bytes back. */
  lemma {:induction false} DecodeEncodeBytes(b: seq<Byte>)
    ensures DecodeBytes(EncodeBytes(b)) == Some(b)
  {
    if |b| == 1 {
      DecodeEncodeOne(b[0]);
      assert b == [b[0]];
    } else if |b| == 2 {
      DecodeEncodeTwo(b[0], b[1]);
      assert b == [b[0], b[1]];
    } else if |b| == 3 {
      DecodeEncodeThree(b[0], b[1], b[2]);
      assert b == [b[0], b[1], b[2]];
    } else if |b| > 3 {
      DecodeEncodeBytes(b[3..]);
      DecodeEncodeUnitThenRest(b);
    }
  }

  /** A full first unit decodes in front of a tail that decodes back to the remaining bytes. */
  lemma DecodeEncodeUnitThenRest(b: seq<Byte>)
    requires |b| > 3 && DecodeBytes(EncodeBytes(b[3..])) == Some(b[3..])
    ensures DecodeBytes(EncodeBytes(b)) == Some(b)
  {
    var u := EncodeUnit(b[0], b[1], b[2]);
    var tail := EncodeBytes(b[3..]);
    assert EncodeBytes(b) == u + tail;
    DecodeFullUnit(b[0], b[1], b[2]);
    SplitThree(b);
    DecodeBytesUnitThenRest(u, tail, [b[0], b[1], b[2]], b[3..]);
  }

  lemma SplitThree(b: seq<Byte>)
    requires |b| >= 3
    ensures b == [b[0], b[1], b[2]] + b[3..]
  {
    assert b[..3] == [b[0], b[1], b[2]];
    assert b == b[..3] + b[3..];
  }

  /** `Base64.encode(text)`. Its output holds no `-`, `:` or `,`, and is empty only for empty text. */
  function Encode(text: string): (r: string)
    ensures r == [] <==> text == []
    ensures forall i | 0 <= i < |r| :: r[i] != '-' && r[i] != ':' && r[i] != ','
  {
    EncodeBytes(Utf8.Encode(text))
  }

  /** `Base64.decode2UTFString(text)`: None when the text is not valid base64. */
  function Decode(s: string): (r: Option<string>)
    ensures r.Some? ==> forall i | 0 <= i < |s| :: s[i] != '-' && s[i] != ':' && s[i] != ','
  {
    match DecodeBytes(s)
    case Some(b) => Some(Utf8.Decode(b))
    case None => None
  }

  /** The round trip the propagation headers rely on. */
  lemma DecodeEncode(text: string)
    ensures Decode(Encode(text)) == Some(text)
  {
    DecodeEncodeBytes(Utf8.Encode(text));
    Utf8.DecodeEncode(text);
  }
}
