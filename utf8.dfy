/**
 * UTF-8 as VRL's `Bytes` values carry text: a JSON string becomes the bytes of
 * its UTF-8 encoding, and bytes go back to a host string through Rust's
 * lossy decoder (`String::from_utf8_lossy`), which replaces each ill-formed
 * subsequence by U+FFFD.
 */
module Utf8 {

  type Byte = b: int | 0 <= b < 0x100

  const Replacement: char := 0xFFFD as char

  /** The one-to-four byte UTF-8 form of a Unicode scalar value. */
  function EncodeChar(c: char): (r: seq<Byte>)
    ensures 1 <= |r| <= 4
    ensures r[0] < 0x80 || 0xC2 <= r[0] <= 0xF4
  {
    var n := c as int;
    if n < 0x80 then [n]
    else if n < 0x800 then [0xC0 + n / 0x40, 0x80 + n % 0x40]
    else if n < 0x1_0000 then [0xE0 + n / 0x1000, 0x80 + n / 0x40 % 0x40, 0x80 + n % 0x40]
    else [0xF0 + n / 0x4_0000, 0x80 + n / 0x1000 % 0x40, 0x80 + n / 0x40 % 0x40, 0x80 + n % 0x40]
  }

  function Encode(s: string): (r: seq<Byte>)
    ensures |s| <= |r| <= 4 * |s|
  {
    if s == [] then [] else EncodeChar(s[0]) + Encode(s[1..])
  }

  predicate IsCont(b: Byte) {
    0x80 <= b < 0xC0
  }

  /** The byte at i, or 0 (never a continuation byte) past the end. */
  function ByteAt(b: seq<Byte>, i: nat): Byte {
    if i < |b| then b[i] else 0
  }

  /** The admissible second bytes after a three- or four-byte lead byte:
      these exclude overlong forms, surrogates and code points past U+10FFFF. */
  predicate SecondOk(lead: Byte, b: Byte) {
    if lead == 0xE0 then 0xA0 <= b <= 0xBF
    else if lead == 0xED then 0x80 <= b <= 0x9F
    else if 0xE1 <= lead <= 0xEF then IsCont(b)
    else if lead == 0xF0 then 0x90 <= b <= 0xBF
    else if lead == 0xF4 then 0x80 <= b <= 0x8F
    else 0xF1 <= lead <= 0xF3 && IsCont(b)
  }

  /**
   * The first character of b and the number of bytes it covers, as Rust's
   * lossy decoder splits the input: a well-formed sequence gives its scalar
   * value; an ill-formed one gives U+FFFD and covers the longest prefix that
   * could still have begun a well-formed sequence (at least one byte).
   */
  function DecodeFirst(b: seq<Byte>): (r: (char, nat))
    requires |b| > 0
    ensures 1 <= r.1 <= |b|
  {
    var lead: int, b1: int, b2: int, b3: int := b[0], ByteAt(b, 1), ByteAt(b, 2), ByteAt(b, 3);
    if lead < 0x80 then
      (lead as char, 1)
    else if 0xC2 <= lead <= 0xDF then
      if IsCont(b1) then (((lead - 0xC0) * 0x40 + (b1 - 0x80)) as char, 2)
      else (Replacement, 1)
    else if 0xE0 <= lead <= 0xEF then
      if !SecondOk(lead, b1) then (Replacement, 1)
      else if !IsCont(b2) then (Replacement, 2)
      else (((lead - 0xE0) * 0x1000 + (b1 - 0x80) * 0x40 + (b2 - 0x80)) as char, 3)
    else if 0xF0 <= lead <= 0xF4 then
      if !SecondOk(lead, b1) then (Replacement, 1)
      else if !IsCont(b2) then (Replacement, 2)
      else if !IsCont(b3) then (Replacement, 3)
      else (((lead - 0xF0) * 0x4_0000 + (b1 - 0x80) * 0x1000 + (b2 - 0x80) * 0x40 + (b3 - 0x80)) as char, 4)
    else
      (Replacement, 1)
  }

  /** `String::from_utf8_lossy`: decodes every byte sequence, never fails. */
  function DecodeLossy(b: seq<Byte>): (r: string)
    ensures |r| <= |b|
    decreases |b|
  {
    if b == [] then []
    else
      var (c, n) := DecodeFirst(b);
      [c] + DecodeLossy(b[n..])
  }

  /** The decoder reads back exactly the character an encoding starts with. */
  lemma DecodeFirstEncodeChar(c: char, rest: seq<Byte>)
    ensures DecodeFirst(EncodeChar(c) + rest) == (c, |EncodeChar(c)|)
  {
    var n := c as int;
    var b := EncodeChar(c) + rest;
    if n < 0x80 {
    } else if n < 0x800 {
      DecodeTwo(n, b);
    } else if n < 0x1_0000 {
      DecodeThree(n, b);
    } else {
      DecodeFour(n, b);
    }
  }

  lemma DecodeTwo(n: int, b: seq<Byte>)
    requires 0x80 <= n < 0x800 && |b| >= 2
    requires b[0] == 0xC0 + n / 0x40 && b[1] == 0x80 + n % 0x40
    ensures DecodeFirst(b) == (n as char, 2)
  {
  }

  lemma DecodeThree(n: int, b: seq<Byte>)
    requires 0x800 <= n < 0x1_0000 && (n < 0xD800 || 0xE000 <= n) && |b| >= 3
    requires b[0] == 0xE0 + n / 0x1000 && b[1] == 0x80 + n / 0x40 % 0x40 && b[2] == 0x80 + n % 0x40
    ensures DecodeFirst(b) == (n as char, 3)
  {
    assert n / 0x1000 * 0x1000 + n / 0x40 % 0x40 * 0x40 + n % 0x40 == n;
  }

  lemma DecodeFour(n: int, b: seq<Byte>)
    requires 0x1_0000 <= n < 0x11_0000 && |b| >= 4
    requires b[0] == 0xF0 + n / 0x4_0000 && b[1] == 0x80 + n / 0x1000 % 0x40
    requires b[2] == 0x80 + n / 0x40 % 0x40 && b[3] == 0x80 + n % 0x40
    ensures DecodeFirst(b) == (n as char, 4)
  {
    assert n / 0x4_0000 * 0x4_0000 + n / 0x1000 % 0x40 * 0x1000 + n / 0x40 % 0x40 * 0x40 + n % 0x40 == n;
  }

  /** Round trip: lossy decoding of a UTF-8 encoding gives back the string. */
  lemma {:induction false} DecodeEncode(s: string)
    ensures DecodeLossy(Encode(s)) == s
  {
    if s != [] {
      var e := EncodeChar(s[0]);
      DecodeFirstEncodeChar(s[0], Encode(s[1..]));
      assert (e + Encode(s[1..]))[|e|..] == Encode(s[1..]);
      DecodeEncode(s[1..]);
    }
  }

  /** Bytes that are the UTF-8 encoding of some string (well-formed UTF-8). */
  ghost predicate WellFormed(b: seq<Byte>) {
    exists s :: Encode(s) == b
  }

  /** Well-formed bytes survive decoding and re-encoding unchanged. */
  lemma EncodeDecode(b: seq<Byte>)
    requires WellFormed(b)
    ensures Encode(DecodeLossy(b)) == b
  {
    var s :| Encode(s) == b;
    DecodeEncode(s);
  }

  /** Encoding is injective: different strings give different bytes. */
  lemma EncodeInjective(s: string, t: string)
    requires Encode(s) == Encode(t)
    ensures s == t
  {
    DecodeEncode(s);
    DecodeEncode(t);
  }
}
