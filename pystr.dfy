/**
 * The two Python string builtins the login code relies on:
 * `str.lower` (restricted here to the ASCII letters) and
 * `str.encode('utf-8')`.
 */
module PyStr {

  newtype byte = x: int | 0 <= x < 0x100

  // ---------------------------------------------------------------------------
  // str.lower
  // ---------------------------------------------------------------------------

  predicate IsUpperAscii(c: char) {
    'A' <= c <= 'Z'
  }

  /** Lower-cases one character; only 'A'..'Z' change. */
  function LowerChar(c: char): (r: char)
    ensures !IsUpperAscii(r)
    ensures IsUpperAscii(c) <==> r != c
  {
    if IsUpperAscii(c) then (c as int + 32) as char else c
  }

  /** `s.lower()`, character by character. */
  function Lower(s: string): (r: string)
    ensures |r| == |s|
    ensures forall i :: 0 <= i < |r| ==> !IsUpperAscii(r[i])
  {
    if s == [] then [] else [LowerChar(s[0])] + Lower(s[1..])
  }

  /** A string without upper-case letters is its own lower-case form. */
  lemma {:induction false} LowerFixesLowercase(s: string)
    requires forall i :: 0 <= i < |s| ==> !IsUpperAscii(s[i])
    ensures Lower(s) == s
  {
    if s != [] {
      assert !IsUpperAscii(s[0]);
      LowerFixesLowercase(s[1..]);
    }
  }

  /** Lower-casing twice is lower-casing once. */
  lemma LowerIdempotent(s: string)
    ensures Lower(Lower(s)) == Lower(s)
  {
    LowerFixesLowercase(Lower(s));
  }

  // ---------------------------------------------------------------------------
  // str.encode('utf-8')
  // ---------------------------------------------------------------------------

  /** The UTF-8 encoding of one Unicode scalar value. */
  function EncodeChar(c: char): (r: seq<byte>)
    ensures 1 <= |r| <= 4
  {
    var cp := c as int;
    if cp < 0x80 then
      [cp as byte]
    else if cp < 0x800 then
      [(0xC0 + cp / 0x40) as byte, (0x80 + cp % 0x40) as byte]
    else if cp < 0x1_0000 then
      [(0xE0 + cp / 0x1000) as byte, (0x80 + (cp / 0x40) % 0x40) as byte,
       (0x80 + cp % 0x40) as byte]
    else
      [(0xF0 + cp / 0x4_0000) as byte, (0x80 + (cp / 0x1000) % 0x40) as byte,
       (0x80 + (cp / 0x40) % 0x40) as byte, (0x80 + cp % 0x40) as byte]
  }

  /** `s.encode('utf-8')`: the concatenated encodings of its characters. */
  function Utf8(s: string): (r: seq<byte>)
    ensures |s| <= |r| <= 4 * |s|
  {
    if s == [] then [] else EncodeChar(s[0]) + Utf8(s[1..])
  }

  /** The number of bytes of a character's encoding, read off its lead byte. */
  function SequenceLength(lead: byte): nat {
    if lead < 0x80 then 1
    else if lead < 0xE0 then 2
    else if lead < 0xF0 then 3
    else 4
  }

  /** The code point a well-formed encoding of one character stands for. */
  function DecodeChar(b: seq<byte>): int
    requires 1 <= |b| <= 4
  {
    match |b|
    case 1 => b[0] as int
    case 2 => (b[0] as int - 0xC0) * 0x40 + (b[1] as int - 0x80)
    case 3 => (b[0] as int - 0xE0) * 0x1000 + (b[1] as int - 0x80) * 0x40
              + (b[2] as int - 0x80)
    case 4 => (b[0] as int - 0xF0) * 0x4_0000 + (b[1] as int - 0x80) * 0x1000
              + (b[2] as int - 0x80) * 0x40 + (b[3] as int - 0x80)
  }

  /** A character's encoding announces its own length and decodes back to it. */
  lemma EncodeCharDecodes(c: char)
    ensures |EncodeChar(c)| == SequenceLength(EncodeChar(c)[0])
    ensures DecodeChar(EncodeChar(c)) == c as int
  {
    var cp := c as int;
    if cp < 0x80 {
    } else if cp < 0x800 {
      TwoByteSplit(cp);
    } else if cp < 0x1_0000 {
      ThreeByteSplit(cp);
    } else {
      FourByteSplit(cp);
    }
  }

  lemma TwoByteSplit(cp: int)
    requires 0x80 <= cp < 0x800
    ensures 2 <= cp / 0x40 < 0x20
    ensures (cp / 0x40) * 0x40 + cp % 0x40 == cp
  {
  }

  lemma ThreeByteSplit(cp: int)
    requires 0x800 <= cp < 0x1_0000
    ensures cp / 0x1000 < 0x10
    ensures (cp / 0x1000) * 0x1000 + ((cp / 0x40) % 0x40) * 0x40 + cp % 0x40 == cp
  {
    var m := cp / 0x40;
    assert cp == m * 0x40 + cp % 0x40;
    assert m / 0x40 == cp / 0x1000;
    assert m == (m / 0x40) * 0x40 + m % 0x40;
  }

  lemma FourByteSplit(cp: int)
    requires 0x1_0000 <= cp < 0x11_0000
    ensures cp / 0x4_0000 <= 4
    ensures (cp / 0x4_0000) * 0x4_0000 + ((cp / 0x1000) % 0x40) * 0x1000 +
            ((cp / 0x40) % 0x40) * 0x40 + cp % 0x40 == cp
  {
    var m := cp / 0x40;
    var k := m / 0x40;
    assert cp == m * 0x40 + cp % 0x40;
    assert m == k * 0x40 + m % 0x40;
    assert k == cp / 0x1000;
    assert k / 0x40 == cp / 0x4_0000;
    assert k == (k / 0x40) * 0x40 + k % 0x40;
  }

  /**
   * Encoding is injective: two different strings never reach the password
   * check as the same bytes.
   */
  lemma {:induction false} Utf8Injective(s: string, t: string)
    requires Utf8(s) == Utf8(t)
    ensures s == t
  {
    if s != [] && t != [] {
      var es, et := EncodeChar(s[0]), EncodeChar(t[0]);
      assert Utf8(s) == es + Utf8(s[1..]);
      assert Utf8(t) == et + Utf8(t[1..]);
      EncodeCharDecodes(s[0]);
      EncodeCharDecodes(t[0]);
      assert es[0] == Utf8(s)[0] == et[0];
      assert |es| == |et|;
      assert es == Utf8(s)[..|es|] == et;
      assert s[0] as int == t[0] as int;
      assert Utf8(s[1..]) == Utf8(s)[|es|..] == Utf8(t[1..]);
      Utf8Injective(s[1..], t[1..]);
      assert s == [s[0]] + s[1..];
      assert t == [t[0]] + t[1..];
    }
  }

  /**
   * A `b'...'` literal, one byte per character; the ASCII characters such a
   * literal may contain are their own byte values.
   */
  function AsciiBytes(s: string): (r: seq<byte>)
    ensures |r| == |s|
    ensures forall i :: 0 <= i < |s| && s[i] < 0x80 as char ==> r[i] as int == s[i] as int
  {
    seq(|s|, i requires 0 <= i < |s| => (s[i] as int % 0x100) as byte)
  }
}
