/**
 * UTF-8, as Python's `str.encode('utf-8')` and `bytes.decode('utf-8')` use it.
 * A Dafny `char` is a Unicode scalar value, so encoding never fails; decoding is
 * strict (overlong forms, surrogates and code points above U+10FFFF are errors,
 * which Python reports as UnicodeDecodeError and this model as None).
 */
module Utf8 {
  import opened Wrappers

  type Byte = b: int | 0 <= b < 256

  type Bytes = seq<Byte>

  predicate IsContinuation(b: Byte) {
    0x80 <= b < 0xC0
  }

  predicate IsAscii(s: string) {
    forall i :: 0 <= i < |s| ==> s[i] as int < 0x80
  }

  /** The one- to four-byte encoding of a single scalar value. */
  function EncodeChar(c: char): (r: Bytes)
    ensures 1 <= |r| <= 4
    ensures (|r| == 1) == (c as int < 0x80)
    ensures |r| == 1 ==> r[0] == c as int
  {
    var cp := c as int;
    if cp < 0x80 then [cp]
    else if cp < 0x800 then [0xC0 + cp / 64, 0x80 + cp % 64]
    else if cp < 0x10000 then [0xE0 + cp / 64 / 64, 0x80 + cp / 64 % 64, 0x80 + cp % 64]
    else [0xF0 + cp / 64 / 64 / 64, 0x80 + cp / 64 / 64 % 64, 0x80 + cp / 64 % 64, 0x80 + cp % 64]
  }

  /** `str.encode('utf-8')`: every character takes one to four bytes. */
  function Encode(s: string): (r: Bytes)
    ensures |s| <= |r| <= 4 * |s|
  {
    if s == [] then [] else EncodeChar(s[0]) + Encode(s[1..])
  }

  /**
   * Decodes the scalar value at the front of `b`, giving it and the number of
   * bytes it took, or None when the front of `b` is not well-formed UTF-8.
   */
  function DecodeFirst(b: Bytes): (r: Option<(char, nat)>)
    requires b != []
    ensures r.Some? ==> 1 <= r.value.1 <= 4 && r.value.1 <= |b|
  {
    var b0 := b[0];
    if b0 < 0x80 then
      Some((b0 as char, 1))
    else if 0xC2 <= b0 < 0xE0 then
      if |b| >= 2 && IsContinuation(b[1]) then
        Some((((b0 as int - 0xC0) * 64 + (b[1] as int - 0x80)) as char, 2))
      else None
    else if 0xE0 <= b0 < 0xF0 then
      if |b| >= 3 && IsContinuation(b[1]) && IsContinuation(b[2]) then
        var cp := (b0 as int - 0xE0) * 4096 + (b[1] as int - 0x80) * 64 + (b[2] as int - 0x80);
        if 0x800 <= cp && !(0xD800 <= cp < 0xE000) then Some((cp as char, 3)) else None
      else None
    else if 0xF0 <= b0 < 0xF5 then
      if |b| >= 4 && IsContinuation(b[1]) && IsContinuation(b[2]) && IsContinuation(b[3]) then
        var cp := (b0 as int - 0xF0) * 262144 + (b[1] as int - 0x80) * 4096 + (b[2] as int - 0x80) * 64 + (b[3] as int - 0x80);
        if 0x10000 <= cp < 0x110000 then Some((cp as char, 4)) else None
      else None
    else
      None
  }

  /**
   * `bytes.decode('utf-8')`, strict: None for any ill-formed sequence. Each
   * character takes at least one byte.
   */
  function Decode(b: Bytes): (r: Option<string>)
    ensures b == [] ==> r == Some([])
    ensures r.Some? ==> |r.value| <= |b|
    decreases |b|
  {
    if b == [] then Some([])
    else
      match DecodeFirst(b)
      case None => None
      case Some((c, n)) =>
        match Decode(b[n..])
        case None => None
        case Some(rest) => Some([c] + rest)
  }

  /** ASCII text encodes to one byte per character, each the character's code. */
  lemma {:induction false} EncodeAscii(s: string)
    requires IsAscii(s)
    ensures |Encode(s)| == |s|
    ensures forall i :: 0 <= i < |s| ==> Encode(s)[i] == s[i] as int
  {
    if s != [] {
      assert IsAscii(s[1..]) by {
        forall i | 0 <= i < |s[1..]| ensures s[1..][i] as int < 0x80 {
          assert s[1..][i] == s[i + 1];
        }
      }
      EncodeAscii(s[1..]);
      assert s[0] as int < 0x80;
    }
  }

  /** Division by 64 is the unique split into a quotient and a six-bit remainder. */
  lemma SixBits(x: int, q: int, r: int)
    requires 0 <= x && 0 <= r < 64 && x == 64 * q + r
    ensures q == x / 64 && r == x % 64
  {
  }

  lemma DecodeFirstTwo(c: char, rest: Bytes)
    requires 0x80 <= c as int < 0x800
    ensures DecodeFirst(EncodeChar(c) + rest) == Some((c, 2))
  {
    var cp := c as int;
    var b := EncodeChar(c) + rest;
    assert b[0] == 0xC0 + cp / 64 && b[1] == 0x80 + cp % 64;
    assert (b[0] as int - 0xC0) * 64 + (b[1] as int - 0x80) == cp;
  }

  lemma DecodeFirstThree(c: char, rest: Bytes)
    requires 0x800 <= c as int < 0x10000
    ensures DecodeFirst(EncodeChar(c) + rest) == Some((c, 3))
  {
    var cp := c as int;
    var c1, d := cp / 64, cp % 64;
    var c2, e := c1 / 64, c1 % 64;
    var b := EncodeChar(c) + rest;
    assert b[0] == 0xE0 + c2 && b[1] == 0x80 + e && b[2] == 0x80 + d;
    assert cp == 4096 * c2 + 64 * e + d;
  }

  lemma DecodeFirstFour(c: char, rest: Bytes)
    requires 0x10000 <= c as int
    ensures DecodeFirst(EncodeChar(c) + rest) == Some((c, 4))
  {
    var cp := c as int;
    var c1, d := cp / 64, cp % 64;
    var c2, e := c1 / 64, c1 % 64;
    var a, f := c2 / 64, c2 % 64;
    var b := EncodeChar(c) + rest;
    assert b[0] == 0xF0 + a && b[1] == 0x80 + f && b[2] == 0x80 + e && b[3] == 0x80 + d;
    assert cp == 262144 * a + 4096 * f + 64 * e + d;
  }

  /** The decoder reads back the scalar value at the front of its encoding. */
  lemma DecodeFirstEncodeChar(c: char, rest: Bytes)
    ensures DecodeFirst(EncodeChar(c) + rest) == Some((c, |EncodeChar(c)|))
  {
    var cp := c as int;
    if cp < 0x80 {
      assert (EncodeChar(c) + rest)[0] == cp;
    } else if cp < 0x800 {
      DecodeFirstTwo(c, rest);
    } else if cp < 0x10000 {
      DecodeFirstThree(c, rest);
    } else {
      DecodeFirstFour(c, rest);
    }
  }

  /** Decoding undoes encoding. */
  lemma {:induction false} DecodeEncode(s: string)
    ensures Decode(Encode(s)) == Some(s)
  {
    if s != [] {
      var e := EncodeChar(s[0]);
      DecodeFirstEncodeChar(s[0], Encode(s[1..]));
      assert (e + Encode(s[1..]))[|e|..] == Encode(s[1..]);
      DecodeEncode(s[1..]);
      assert [s[0]] + s[1..] == s;
    }
  }

  lemma EncodeCharTwo(b: Bytes)
    requires b != [] && DecodeFirst(b).Some? && DecodeFirst(b).value.1 == 2
    ensures EncodeChar(DecodeFirst(b).value.0) == b[..2]
  {
    var cp := DecodeFirst(b).value.0 as int;
    SixBits(cp, b[0] as int - 0xC0, b[1] as int - 0x80);
  }

  lemma EncodeCharThree(b: Bytes)
    requires b != [] && DecodeFirst(b).Some? && DecodeFirst(b).value.1 == 3
    ensures EncodeChar(DecodeFirst(b).value.0) == b[..3]
  {
    var cp := DecodeFirst(b).value.0 as int;
    var c2, e, d := b[0] as int - 0xE0, b[1] as int - 0x80, b[2] as int - 0x80;
    SixBits(cp, 64 * c2 + e, d);
    SixBits(64 * c2 + e, c2, e);
  }

  lemma EncodeCharFour(b: Bytes)
    requires b != [] && DecodeFirst(b).Some? && DecodeFirst(b).value.1 == 4
    ensures EncodeChar(DecodeFirst(b).value.0) == b[..4]
  {
    var cp := DecodeFirst(b).value.0 as int;
    var a, f, e, d := b[0] as int - 0xF0, b[1] as int - 0x80, b[2] as int - 0x80, b[3] as int - 0x80;
    SixBits(cp, 4096 * a + 64 * f + e, d);
    SixBits(4096 * a + 64 * f + e, 64 * a + f, e);
    SixBits(64 * a + f, a, f);
  }

  /** What the decoder reads at the front encodes back to the bytes it took. */
  lemma EncodeCharDecodeFirst(b: Bytes)
    requires b != [] && DecodeFirst(b).Some?
    ensures EncodeChar(DecodeFirst(b).value.0) == b[..DecodeFirst(b).value.1]
  {
    var n := DecodeFirst(b).value.1;
    if n == 2 {
      EncodeCharTwo(b);
    } else if n == 3 {
      EncodeCharThree(b);
    } else if n == 4 {
      EncodeCharFour(b);
    }
  }

  /** One step of decoding: the first scalar value, then the rest. */
  lemma DecodeStep(b: Bytes)
    requires b != [] && Decode(b).Some?
    ensures DecodeFirst(b).Some?
    ensures Decode(b[DecodeFirst(b).value.1..]).Some?
    ensures Decode(b).value == [DecodeFirst(b).value.0] + Decode(b[DecodeFirst(b).value.1..]).value
  {
  }

  /** Gluing the encoding of one scalar value to the encoding of the rest. */
  lemma EncodeGlue(b: Bytes, c: char, n: nat, tail: string)
    requires n <= |b| && EncodeChar(c) == b[..n] && Encode(tail) == b[n..]
    ensures Encode([c] + tail) == b
  {
    assert ([c] + tail)[1..] == tail;
    assert b[..n] + b[n..] == b;
  }

  /** A byte string that decodes is exactly the encoding of what it decodes to. */
  lemma {:induction false} EncodeDecode(b: Bytes)
    requires Decode(b).Some?
    ensures Encode(Decode(b).value) == b
    decreases |b|
  {
    if b != [] {
      DecodeStep(b);
      var (c, n) := DecodeFirst(b).value;
      EncodeCharDecodeFirst(b);
      EncodeDecode(b[n..]);
      EncodeGlue(b, c, n, Decode(b[n..]).value);
    }
  }
}
