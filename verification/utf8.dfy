/** UTF-8 decoding as Rust's `std::str::from_utf8` performs it.

A byte sequence is accepted iff it is a concatenation of the well-formed
byte sequences of Table 3-7 of the Unicode Standard (section 3.9): no
overlong forms, no surrogates, nothing above U+10FFFF, no truncated
sequence at the end.
 */
module Utf8 {
  import opened Wrappers
  import opened Ints

  /** Rust's `u8`. */
  type Byte = U8

  predicate IsContinuation(b: Byte)
  {
    0x80 <= b <= 0xBF
  }

  /** The scalar value at the head of `bs` and the number of bytes it
      takes, or None when the head is not one of the well-formed sequences. */
  function DecodeScalar(bs: seq<Byte>): (r: Option<(char, nat)>)
    requires |bs| > 0
    ensures r.Some? ==> 1 <= r.value.1 <= 4 && r.value.1 <= |bs|
  {
    var b0: int := bs[0];
    if b0 <= 0x7F then
      Some((b0 as char, 1))
    else if 0xC2 <= b0 <= 0xDF then
      if |bs| >= 2 && IsContinuation(bs[1])
      then Some((Scalar2(b0, bs[1]) as char, 2))
      else None
    else if 0xE0 <= b0 <= 0xEF then
      var lo := if b0 == 0xE0 then 0xA0 else 0x80;
      var hi := if b0 == 0xED then 0x9F else 0xBF;
      if |bs| >= 3 && lo <= bs[1] <= hi && IsContinuation(bs[2])
      then Some((Scalar3(b0, bs[1], bs[2]) as char, 3))
      else None
    else if 0xF0 <= b0 <= 0xF4 then
      var lo := if b0 == 0xF0 then 0x90 else 0x80;
      var hi := if b0 == 0xF4 then 0x8F else 0xBF;
      if |bs| >= 4 && lo <= bs[1] <= hi && IsContinuation(bs[2]) && IsContinuation(bs[3])
      then Some((Scalar4(b0, bs[1], bs[2], bs[3]) as char, 4))
      else None
    else
      None
  }

  /** The code point of a well-formed two-byte sequence. */
  function Scalar2(b0: int, b1: int): (cp: int)
    requires 0xC2 <= b0 <= 0xDF && 0x80 <= b1 <= 0xBF
    ensures 0x80 <= cp < 0x800
  {
    (b0 - 0xC0) * 64 + (b1 - 0x80)
  }

  /** The code point of a well-formed three-byte sequence; never a surrogate. */
  function Scalar3(b0: int, b1: int, b2: int): (cp: int)
    requires 0xE0 <= b0 <= 0xEF && 0x80 <= b1 <= 0xBF && 0x80 <= b2 <= 0xBF
    requires b0 == 0xE0 ==> b1 >= 0xA0
    requires b0 == 0xED ==> b1 <= 0x9F
    ensures 0x800 <= cp < 0xD800 || 0xE000 <= cp < 0x10000
  {
    (b0 - 0xE0) * 4096 + (b1 - 0x80) * 64 + (b2 - 0x80)
  }

  /** The code point of a well-formed four-byte sequence. */
  function Scalar4(b0: int, b1: int, b2: int, b3: int): (cp: int)
    requires 0xF0 <= b0 <= 0xF4 && 0x80 <= b1 <= 0xBF && 0x80 <= b2 <= 0xBF && 0x80 <= b3 <= 0xBF
    requires b0 == 0xF0 ==> b1 >= 0x90
    requires b0 == 0xF4 ==> b1 <= 0x8F
    ensures 0x10000 <= cp < 0x110000
  {
    (b0 - 0xF0) * 262144 + (b1 - 0x80) * 4096 + (b2 - 0x80) * 64 + (b3 - 0x80)
  }

  /** `str::from_utf8`: the decoded text, or None on the first ill-formed
      sequence. */
  function Decode(bs: seq<Byte>): (r: Option<string>)
    decreases |bs|
  {
    if bs == [] then Some([])
    else
      var head :- DecodeScalar(bs);
      var tail :- Decode(bs[head.1..]);
      Some([head.0] + tail)
  }

  /** The UTF-8 encoding of one scalar value. */
  function EncodeScalar(c: char): (r: seq<Byte>)
    ensures 1 <= |r| <= 4
  {
    var cp := c as int;
    if cp < 0x80 then [cp]
    else if cp < 0x800 then [0xC0 + cp / 64, 0x80 + cp % 64]
    else if cp < 0x10000 then [0xE0 + cp / 4096, 0x80 + (cp / 64) % 64, 0x80 + cp % 64]
    else [0xF0 + cp / 262144, 0x80 + (cp / 4096) % 64, 0x80 + (cp / 64) % 64, 0x80 + cp % 64]
  }

  function Encode(s: string): (r: seq<Byte>)
    ensures |r| >= |s|
  {
    if s == [] then [] else EncodeScalar(s[0]) + Encode(s[1..])
  }

  lemma EncodeTwo(cp: int)
    requires 0x80 <= cp < 0x800
    ensures 0xC2 <= 0xC0 + cp / 64 <= 0xDF && 0x80 <= 0x80 + cp % 64 <= 0xBF
    ensures Scalar2(0xC0 + cp / 64, 0x80 + cp % 64) == cp
  {
  }

  lemma EncodeThree(cp: int)
    requires 0x800 <= cp < 0xD800 || 0xE000 <= cp < 0x10000
    ensures var b0, b1, b2 := 0xE0 + cp / 4096, 0x80 + (cp / 64) % 64, 0x80 + cp % 64;
            && 0xE0 <= b0 <= 0xEF && 0x80 <= b1 <= 0xBF && 0x80 <= b2 <= 0xBF
            && (b0 == 0xE0 ==> b1 >= 0xA0) && (b0 == 0xED ==> b1 <= 0x9F)
            && Scalar3(b0, b1, b2) == cp
  {
    var hi, mid, lo := cp / 4096, (cp / 64) % 64, cp % 64;
    assert cp / 64 == hi * 64 + mid;
    assert cp == hi * 4096 + mid * 64 + lo;
  }

  lemma EncodeFour(cp: int)
    requires 0x10000 <= cp < 0x110000
    ensures var b0, b1, b2, b3 := 0xF0 + cp / 262144, 0x80 + (cp / 4096) % 64,
                                  0x80 + (cp / 64) % 64, 0x80 + cp % 64;
            && 0xF0 <= b0 <= 0xF4 && 0x80 <= b1 <= 0xBF && 0x80 <= b2 <= 0xBF && 0x80 <= b3 <= 0xBF
            && (b0 == 0xF0 ==> b1 >= 0x90) && (b0 == 0xF4 ==> b1 <= 0x8F)
            && Scalar4(b0, b1, b2, b3) == cp
  {
    var q1, q2, q3 := cp / 64, cp / 4096, cp / 262144;
    assert q1 / 64 == q2 && q2 / 64 == q3;
    assert q1 == q2 * 64 + q1 % 64;
    assert q2 == q3 * 64 + q2 % 64;
    assert cp == q1 * 64 + cp % 64;
  }

  /** The decoder reads back exactly the scalar the encoder wrote, whatever
      follows it. */
  lemma DecodeEncodeScalar(c: char, rest: seq<Byte>)
    ensures DecodeScalar(EncodeScalar(c) + rest) == Some((c, |EncodeScalar(c)|))
  {
    var cp := c as int;
    var bs := EncodeScalar(c) + rest;
    if cp < 0x80 {
    } else if cp < 0x800 {
      EncodeTwo(cp);
    } else if cp < 0x10000 {
      EncodeThree(cp);
    } else {
      EncodeFour(cp);
    }
  }

  /** Round trip: every string's encoding is accepted and decodes to it. */
  lemma {:induction false} DecodeEncode(s: string)
    ensures Decode(Encode(s)) == Some(s)
  {
    if s != [] {
      var e := EncodeScalar(s[0]);
      DecodeEncodeScalar(s[0], Encode(s[1..]));
      assert Encode(s)[|e|..] == Encode(s[1..]);
      DecodeEncode(s[1..]);
      assert [s[0]] + s[1..] == s;
    }
  }

  lemma DecodeTwo(b0: int, b1: int)
    requires 0xC2 <= b0 <= 0xDF && 0x80 <= b1 <= 0xBF
    ensures var cp := Scalar2(b0, b1); 0xC0 + cp / 64 == b0 && 0x80 + cp % 64 == b1
  {
    DivModOf(b0 - 0xC0, b1 - 0x80, 64);
  }

  lemma DecodeThree(b0: int, b1: int, b2: int)
    requires 0xE0 <= b0 <= 0xEF && 0x80 <= b1 <= 0xBF && 0x80 <= b2 <= 0xBF
    requires b0 == 0xE0 ==> b1 >= 0xA0
    requires b0 == 0xED ==> b1 <= 0x9F
    ensures var cp := Scalar3(b0, b1, b2);
            0xE0 + cp / 4096 == b0 && 0x80 + (cp / 64) % 64 == b1 && 0x80 + cp % 64 == b2
  {
    var cp := Scalar3(b0, b1, b2);
    var q := (b0 - 0xE0) * 64 + (b1 - 0x80);
    assert cp == q * 64 + (b2 - 0x80);
    DivModOf(q, b2 - 0x80, 64);
    DivModOf(b0 - 0xE0, b1 - 0x80, 64);
    DivModOf(b0 - 0xE0, (b1 - 0x80) * 64 + (b2 - 0x80), 4096);
  }

  lemma DecodeFour(b0: int, b1: int, b2: int, b3: int)
    requires 0xF0 <= b0 <= 0xF4 && 0x80 <= b1 <= 0xBF && 0x80 <= b2 <= 0xBF && 0x80 <= b3 <= 0xBF
    requires b0 == 0xF0 ==> b1 >= 0x90
    requires b0 == 0xF4 ==> b1 <= 0x8F
    ensures var cp := Scalar4(b0, b1, b2, b3);
            && 0xF0 + cp / 262144 == b0 && 0x80 + (cp / 4096) % 64 == b1
            && 0x80 + (cp / 64) % 64 == b2 && 0x80 + cp % 64 == b3
  {
    var cp := Scalar4(b0, b1, b2, b3);
    var q2 := (b0 - 0xF0) * 64 + (b1 - 0x80);
    var q1 := q2 * 64 + (b2 - 0x80);
    assert cp == q1 * 64 + (b3 - 0x80);
    DivModOf(q1, b3 - 0x80, 64);
    DivModOf(q2, b2 - 0x80, 64);
    DivModOf(b0 - 0xF0, b1 - 0x80, 64);
    assert cp == q2 * 4096 + ((b2 - 0x80) * 64 + (b3 - 0x80));
    DivModOf(q2, (b2 - 0x80) * 64 + (b3 - 0x80), 4096);
    assert cp == (b0 - 0xF0) * 262144 + ((b1 - 0x80) * 4096 + (b2 - 0x80) * 64 + (b3 - 0x80));
    DivModOf(b0 - 0xF0, (b1 - 0x80) * 4096 + (b2 - 0x80) * 64 + (b3 - 0x80), 262144);
  }

  /** The decoder consumed exactly the bytes of the scalar's encoding. */
  lemma EncodeDecodeScalar(bs: seq<Byte>)
    requires |bs| > 0 && DecodeScalar(bs).Some?
    ensures EncodeScalar(DecodeScalar(bs).value.0) == bs[..DecodeScalar(bs).value.1]
  {
    var b0: int := bs[0];
    if b0 <= 0x7F {
    } else if b0 <= 0xDF {
      DecodeTwo(b0, bs[1]);
    } else if b0 <= 0xEF {
      DecodeThree(b0, bs[1], bs[2]);
    } else {
      DecodeFour(b0, bs[1], bs[2], bs[3]);
    }
  }

  /** Round trip the other way: accepted bytes are the encoding of their
      decoding, so no two byte sequences decode to the same text. */
  lemma {:induction false} EncodeDecode(bs: seq<Byte>)
    requires Decode(bs).Some?
    ensures Encode(Decode(bs).value) == bs
    decreases |bs|
  {
    if bs != [] {
      var c, n, tail := DecodeStep(bs);
      EncodeDecode(bs[n..]);
      var s := [c] + tail;
      assert s[0] == c && s[1..] == tail;
      assert Encode(s) == EncodeScalar(c) + Encode(tail);
      assert bs[..n] + bs[n..] == bs;
    }
  }

  /** One step of decoding: the first scalar, the bytes it takes, the rest,
      and the first scalar re-encodes to exactly those bytes. */
  lemma DecodeStep(bs: seq<Byte>) returns (c: char, n: nat, tail: string)
    requires bs != [] && Decode(bs).Some?
    ensures 1 <= n <= |bs| && Decode(bs[n..]) == Some(tail)
    ensures Decode(bs) == Some([c] + tail)
    ensures EncodeScalar(c) == bs[..n]
  {
    var head := DecodeScalar(bs).value;
    EncodeDecodeScalar(bs);
    c, n := head.0, head.1;
    tail := Decode(bs[n..]).value;
  }

  /** ASCII bytes are always accepted and decode one to one. */
  lemma {:induction false} AsciiIsValid(bs: seq<Byte>)
    requires forall i :: 0 <= i < |bs| ==> bs[i] < 0x80
    ensures Decode(bs).Some? && |Decode(bs).value| == |bs|
    decreases |bs|
  {
    if bs != [] {
      AsciiIsValid(bs[1..]);
    }
  }

  /** A lone continuation byte, an overlong NUL and an encoded surrogate
      are all rejected. */
  lemma RejectsIllFormed()
    ensures Decode([0x80]).None?
    ensures Decode([0xC0, 0x80]).None?
    ensures Decode([0xED, 0xA0, 0x80]).None?
  {
  }
}
