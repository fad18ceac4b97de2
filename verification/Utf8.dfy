/** UTF-8 as package unicode/utf8 encodes and decodes it (go/src/unicode/utf8/utf8.go). */
module Utf8 {
  import opened Prelude

  const RUNE_ERROR := 0xFFFD
  const RUNE_SELF := 0x80
  const MAX_RUNE := 0x10FFFF

  /** ValidRune */
  predicate ValidRune(r: int) {
    0 <= r < 0xD800 || 0xDFFF < r <= MAX_RUNE
  }

  /** A continuation byte carrying the low six bits of r. */
  function Tail(r: int): (b: byte)
    ensures IsTail(b) && (r >= 0 ==> TailBits(b) == r % 64)
  {
    (0x80 + r % 64) as byte
  }

  predicate IsTail(b: byte) {
    0x80 <= b <= 0xBF
  }

  function TailBits(b: byte): int {
    b as int % 64
  }

  /** EncodeRune: anything that is not a rune becomes U+FFFD. */
  function EncodeRune(r: int): (s: seq<byte>)
    ensures 1 <= |s| <= 4
    ensures forall i :: 1 <= i < |s| ==> IsTail(s[i])
    ensures !IsTail(s[0]) && (|s| == 1 <==> 0 <= r < RUNE_SELF)
  {
    if 0 <= r < 0x80 then [r as byte]
    else if 0 <= r < 0x800 then [(0xC0 + r / 64) as byte, Tail(r)]
    else if 0 <= r < 0xD800 || 0xDFFF < r <= 0xFFFF then [(0xE0 + r / 4096) as byte, Tail(r / 64), Tail(r)]
    else if 0xFFFF < r <= MAX_RUNE then [(0xF0 + r / 262144) as byte, Tail(r / 4096), Tail(r / 64), Tail(r)]
    else [0xEF, 0xBF, 0xBD]
  }

  /** The table first: how long a sequence that starts with b is, and which second bytes it may have. */
  datatype First = Ascii | Invalid | Lead(size: nat, lo: byte, hi: byte)

  function FirstOf(b: byte): (f: First)
    ensures f.Lead? ==> 2 <= f.size <= 4 && 0x80 <= f.lo && f.hi <= 0xBF && !IsTail(b)
  {
    if b < 0x80 then Ascii
    else if b < 0xC2 then Invalid
    else if b < 0xE0 then Lead(2, 0x80, 0xBF)
    else if b == 0xE0 then Lead(3, 0xA0, 0xBF)
    else if b == 0xED then Lead(3, 0x80, 0x9F)
    else if b < 0xF0 then Lead(3, 0x80, 0xBF)
    else if b == 0xF0 then Lead(4, 0x90, 0xBF)
    else if b < 0xF4 then Lead(4, 0x80, 0xBF)
    else if b == 0xF4 then Lead(4, 0x80, 0x8F)
    else Invalid
  }

  /** DecodeRune: the first rune of p and its width; (U+FFFD, 1) if p does not start with one. */
  function DecodeRune(p: seq<byte>): (d: (int, nat))
    ensures d.1 <= Min(|p|, 4) && (p != [] ==> d.1 >= 1)
    ensures forall i :: 1 <= i < d.1 ==> IsTail(p[i])
  {
    if p == [] then (RUNE_ERROR, 0)
    else
      var p0 := p[0] as int;
      match FirstOf(p[0])
      case Ascii => (p0, 1)
      case Invalid => (RUNE_ERROR, 1)
      case Lead(size, lo, hi) =>
        if |p| < size || !(lo <= p[1] <= hi) then (RUNE_ERROR, 1)
        else if size == 2 then (p0 % 32 * 64 + TailBits(p[1]), 2)
        else if !IsTail(p[2]) then (RUNE_ERROR, 1)
        else if size == 3 then (p0 % 16 * 4096 + TailBits(p[1]) * 64 + TailBits(p[2]), 3)
        else if !IsTail(p[3]) then (RUNE_ERROR, 1)
        else (p0 % 8 * 262144 + TailBits(p[1]) * 4096 + TailBits(p[2]) * 64 + TailBits(p[3]), 4)
  }

  /** The digits of a rune in base 64. */
  lemma Digits(r: int)
    requires r >= 0
    ensures r == r / 64 * 64 + r % 64
    ensures r / 4096 == r / 64 / 64 && r / 262144 == r / 4096 / 64
  {
  }

  lemma Decode2(r: int, rest: seq<byte>)
    requires 0x80 <= r < 0x800
    ensures DecodeRune(EncodeRune(r) + rest) == (r, 2)
  {
    var p := EncodeRune(r) + rest;
    Digits(r);
    assert p[0] == (0xC0 + r / 64) as byte && p[1] == Tail(r);
    assert 2 <= r / 64 < 32;
  }

  lemma Decode3(r: int, rest: seq<byte>)
    requires ValidRune(r) && 0x800 <= r <= 0xFFFF
    ensures DecodeRune(EncodeRune(r) + rest) == (r, 3)
  {
    var p := EncodeRune(r) + rest;
    Digits(r);
    Digits(r / 64);
    var q := r / 4096;
    assert p[0] == (0xE0 + q) as byte && p[1] == Tail(r / 64) && p[2] == Tail(r);
    assert 0 <= q < 16 && r == q * 4096 + r / 64 % 64 * 64 + r % 64;
  }

  lemma Decode4(r: int, rest: seq<byte>)
    requires 0xFFFF < r <= MAX_RUNE
    ensures DecodeRune(EncodeRune(r) + rest) == (r, 4)
  {
    var p := EncodeRune(r) + rest;
    Digits(r);
    Digits(r / 64);
    Digits(r / 4096);
    var q := r / 262144;
    assert p[0] == (0xF0 + q) as byte && p[1] == Tail(r / 4096) && p[2] == Tail(r / 64) && p[3] == Tail(r);
    assert 0 <= q < 5 && r == q * 262144 + r / 4096 % 64 * 4096 + r / 64 % 64 * 64 + r % 64;
  }

  /** Decoding gives back what was encoded, whatever follows. */
  lemma DecodeEncode(r: int, rest: seq<byte>)
    requires ValidRune(r)
    ensures DecodeRune(EncodeRune(r) + rest) == (r, |EncodeRune(r)|)
  {
    hide DecodeRune;
    if r < 0x80 { Decode1(r, rest); }
    else if r < 0x800 { Decode2(r, rest); }
    else if r <= 0xFFFF { Decode3(r, rest); }
    else { Decode4(r, rest); }
  }

  lemma Decode1(r: int, rest: seq<byte>)
    requires 0 <= r < 0x80
    ensures DecodeRune(EncodeRune(r) + rest) == (r, 1)
  {
    assert (EncodeRune(r) + rest)[0] == r as byte;
  }

  /** Base-64 digits put together and taken apart again. */
  lemma Pack(hi: int, d: int)
    requires hi >= 0 && 0 <= d < 64
    ensures (hi * 64 + d) / 64 == hi && (hi * 64 + d) % 64 == d
  {
  }

  lemma TailAgain(r: int, b: byte)
    requires IsTail(b) && r >= 0 && r % 64 == TailBits(b)
    ensures Tail(r) == b
  {
  }

  lemma Encode2(p: seq<byte>)
    requires |p| >= 2 && FirstOf(p[0]).Lead? && FirstOf(p[0]).size == 2 && DecodeRune(p).1 == 2
    ensures ValidRune(DecodeRune(p).0) && EncodeRune(DecodeRune(p).0) == p[..2]
  {
    var r, q := DecodeRune(p).0, p[0] as int % 32;
    Pack(q, TailBits(p[1]));
    TailAgain(r, p[1]);
    assert p[..2] == [p[0], p[1]];
  }

  lemma Encode3(p: seq<byte>)
    requires |p| >= 3 && FirstOf(p[0]).Lead? && FirstOf(p[0]).size == 3 && DecodeRune(p).1 == 3
    ensures ValidRune(DecodeRune(p).0) && EncodeRune(DecodeRune(p).0) == p[..3]
  {
    var r, q := DecodeRune(p).0, p[0] as int % 16;
    var m := q * 64 + TailBits(p[1]);
    Pack(q, TailBits(p[1]));
    Pack(m, TailBits(p[2]));
    assert r == m * 64 + TailBits(p[2]);
    Digits(r);
    TailAgain(m, p[1]);
    TailAgain(r, p[2]);
    assert p[..3] == [p[0], p[1], p[2]];
  }

  lemma Encode4(p: seq<byte>)
    requires |p| >= 4 && FirstOf(p[0]).Lead? && FirstOf(p[0]).size == 4 && DecodeRune(p).1 == 4
    ensures ValidRune(DecodeRune(p).0) && EncodeRune(DecodeRune(p).0) == p[..4]
  {
    var r, q := DecodeRune(p).0, p[0] as int % 8;
    var m := q * 64 + TailBits(p[1]);
    var l := m * 64 + TailBits(p[2]);
    Pack(q, TailBits(p[1]));
    Pack(m, TailBits(p[2]));
    Pack(l, TailBits(p[3]));
    assert r == l * 64 + TailBits(p[3]);
    Digits(r);
    TailAgain(m, p[1]);
    TailAgain(l, p[2]);
    TailAgain(r, p[3]);
    assert p[..4] == [p[0], p[1], p[2], p[3]];
  }

  /** A sequence decodes to a rune only if it starts with that rune's encoding; everything else is U+FFFD of width 1. */
  lemma EncodeDecode(p: seq<byte>)
    requires p != []
    ensures var (r, n) := DecodeRune(p);
            ValidRune(r) && ((r, n) == (RUNE_ERROR, 1) || EncodeRune(r) == p[..n])
  {
    var (r, n) := DecodeRune(p);
    if n == 2 { Encode2(p); }
    if n == 3 { Encode3(p); }
    if n == 4 { Encode4(p); }
    Encode1(p);
  }

  lemma Encode1(p: seq<byte>)
    requires p != []
    ensures var (r, n) := DecodeRune(p); n == 1 ==> (r, n) == (RUNE_ERROR, 1) || (ValidRune(r) && EncodeRune(r) == p[..1])
    ensures DecodeRune(p).1 > 1 ==> FirstOf(p[0]).Lead? && FirstOf(p[0]).size == DecodeRune(p).1
  {
  }
}
