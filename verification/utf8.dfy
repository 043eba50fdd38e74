/** UTF-8: decoding one character, and the strings that are well-formed. */
module Utf8 {
  import opened Bits
  import opened Endian

  const RUNE_ERROR: int := 0xFFFD

  predicate Continuation(b: u8, lo: u8, hi: u8) {
    lo <= b <= hi
  }

  /** `decode_rune`: the rune at the start of `s` and its width; invalid bytes have width one. */
  function DecodeRune(s: Bytes): (r: (int, nat))
    ensures r.1 <= |s| && (|s| > 0 ==> r.1 >= 1)
    ensures forall i :: 1 <= i < r.1 ==> s[i] >= 0x80
    ensures r.1 > 1 ==> s[0] >= 0x80
  {
    if |s| == 0 then (RUNE_ERROR, 0)
    else
      var b0 := s[0];
      if b0 < 0x80 then (b0, 1)
      else if 0xC2 <= b0 <= 0xDF then
        if |s| < 2 || !Continuation(s[1], 0x80, 0xBF) then (RUNE_ERROR, 1)
        else (Low(b0, 32) * 64 + Low(s[1], 64), 2)
      else if 0xE0 <= b0 <= 0xEF then
        var lo, hi := if b0 == 0xE0 then 0xA0 else 0x80, if b0 == 0xED then 0x9F else 0xBF;
        if |s| < 3 || !Continuation(s[1], lo, hi) || !Continuation(s[2], 0x80, 0xBF) then (RUNE_ERROR, 1)
        else (Low(b0, 16) * 4096 + Low(s[1], 64) * 64 + Low(s[2], 64), 3)
      else if 0xF0 <= b0 <= 0xF4 then
        var lo, hi := if b0 == 0xF0 then 0x90 else 0x80, if b0 == 0xF4 then 0x8F else 0xBF;
        if |s| < 4 || !Continuation(s[1], lo, hi) || !Continuation(s[2], 0x80, 0xBF)
           || !Continuation(s[3], 0x80, 0xBF) then (RUNE_ERROR, 1)
        else (Low(b0, 8) * 262144 + Low(s[1], 64) * 4096 + Low(s[2], 64) * 64 + Low(s[3], 64), 4)
      else (RUNE_ERROR, 1)
  }

  /** Every character decodes. */
  predicate ValidUtf8(s: Bytes)
    decreases |s|
  {
    if s == [] then true
    else
      var (r, n) := DecodeRune(s);
      !(r == RUNE_ERROR && n == 1) && ValidUtf8(s[n..])
  }

  /** The code points that have an encoding. */
  predicate IsScalar(r: int) {
    0 <= r < 0xD800 || 0xE000 <= r < 0x11_0000
  }

  /** The encoding of a code point: one to four bytes, six bits in each but the first. */
  function EncodeRune(r: int): (b: Bytes)
    requires IsScalar(r)
    ensures 1 <= |b| <= 4
  {
    if r < 0x80 then [r]
    else if r < 0x800 then [0xC0 + r / 64, 0x80 + r % 64]
    else if r < 0x1_0000 then [0xE0 + r / 4096, 0x80 + r / 64 % 64, 0x80 + r % 64]
    else [0xF0 + r / 262144, 0x80 + r / 4096 % 64, 0x80 + r / 64 % 64, 0x80 + r % 64]
  }

  lemma TwoBytes(r: int, s: Bytes)
    requires 0x80 <= r < 0x800 && |s| >= 2 && s[0] == 0xC0 + r / 64 && s[1] == 0x80 + r % 64
    ensures DecodeRune(s) == (r, 2)
  {
    assert Low(s[0], 32) == r / 64 && Low(s[1], 64) == r % 64;
  }

  lemma ThreeBytes(r: int, s: Bytes)
    requires 0x800 <= r < 0x1_0000 && IsScalar(r)
    requires |s| >= 3 && s[0] == 0xE0 + r / 4096 && s[1] == 0x80 + r / 64 % 64 && s[2] == 0x80 + r % 64
    ensures DecodeRune(s) == (r, 3)
  {
    var a, b, c := r / 4096, r / 64 % 64, r % 64;
    assert r == 4096 * a + 64 * b + c;
    assert Low(s[0], 16) == a && Low(s[1], 64) == b && Low(s[2], 64) == c;
    assert a == 0 ==> b >= 0x20;
    assert a == 0xD ==> b < 0x20;
  }

  lemma FourBytes(r: int, s: Bytes)
    requires 0x1_0000 <= r < 0x11_0000 && |s| >= 4 && s[0] == 0xF0 + r / 262144
    requires s[1] == 0x80 + r / 4096 % 64 && s[2] == 0x80 + r / 64 % 64 && s[3] == 0x80 + r % 64
    ensures DecodeRune(s) == (r, 4)
  {
    var a, b, c, d := r / 262144, r / 4096 % 64, r / 64 % 64, r % 64;
    assert r == 262144 * a + 4096 * b + 64 * c + d;
    assert Low(s[0], 8) == a && Low(s[1], 64) == b && Low(s[2], 64) == c && Low(s[3], 64) == d;
    assert a == 0 ==> b >= 0x10;
    assert a == 4 ==> b < 0x10;
  }

  /** An encoded code point decodes, whatever follows. */
  lemma RuneReads(r: int, z: Bytes)
    requires IsScalar(r)
    ensures DecodeRune(EncodeRune(r) + z) == (r, |EncodeRune(r)|)
  {
    var b := EncodeRune(r);
    var s := b + z;
    assert s[0] == b[0] && (|b| > 1 ==> s[1] == b[1]) && (|b| > 2 ==> s[2] == b[2]) && (|b| > 3 ==> s[3] == b[3]);
    if r < 0x80 {
      assert DecodeRune(s) == (r, 1);
    } else {
      hide DecodeRune;
      if r < 0x800 {
        TwoBytes(r, s);
      } else if r < 0x1_0000 {
        ThreeBytes(r, s);
      } else {
        FourBytes(r, s);
      }
    }
  }

  lemma TwoIs(s: Bytes)
    requires s != [] && DecodeRune(s).1 == 2
    ensures var r := DecodeRune(s).0; 0x80 <= r < 0x800 && r / 64 == s[0] - 0xC0 && r % 64 == s[1] - 0x80
  {
    assert Low(s[0], 32) == s[0] - 0xC0 && Low(s[1], 64) == s[1] - 0x80;
  }

  lemma ThreeIs(s: Bytes)
    requires s != [] && DecodeRune(s).1 == 3
    ensures var r := DecodeRune(s).0;
            && 0x800 <= r < 0x1_0000 && IsScalar(r)
            && r / 4096 == s[0] - 0xE0 && r / 64 % 64 == s[1] - 0x80 && r % 64 == s[2] - 0x80
  {
    var a: int, b: int, c: int := s[0] - 0xE0, s[1] - 0x80, s[2] - 0x80;
    assert Low(s[0], 16) == a && Low(s[1], 64) == b && Low(s[2], 64) == c;
    assert (4096 * a + 64 * b + c) / 64 == 64 * a + b;
  }

  /** A number from its sextets, and back. */
  lemma Sextets(a: int, b: int, c: int, d: int)
    requires 0 <= b < 64 && 0 <= c < 64 && 0 <= d < 64
    ensures var r := 262144 * a + 4096 * b + 64 * c + d;
            r / 262144 == a && r / 4096 % 64 == b && r / 64 % 64 == c && r % 64 == d
  {
    var y := 64 * a + b;
    var x := 64 * y + c;
    var r := 64 * x + d;
    assert r / 64 == x && r % 64 == d;
    assert r / 4096 == y && x % 64 == c;
    assert r / 262144 == a && y % 64 == b;
  }

  lemma FourParts(s: Bytes)
    requires s != [] && DecodeRune(s).1 == 4
    ensures var a, b, c, d := s[0] as int - 0xF0, s[1] as int - 0x80, s[2] as int - 0x80, s[3] as int - 0x80;
            && 0 <= a <= 4 && 0 <= b < 64 && 0 <= c < 64 && 0 <= d < 64 && (a == 0 ==> b >= 0x10) && (a == 4 ==> b < 0x10)
            && DecodeRune(s).0 == 262144 * a + 4096 * b + 64 * c + d
  {
    assert Low(s[0], 8) == s[0] - 0xF0;
    assert Low(s[1], 64) == s[1] - 0x80 && Low(s[2], 64) == s[2] - 0x80 && Low(s[3], 64) == s[3] - 0x80;
  }

  lemma FourIs(s: Bytes)
    requires s != [] && DecodeRune(s).1 == 4
    ensures var r := DecodeRune(s).0;
            && 0x1_0000 <= r < 0x11_0000 && r / 262144 == s[0] - 0xF0
            && r / 4096 % 64 == s[1] - 0x80 && r / 64 % 64 == s[2] - 0x80 && r % 64 == s[3] - 0x80
  {
    hide DecodeRune;
    FourParts(s);
    Sextets(s[0] - 0xF0, s[1] - 0x80, s[2] - 0x80, s[3] - 0x80);
  }

  /** What decodes without error is the encoding of the code point it decodes to. */
  lemma RuneIs(s: Bytes)
    requires s != [] && DecodeRune(s) != (RUNE_ERROR, 1)
    ensures var (r, n) := DecodeRune(s); IsScalar(r) && EncodeRune(r) == s[..n]
  {
    var (r, n) := DecodeRune(s);
    Widths(s);
    hide DecodeRune;
    if n == 1 {
      assert s[..1] == [s[0]];
    } else if n == 2 {
      TwoIs(s);
      assert s[..2] == [s[0], s[1]];
    } else if n == 3 {
      ThreeIs(s);
      assert s[..3] == [s[0], s[1], s[2]];
    } else {
      FourIs(s);
      assert s[..4] == [s[0], s[1], s[2], s[3]];
    }
  }

  lemma Widths(s: Bytes)
    requires s != [] && DecodeRune(s) != (RUNE_ERROR, 1)
    ensures 1 <= DecodeRune(s).1 <= 4
    ensures DecodeRune(s).1 == 1 ==> DecodeRune(s).0 == s[0] < 0x80
  {
  }
}
