/** Fixed-width big-endian encoding of naturals. */
module Endian {
  import opened Bits

  type Bytes = seq<u8>

  function Pow256(w: nat): (r: nat)
    ensures r >= 1
  {
    if w == 0 then 1 else 256 * Pow256(w - 1)
  }

  /** The low `w` bytes of `n`, most significant first. */
  function ToBigEndian(n: nat, w: nat): (b: Bytes)
    ensures |b| == w
  {
    if w == 0 then [] else ToBigEndian(n / 256, w - 1) + [n % 256]
  }

  function FromBigEndian(b: Bytes): nat
  {
    if |b| == 0 then 0 else 256 * FromBigEndian(b[..|b| - 1]) + b[|b| - 1]
  }

  lemma {:induction false} FromBigEndianBound(b: Bytes)
    ensures FromBigEndian(b) < Pow256(|b|)
  {
    if |b| > 0 {
      FromBigEndianBound(b[..|b| - 1]);
    }
  }

  lemma {:induction false} FromToBigEndian(n: nat, w: nat)
    requires n < Pow256(w)
    ensures FromBigEndian(ToBigEndian(n, w)) == n
  {
    if w > 0 {
      FromToBigEndian(n / 256, w - 1);
      var b := ToBigEndian(n, w);
      assert b[..w - 1] == ToBigEndian(n / 256, w - 1) && b[w - 1] == n % 256;
    }
  }

  /** The first byte is the most significant one. */
  lemma {:induction false} FirstByte(x: u8, b: Bytes)
    ensures FromBigEndian([x] + b) == x * Pow256(|b|) + FromBigEndian(b)
  {
    var s := [x] + b;
    if |b| == 0 {
      assert s[..0] == [];
    } else {
      var n := |b| - 1;
      FirstByte(x, b[..n]);
      assert s[..n + 1] == [x] + b[..n];
      assert x * Pow256(n + 1) == 256 * (x * Pow256(n));
    }
  }

  lemma LastByte(q: nat, r: u8)
    ensures (256 * q + r) / 256 == q && (256 * q + r) % 256 == r
  {
  }

  lemma {:induction false} ToFromBigEndian(b: Bytes)
    ensures ToBigEndian(FromBigEndian(b), |b|) == b
  {
    if |b| > 0 {
      ToFromBigEndian(b[..|b| - 1]);
      LastByte(FromBigEndian(b[..|b| - 1]), b[|b| - 1]);
      assert b == b[..|b| - 1] + [b[|b| - 1]];
    }
  }

  lemma Pow256Values()
    ensures Pow256(1) == 0x100 && Pow256(2) == 0x1_0000 && Pow256(4) == TWO32 && Pow256(8) == TWO64
  {
    assert Pow256(3) == 0x100_0000;
    assert Pow256(5) == 256 * TWO32;
    assert Pow256(6) == 0x1_0000 * TWO32;
    assert Pow256(7) == 0x100_0000 * TWO32;
  }

  function U16(b: Bytes): (r: u16)
    requires |b| == 2
    ensures r == FromBigEndian(b)
  {
    Pow256Values();
    FromBigEndianBound(b);
    FromBigEndian(b)
  }

  function U32(b: Bytes): (r: u32)
    requires |b| == 4
    ensures r == FromBigEndian(b)
  {
    Pow256Values();
    FromBigEndianBound(b);
    FromBigEndian(b)
  }

  function U64(b: Bytes): (r: u64)
    requires |b| == 8
    ensures r == FromBigEndian(b)
  {
    Pow256Values();
    FromBigEndianBound(b);
    FromBigEndian(b)
  }

  lemma U16RoundTrip(n: u16)
    ensures U16(ToBigEndian(n, 2)) == n
  {
    Pow256Values();
    FromToBigEndian(n, 2);
  }

  lemma U32RoundTrip(n: u32)
    ensures U32(ToBigEndian(n, 4)) == n
  {
    Pow256Values();
    FromToBigEndian(n, 4);
  }

  lemma U64RoundTrip(n: u64)
    ensures U64(ToBigEndian(n, 8)) == n
  {
    Pow256Values();
    FromToBigEndian(n, 8);
  }
}
