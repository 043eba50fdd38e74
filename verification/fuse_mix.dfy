/** The filter's own hash functions. For every seed they send different keys to different hashes. */
module FuseMix {
  import opened Bits

  /** One xor-shift-multiply round of the mixers. */
  function MixRound(h: u64, shift: nat, factor: u64): u64 {
    Fold(h, shift) * factor % TWO64
  }

  /** A word with its upper bits folded onto the lower ones. */
  function Fold(h: u64, shift: nat): u64 {
    ShrBelow(h, shift);
    Xor64(h, Shr(h, shift))
  }

  lemma {:induction false} ShrBelow(x: nat, k: nat)
    ensures Shr(x, k) <= x
    decreases k
  {
    if k > 0 {
      ShrBelow(x / 2, k - 1);
    }
  }

  function Murmur64(h: u64): u64 {
    Fold(MixRound(MixRound(h, 33, 0xff51_afd7_ed55_8ccd), 33, 0xc4ce_b9fe_1a85_ec53), 33)
  }

  function MixSplit(key: u64, seed: u64): u64 {
    Murmur64((key + seed) % TWO64)
  }

  function SplitMix64(counter: u64): (u64, u64) {
    var next: u64 := (counter + 0x9E37_79B9_7F4A_7C15) % TWO64;
    (next, Fold(MixRound(MixRound(next, 30, 0xBF58_476D_1CE4_E5B9), 27, 0x94D0_49BB_1331_11EB), 31))
  }

  lemma FoldInjective(x: u64, y: u64, shift: nat)
    requires shift >= 32 && Fold(x, shift) == Fold(y, shift)
    ensures x == y
  {
    hide Xor, Shr;
    XorShiftBack(x, shift);
    XorShiftBack(y, shift);
  }

  /** Multiplication by a number with an inverse modulo 2^64 loses nothing. */
  lemma TimesInjective(a: u64, b: u64, f: nat, g: nat, n: nat)
    requires f * g == 1 + n * TWO64 && a * f % TWO64 == b * f % TWO64
    ensures a == b
  {
    var d: int := a - b;
    var m := a * f / TWO64 - b * f / TWO64;
    assert d * f == m * TWO64;
    assert d * f * g == d * (f * g);
    Regroup(d, f, g, m, n);
    MultipleInRange(m * g - d * n, TWO64);
  }

  lemma Regroup(d: int, f: int, g: int, m: int, n: int)
    requires d * f == m * TWO64 && f * g == 1 + n * TWO64
    ensures d == (m * g - d * n) * TWO64
  {
    assert d * f * g == m * TWO64 * g;
    assert d * (f * g) == d + d * n * TWO64;
    assert d * f * g == d * (f * g);
    assert m * TWO64 * g - d * n * TWO64 == (m * g - d * n) * TWO64;
  }

  lemma RoundInjective(x: u64, y: u64, factor: u64, inverse: nat, n: nat)
    requires factor * inverse == 1 + n * TWO64 && MixRound(x, 33, factor) == MixRound(y, 33, factor)
    ensures x == y
  {
    hide Fold;
    TimesInjective(Fold(x, 33), Fold(y, 33), factor, inverse, n);
    FoldInjective(x, y, 33);
  }

  lemma MurmurInjective(x: u64, y: u64)
    requires Murmur64(x) == Murmur64(y)
    ensures x == y
  {
    hide Fold, MixRound;
    var a, b := 0xff51_afd7_ed55_8ccd, 0xc4ce_b9fe_1a85_ec53;
    FoldInjective(MixRound(MixRound(x, 33, a), 33, b), MixRound(MixRound(y, 33, a), 33, b), 33);
    RoundInjective(MixRound(x, 33, a), MixRound(y, 33, a), b, 0x9cb4_b2f8_1293_37db, 0x7878_e448_12b2_d581);
    RoundInjective(x, y, a, 0x4f74_430c_22a5_4005, 0x4f3e_2925_cb7c_5b4e);
  }

  /** Different keys have different hashes, whatever the seed. */
  lemma MixInjective(j: u64, k: u64, seed: u64)
    requires MixSplit(j, seed) == MixSplit(k, seed)
    ensures j == k
  {
    hide Murmur64;
    MurmurInjective((j + seed) % TWO64, (k + seed) % TWO64);
  }
}
