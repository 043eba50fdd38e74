/** What a filter answers, key by key, in terms of the two words of the hash that it compares. */
module FuseAnswers {
  import opened Bits
  import opened FuseGeometry
  import opened FusePlace
  import opened BinaryFuse

  /** Bits 0 to 15 of a hash. */
  function LowWord(hash: u64): u16 {
    hash % 0x1_0000
  }

  /** Bits 32 to 47. */
  function HighWord(hash: u64): u16 {
    hash / TWO32 % 0x1_0000
  }

  lemma FingerprintWords(hash: u64)
    ensures Fingerprint(hash) == Xor(LowWord(hash), HighWord(hash))
  {
    hide Xor;
    Pow2Values();
    XorMod(hash, hash / TWO32, 16);
  }

  /** A key is contained exactly if the two words and the three cells of its hash cancel. */
  lemma ContainsExactly(f: Filter, mix: Mix, key: u64)
    requires f.Valid()
    ensures var h: u64 := mix(key, f.seed);
            var t := Cells(f.geometry, h);
            && ProperTriple(t, |f.fingerprints|)
            && (Contains(f, mix, key) <==>
                  Xor(LowWord(h), HighWord(h))
                  == Xor(Xor(f.fingerprints[t.c0], f.fingerprints[t.c1]), f.fingerprints[t.c2]))
  {
    hide Xor, Cells, Fingerprint, LowWord, HighWord;
    var h: u64 := mix(key, f.seed);
    CellsProper(f.geometry, h);
    FingerprintWords(h);
    var a, b := Fingerprint(h), CellsXor(f.fingerprints, Cells(f.geometry, h));
    if Xor(a, b) == 0 {
      XorZeroMeansEqual(a, b);
    }
    XorSelf(a);
  }

  /** The filter of no keys answers yes only where the two words of the hash agree. */
  lemma EmptyAnswers(f: Filter, mix: Mix, key: u64)
    requires f.Valid() && AllZero(f.fingerprints)
    ensures Contains(f, mix, key) <==> LowWord(mix(key, f.seed)) == HighWord(mix(key, f.seed))
  {
    hide Xor, Cells, LowWord, HighWord;
    ContainsExactly(f, mix, key);
    var h: u64 := mix(key, f.seed);
    XorZero(0);
    XorSelf(LowWord(h));
    if Xor(LowWord(h), HighWord(h)) == 0 {
      XorZeroMeansEqual(LowWord(h), HighWord(h));
    }
  }

  /** Of two keys with the same cells whose hashes differ in exactly one of the two words, no filter
      contains both. */
  lemma NeverBoth(f: Filter, mix: Mix, j: u64, k: u64)
    requires f.Valid() && Contains(f, mix, j) && Contains(f, mix, k)
    requires Cells(f.geometry, mix(j, f.seed)) == Cells(f.geometry, mix(k, f.seed))
    ensures LowWord(mix(j, f.seed)) == LowWord(mix(k, f.seed))
       <==> HighWord(mix(j, f.seed)) == HighWord(mix(k, f.seed))
  {
    hide Xor, Cells, LowWord, HighWord, Contains;
    var h: u64, i: u64 := mix(j, f.seed), mix(k, f.seed);
    ContainsExactly(f, mix, j);
    ContainsExactly(f, mix, k);
    XorCancel(LowWord(h), HighWord(h));
    XorCancel(LowWord(i), HighWord(i));
    XorCancel(HighWord(h), LowWord(h));
    XorCancel(HighWord(i), LowWord(i));
  }
}
