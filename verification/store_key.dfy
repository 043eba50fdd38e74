/** Canonical 32-byte store keys. */
module StoreKey {
  import opened Endian

  const SIZE: nat := 32
  const GIT_SHA1_SIZE: nat := 20

  /** `Key::parse` accepts: no reserved bit, a defined type, a minimal length, and for a git key zeros
      after its SHA-1. */
  predicate Canonical(k: Bytes) {
    && |k| == SIZE
    && var header := k[31];
       && (header / 8) % 2 == 0
       && header / 16 <= 6
       && (k[30] == 0 ==> header % 8 == 0)
       && (header / 16 == 6 ==> header % 8 == 0 && forall i :: GIT_SHA1_SIZE <= i < 31 ==> k[i] == 0)
  }
}
