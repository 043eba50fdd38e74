/** The placement pass: an in-place bucket sort of the key hashes by their high bits. A zero in a
    slot means "free", even though a key may hash to zero; a sentinel closes the array. */
module FusePlace {
  import opened Bits

  type Mix = (u64, u64) -> u64

  function Hashes(keys: seq<u64>, seed: u64, mix: Mix): (r: seq<u64>)
    ensures |r| == |keys| && forall i :: 0 <= i < |keys| ==> r[i] == mix(keys[i], seed)
  {
    seq(|keys|, i requires 0 <= i < |keys| => mix(keys[i], seed))
  }

  function Zeros(n: nat): multiset<u64> {
    multiset{}[0 := n]
  }

  /** The slots hold exactly the given hashes, with zeros as padding. */
  ghost predicate HoldsPadded(slots: seq<u64>, hashes: seq<u64>)
  {
    multiset(slots) + Zeros(|hashes|) == multiset(hashes) + Zeros(|slots|)
  }

  /** Every hash is found in the slots, the zero hash included. */
  lemma PaddedContains(slots: seq<u64>, hashes: seq<u64>, h: u64)
    requires HoldsPadded(slots, hashes) && |hashes| <= |slots| && h in hashes
    ensures h in slots
  {
    var l, r := multiset(slots) + Zeros(|hashes|), multiset(hashes) + Zeros(|slots|);
    assert h in multiset(hashes) && l[h] == r[h];
    assert h in multiset(slots);
  }

  /** Nothing else is found there. */
  lemma PaddedOnly(slots: seq<u64>, hashes: seq<u64>, h: u64)
    requires HoldsPadded(slots, hashes) && h in slots
    ensures h in hashes || h == 0
  {
    var l, r := multiset(slots) + Zeros(|hashes|), multiset(hashes) + Zeros(|slots|);
    assert h in multiset(slots) && l[h] == r[h];
    assert h != 0 ==> h in multiset(hashes);
  }

  /** Without padding the slots are the hashes in some order. */
  lemma PaddedFull(slots: seq<u64>, hashes: seq<u64>)
    requires HoldsPadded(slots, hashes) && |slots| == |hashes|
    ensures multiset(slots) == multiset(hashes)
  {
    var z := Zeros(|slots|);
    assert multiset(slots) == multiset(slots) + z - z;
    assert multiset(hashes) == multiset(hashes) + z - z;
  }

  /** Writing a hash over a zero slot. */
  lemma PaddedStep(slots: seq<u64>, hashes: seq<u64>, p: nat, h: u64)
    requires HoldsPadded(slots, hashes) && p < |slots| && slots[p] == 0
    ensures HoldsPadded(slots[p := h], hashes + [h])
  {
    var before, after := multiset(slots), multiset(slots[p := h]);
    assert 0 in before && after == before - multiset{0} + multiset{h};
    var l, r := after + Zeros(|hashes| + 1), multiset(hashes + [h]) + Zeros(|slots|);
    assert l == before + Zeros(|hashes|) + multiset{h};
    assert multiset(hashes + [h]) == multiset(hashes) + multiset{h};
    assert r == multiset(hashes) + Zeros(|slots|) + multiset{h};
  }

  /** Bookkeeping of the scan: segment `s` has written the slots from `start[s]` up to `ptr[s]`;
      slots written by nobody are still zero. */
  ghost predicate Claims(start: seq<nat>, ptr: seq<u32>, slots: seq<u64>, claimed: set<nat>)
  {
    && |start| == |ptr| > 0 && start[0] == 0
    && (forall s :: 0 <= s < |ptr| ==> start[s] <= ptr[s] <= |slots|)
    && (forall p :: p in claimed ==> p < |slots|)
    && (forall p: nat :: p < |slots| && p !in claimed ==> slots[p] == 0)
    && (forall s, p: nat :: 0 <= s < |ptr| && start[s] <= p < ptr[s] ==> p in claimed)
    && forall p :: p in claimed ==> exists s :: 0 <= s < |ptr| && start[s] <= p < ptr[s]
  }

  lemma {:induction false} LeastUnclaimed(claimed: set<nat>, q: nat) returns (p: nat)
    requires q !in claimed
    ensures p <= q && p !in claimed && forall r: nat :: r < p ==> r in claimed
  {
    if exists r: nat :: r < q && r !in claimed {
      var r: nat :| r < q && r !in claimed;
      p := LeastUnclaimed(claimed, r);
    } else {
      p := q;
    }
  }

  lemma FirstUnclaimed(claimed: set<nat>, n: nat) returns (p: nat)
    requires |claimed| < n
    ensures p < n && p !in claimed && forall q: nat :: q < p ==> q in claimed
  {
    if Below(n) <= claimed {
      SubsetSize(Below(n), claimed);
      assert false;
    }
    var q: nat :| q in Below(n) && q !in claimed;
    p := LeastUnclaimed(claimed, q);
  }

  lemma {:induction false} SubsetSize(a: set<nat>, b: set<nat>)
    requires a <= b
    ensures |a| <= |b|
  {
    assert b == a + (b - a);
  }

  /** As long as fewer slots are claimed than exist, some segment points at a free slot. */
  lemma FreeSegment(start: seq<nat>, ptr: seq<u32>, slots: seq<u64>, claimed: set<nat>) returns (s: nat)
    requires Claims(start, ptr, slots, claimed) && |claimed| < |slots|
    ensures s < |ptr| && ptr[s] < |slots| && slots[ptr[s]] == 0
  {
    var p := FirstUnclaimed(claimed, |slots|);
    if p == 0 {
      s := 0;
    } else {
      var q: nat := p - 1;
      assert q in claimed;
      s :| 0 <= s < |ptr| && start[s] <= q < ptr[s];
    }
  }

  /** Number of high bits that select a segment: the least `bits >= 1` whose power of two
      reaches the segment count. */
  method BlockBits(segmentCount: u32) returns (bits: nat)
    requires segmentCount <= 0x8000_0000
    ensures 1 <= bits <= 31 && segmentCount <= Pow2(bits)
    ensures bits == 1 || Pow2(bits - 1) < segmentCount
  {
    bits := 1;
    while Pow2(bits) < segmentCount
      invariant 1 <= bits <= 31
      invariant bits == 1 || Pow2(bits - 1) < segmentCount
    {
      assert bits < 31 by {
        Pow2Values();
        Pow2Add(1, 31);
      }
      bits := bits + 1;
    }
  }

  function StartPosition(i: nat, size: nat, bits: nat): nat {
    Quotient(i * size, Pow2(bits))
  }

  function Quotient(x: nat, m: nat): nat
    requires m > 0
  {
    x / m
  }

  lemma StartPositionBound(i: nat, size: nat, bits: nat)
    requires i < Pow2(bits)
    ensures StartPosition(i, size, bits) <= size
  {
    hide Pow2;
    var m := Pow2(bits);
    assert i * size <= m * size;
    DivideMonotone(i * size, size, m);
  }

  lemma DivideMonotone(x: nat, y: nat, m: nat)
    requires m > 0 && x <= m * y
    ensures x / m <= y
  {
    var q := x / m;
    assert q * m <= x;
    assert q >= y + 1 ==> q * m >= (y + 1) * m;
  }

  /** The high bits of a hash name a segment. */
  lemma SegmentOf(hash: u64, bits: nat)
    requires 1 <= bits <= 31
    ensures hash / Pow2(64 - bits) < Pow2(bits)
  {
    hide Pow2;
    Pow2Values();
    Pow2Add(bits, 64 - bits);
    var m, d := Pow2(bits), Pow2(64 - bits);
    assert hash < m * d;
    var q := hash / d;
    assert q * d <= hash;
    assert q >= m ==> q * d >= m * d;
  }

  /** Steps from segment `s` to segment `t`, cyclically in `m` segments. */
  function Distance(s: nat, t: nat, m: nat): int {
    if s <= t then t - s else t - s + m
  }

  function NextSegment(s: nat, m: nat): (r: nat)
    requires s < m
    ensures r == if s + 1 == m then 0 else s + 1
  {
    if s + 1 < m then
      ModOf(s + 1, 0, s + 1, m);
      (s + 1) % m
    else
      ModOf(s + 1, 1, 0, m);
      (s + 1) % m
  }

  /** The scan for a segment that points at a free slot, from the hash's own segment on,
      wrapping around. It stops because such a segment exists. */
  method FindFree(order: array<u64>, ptr: array<u32>, first: nat, ghost free: nat) returns (segment: nat)
    requires order != ptr as object && first < ptr.Length && free < ptr.Length
    requires forall s :: 0 <= s < ptr.Length ==> ptr[s] < order.Length
    requires order[ptr[free]] == 0
    ensures segment < ptr.Length && order[ptr[segment]] == 0
  {
    segment := first;
    while order[ptr[segment]] != 0
      invariant segment < ptr.Length
      decreases Distance(segment, free, ptr.Length)
    {
      segment := NextSegment(segment, ptr.Length);
    }
  }

  function Advance(ptr: seq<u32>, s: nat): (r: seq<u32>)
    requires s < |ptr| && ptr[s] < TWO32 - 1
  {
    var next: u32 := ptr[s] + 1;
    ptr[s := next]
  }

  /** One placement keeps the bookkeeping. */
  lemma ClaimStep(start: seq<nat>, ptr: seq<u32>, slots: seq<u64>, claimed: set<nat>, s: nat, h: u64)
    requires Claims(start, ptr, slots, claimed) && s < |ptr| && ptr[s] < |slots| < TWO32
    ensures Claims(start, Advance(ptr, s), slots[ptr[s] := h], claimed + {ptr[s]})
  {
    var ptr', claimed' := Advance(ptr, s), claimed + {ptr[s]};
    forall p | p in claimed'
      ensures exists r :: 0 <= r < |ptr'| && start[r] <= p < ptr'[r]
    {
      if p == ptr[s] {
        assert start[s] <= p < ptr'[s];
      } else {
        var r :| 0 <= r < |ptr| && start[r] <= p < ptr[r];
        assert start[r] <= p < ptr'[r];
      }
    }
  }

  /** The placement pass. Every scan ends, no cursor passes the sentinel, and the slots end up
      holding exactly the hashes of the keys, padded with zeros. */
  method Place(keys: seq<u64>, seed: u64, mix: Mix, order: array<u64>, size: nat, bits: nat)
    requires |keys| <= size < TWO32 - 1 && order.Length == size + 1 && 1 <= bits <= 31
    requires order[size] == 1 && forall p :: 0 <= p < size ==> order[p] == 0
    modifies order
    ensures order[size] == 1
    ensures HoldsPadded(order[..size], Hashes(keys, seed, mix))
  {
    hide Pow2, Claims, HoldsPadded;
    var ptr: array<u32>, start := StartPositions(size, bits);
    ghost var claimed: set<nat> := {};
    EmptyClaims(start, ptr[..], order[..size]);
    var hashes := Hashes(keys, seed, mix);
    assert hashes[..0] == [];
    for j := 0 to |keys|
      invariant fresh(ptr) && order[size] == 1 && |ptr[..]| == Pow2(bits)
      invariant Claims(start, ptr[..], order[..size], claimed) && |claimed| <= j
      invariant HoldsPadded(order[..size], hashes[..j])
    {
      var hash: u64 := mix(keys[j], seed);
      SegmentOf(hash, bits);
      ghost var free := FreeSegment(start, ptr[..], order[..size], claimed);
      CursorsBounded(start, ptr[..], order[..size], claimed);
      var segment := FindFree(order, ptr, hash / Pow2(64 - bits), free);
      var p: u32 := ptr[segment];
      ClaimStep(start, ptr[..], order[..size], claimed, segment, hash);
      PaddedStep(order[..size], hashes[..j], p, hash);
      assert hashes[..j + 1] == hashes[..j] + [hash];
      ghost var slots, cursors := order[..size], ptr[..];
      order[p] := hash;
      ptr[segment] := p + 1;
      assert order[..size] == slots[p := hash] && ptr[..] == Advance(cursors, segment);
      claimed := claimed + {p};
    }
    assert hashes[..|keys|] == hashes;
  }

  method StartPositions(size: nat, bits: nat) returns (ptr: array<u32>, ghost start: seq<nat>)
    requires size < TWO32
    ensures fresh(ptr) && ptr.Length == |start| == Pow2(bits) && ptr[..] == start
    ensures start[0] == 0 && forall i :: 0 <= i < |start| ==> start[i] == StartPosition(i, size, bits) <= size
  {
    hide Pow2;
    ptr := new u32[Pow2(bits)];
    for i := 0 to ptr.Length
      invariant forall k :: 0 <= k < i ==> ptr[k] == StartPosition(k, size, bits) <= size
    {
      StartPositionBound(i, size, bits);
      ptr[i] := StartPosition(i, size, bits);
    }
    start := ptr[..];
    assert 0 * size == 0;
  }

  lemma EmptyClaims(start: seq<nat>, ptr: seq<u32>, slots: seq<u64>)
    requires |start| > 0 && start[0] == 0 && ptr == start
    requires forall i :: 0 <= i < |start| ==> start[i] <= |slots|
    requires forall p :: 0 <= p < |slots| ==> slots[p] == 0
    ensures Claims(start, ptr, slots, {}) && HoldsPadded(slots, [])
  {
    AllZeros(slots);
  }

  lemma {:induction false} AllZeros(slots: seq<u64>)
    requires forall p :: 0 <= p < |slots| ==> slots[p] == 0
    ensures multiset(slots) == Zeros(|slots|)
  {
    if |slots| > 0 {
      var n := |slots| - 1;
      AllZeros(slots[..n]);
      assert slots == slots[..n] + [0];
    }
  }

  lemma CursorsBounded(start: seq<nat>, ptr: seq<u32>, slots: seq<u64>, claimed: set<nat>)
    requires Claims(start, ptr, slots, claimed)
    ensures forall s :: 0 <= s < |ptr| ==> ptr[s] <= |slots|
  {
  }
}
