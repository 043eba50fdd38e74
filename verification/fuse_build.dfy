/** Construction and lookup of the binary fuse filter. */
module BinaryFuse {
  import opened Bits
  import opened FuseGeometry
  import opened FuseLoad
  import opened FuseFill
  import opened FusePeel
  import opened FusePlace
  import opened FuseCore
  import opened FuseMix

  const MAX_ITERATIONS: nat := 1024

  /** `BinaryFuse16`. */
  datatype Filter = Filter(seed: u64, geometry: Geometry, fingerprints: seq<u16>)
  {
    /** What construction and section parsing guarantee, and what `Contains` relies on. */
    ghost predicate Valid() {
      geometry.Valid() && |fingerprints| == geometry.Capacity()
    }
  }

  datatype BuildResult = Ok(filter: Filter) | TooManyIterations

  /** The 16-bit fingerprint of a hash. */
  function Fingerprint(hash: u64): (r: u16)
  {
    Xor64(hash, hash / TWO32) % 0x1_0000
  }

  function CellsXor(fingerprints: seq<u16>, t: Triple): (r: u16)
    requires ProperTriple(t, |fingerprints|)
  {
    Xor16(Xor16(fingerprints[t.c0], fingerprints[t.c1]), fingerprints[t.c2])
  }

  /** Membership: the hash's fingerprint cancels against its three cells. */
  predicate Contains(f: Filter, mix: Mix, key: u64)
    requires f.Valid()
  {
    var hash: u64 := mix(key, f.seed);
    CellsProper(f.geometry, hash);
    Xor16(Fingerprint(hash), CellsXor(f.fingerprints, Cells(f.geometry, hash))) == 0
  }

  predicate AllZero(fingerprints: seq<u16>) {
    forall c :: 0 <= c < |fingerprints| ==> fingerprints[c] == 0
  }

  /** The three cells of a stacked hash combine to its fingerprint. */
  ghost predicate Solved(fingerprints: seq<u16>, ix: Index, hash: u64)
  {
    && ProperTriple(ix(hash), |fingerprints|)
    && CellsXor(fingerprints, ix(hash)) == Fingerprint(hash)
  }

  lemma XorThreeSolve(f: nat, x: nat, y: nat)
    ensures Xor(Xor(Xor(Xor(f, x), y), x), y) == f
    ensures Xor(Xor(y, Xor(Xor(f, x), y)), x) == f
    ensures Xor(Xor(x, y), Xor(Xor(f, x), y)) == f
  {
    hide Xor;
    var p := Xor(Xor(f, x), y);
    XorSwapLast(Xor(f, x), y, x);
    XorCancel(f, x);
    XorCancel(f, y);
    assert Xor(Xor(p, x), y) == f;
    XorCancel(Xor(f, x), y);
    XorComm(y, p);
    XorComm(Xor(x, y), p);
    XorAssoc(p, x, y);
  }

  /** Setting the pivot cell solves its hash, whatever its role. */
  lemma SolvePivot(fingerprints: seq<u16>, t: Triple, found: nat, f: u16)
    requires ProperTriple(t, |fingerprints|) && found < 3
    ensures var x := fingerprints[Pick(t, Next(found))];
            var y := fingerprints[Pick(t, Next(Next(found)))];
            CellsXor(fingerprints[Pick(t, found) := Xor16(Xor16(f, x), y)], t) == f
  {
    hide Xor;
    XorThreeSolve(f, fingerprints[Pick(t, Next(found))], fingerprints[Pick(t, Next(Next(found)))]);
  }

  lemma SolvedElsewhere(fingerprints: seq<u16>, ix: Index, hash: u64, p: nat, v: u16)
    requires Solved(fingerprints, ix, hash) && p < |fingerprints| && !Touches(ix(hash), p)
    ensures Solved(fingerprints[p := v], ix, hash)
  {
    hide Xor;
  }

  /** Assigns fingerprints in reverse peeling order, so that no later write disturbs a solved
      hash. */
  method Assign(g: Geometry, fingerprints: array<u16>, order: array<u64>, reverseH: array<u8>, stacked: nat)
    requires g.Valid() && fingerprints.Length == g.Capacity()
    requires fingerprints as object != order && fingerprints as object != reverseH
    requires stacked <= order.Length && stacked <= reverseH.Length
    requires PeelOrder(IndexOf(g), order[..stacked], reverseH[..stacked])
    modifies fingerprints
    ensures forall k :: 0 <= k < stacked ==> Solved(fingerprints[..], IndexOf(g), order[k])
    ensures stacked == 0 ==> fingerprints[..] == old(fingerprints[..])
  {
    hide Xor, Cells, IndexOf, Solved, Fingerprint;
    ghost var ix, hs, roles := IndexOf(g), order[..stacked], reverseH[..stacked];
    for i := stacked downto 0
      invariant forall k :: i <= k < stacked ==> Solved(fingerprints[..], ix, hs[k])
      invariant i == stacked ==> fingerprints[..] == old(fingerprints[..])
    {
      var hash: u64, found := order[i], reverseH[i];
      assert hs[i] == hash && roles[i] == found;
      var t := Cells(g, hash);
      CellsProper(g, hash);
      var h012 := [t.c0, t.c1, t.c2, t.c0, t.c1];
      var value: u16 := Xor16(Xor16(Fingerprint(hash), fingerprints[h012[found + 1]]), fingerprints[h012[found + 2]]);
      ghost var before := fingerprints[..];
      fingerprints[h012[found]] := value;
      SolveNext(ix, hs, roles, i, before, fingerprints[..]);
    }
  }

  lemma SolveNext(ix: Index, hs: seq<u64>, roles: seq<u8>, i: nat, before: seq<u16>, after: seq<u16>)
    requires PeelOrder(ix, hs, roles) && i < |hs| && ProperTriple(ix(hs[i]), |before|)
    requires forall k :: i < k < |hs| ==> Solved(before, ix, hs[k])
    requires var t, found := ix(hs[i]), roles[i];
             after == before[Pick(t, found) :=
                 Xor16(Xor16(Fingerprint(hs[i]), before[Pick(t, Next(found))]), before[Pick(t, Next(Next(found)))])]
    ensures forall k :: i <= k < |hs| ==> Solved(after, ix, hs[k])
  {
    hide Xor, Fingerprint;
    var t, found := ix(hs[i]), roles[i];
    SolvePivot(before, t, found, Fingerprint(hs[i]));
    var p := Pick(t, found);
    forall k | i < k < |hs| ensures Solved(after, ix, hs[k]) {
      SolvedElsewhere(before, ix, hs[k], p, after[p]);
    }
  }

  /** Segments in total for a capacity: rounded up, at least three. */
  function TotalSegments(capacity: nat, length: nat): (total: nat)
    requires length > 0
    ensures total >= 3
  {
    var t := (capacity + length - 1) / length;
    if t < 3 then 3 else t
  }

  lemma TotalSegmentsFit(capacity: nat, length: nat)
    requires 0 < length <= 262144 && capacity + 0xC_0000 < TWO32
    ensures TotalSegments(capacity, length) * length < TWO32
    ensures TotalSegments(capacity, length) < TWO32
  {
    var x := capacity + length - 1;
    var t := x / length;
    QuotientProduct(x, length);
    var total := TotalSegments(capacity, length);
    assert total == t || total == 3;
    ProductAtLeast(total, length);
  }

  lemma QuotientProduct(x: nat, m: nat)
    requires m > 0
    ensures x / m * m <= x
  {
  }

  lemma {:induction false} ProductAtLeast(x: nat, m: nat)
    requires m > 0
    ensures x <= x * m
  {
    if x > 0 {
      ProductAtLeast(x - 1, m);
      assert x * m == (x - 1) * m + m;
    }
  }

  /** The integer part of `initialize_parameters`: `rawLength` and `rawCapacity` stand for the
      results of the floating-point formulas. */
  function InitialGeometry(size: u32, rawLength: u32, rawCapacity: u32): (g: Geometry)
    requires 0 < rawLength && rawCapacity + 0xC_0000 < TWO32
    ensures 0 < g.segmentLength == (if rawLength > 262144 then 262144 else rawLength)
    ensures g.segmentLengthMask == g.segmentLength - 1
    ensures g.segmentCount >= 1 && g.segmentCountLength == g.segmentCount * g.segmentLength
    ensures g.Capacity() < TWO32
  {
    var length := if rawLength > 262144 then 262144 else rawLength;
    var capacity := if size > 1 then rawCapacity else 0;
    TotalSegmentsFit(capacity, length);
    var total := TotalSegments(capacity, length);
    LessTwo(total, length);
    Geometry(length, length - 1, total - 2, (total - 2) * length)
  }

  lemma LessTwo(total: nat, length: nat)
    requires total >= 3
    ensures 0 <= (total - 2) * length == total * length - 2 * length
  {
  }

  lemma InitialGeometryValid(size: u32, rawLength: u32, rawCapacity: u32)
    requires rawCapacity + 0xC_0000 < TWO32
    requires exists k: nat :: k >= 2 && rawLength == Pow2(k)
    ensures InitialGeometry(size, rawLength, rawCapacity).Valid()
    ensures InitialGeometry(size, rawLength, rawCapacity).segmentLength >= 4
  {
    hide InitialGeometry, Pow2;
    var k: nat :| k >= 2 && rawLength == Pow2(k);
    Pow2Values();
    Pow2Monotone(2, k);
    Pow2Add(2, 16);
    assert Pow2(18) == 262144;
    ProductValid(InitialGeometry(size, rawLength, rawCapacity), if rawLength > 262144 then 18 else k);
  }

  /** Every fourth attempt halves the segment length, keeping the capacity. */
  function Halve(g: Geometry): Geometry
    requires g.Valid() && g.segmentLength >= 2
  {
    HalveFits(g);
    Geometry(g.segmentLength / 2, g.segmentLength / 2 - 1, g.segmentCount * 2 + 2,
             (g.segmentCount * 2 + 2) * (g.segmentLength / 2))
  }

  function Restore(g: Geometry): Geometry
    requires g.segmentLength * 2 < TWO32 && g.segmentLength >= 1 && g.segmentCount >= 2
    requires (g.segmentCount / 2 - 1) * (g.segmentLength * 2) < TWO32
  {
    Geometry(g.segmentLength * 2, g.segmentLength * 2 - 1, g.segmentCount / 2 - 1,
             (g.segmentCount / 2 - 1) * (g.segmentLength * 2))
  }

  lemma HalfProduct(c: nat, n: nat)
    ensures (c * 2 + 2) * n == c * (2 * n) + 2 * n
    ensures n >= 1 ==> c * 2 + 2 <= (c * 2 + 2) * n
  {
  }

  lemma HalveFits(g: Geometry)
    requires g.Valid() && g.segmentLength >= 2
    ensures g.segmentLength % 2 == 0
    ensures (g.segmentCount * 2 + 2) * (g.segmentLength / 2) == g.segmentCountLength + g.segmentLength < TWO32
    ensures g.segmentCount * 2 + 2 < TWO32
  {
    var k: nat :| g.segmentLength == Pow2(k);
    var n := Pow2(k - 1);
    assert g.segmentLength == 2 * n;
    hide Pow2;
    ValidProducts(g);
    HalfProduct(g.segmentCount, n);
  }

  /** Halving keeps the invariants and the capacity; restoring undoes it. */
  lemma HalveRestore(g: Geometry)
    requires g.Valid() && g.segmentLength >= 2
    ensures Halve(g).Valid() && Halve(g).Capacity() == g.Capacity()
    ensures Restore(Halve(g)) == g
  {
    var k: nat :| g.segmentLength == Pow2(k);
    assert k > 0 && g.segmentLength / 2 == Pow2(k - 1);
    hide Pow2;
    ValidProducts(g);
    HalveFits(g);
    var c, n := g.segmentCount, g.segmentLength / 2;
    HalfProduct(c, n);
    assert 2 * n == g.segmentLength && (c * 2 + 2) / 2 - 1 == c;
    ProductValid(Halve(g), k - 1);
  }

  /** `prune_duplicates`: sorted, each key once. */
  function Prune(keys: seq<u64>): (r: seq<u64>)
    ensures forall k :: k in keys <==> k in r
    ensures forall i, j :: 0 <= i < j < |r| ==> r[i] < r[j]
    ensures |r| <= |keys|
  {
    if |keys| == 0 then [] else Insert(Prune(keys[1..]), keys[0])
  }

  function Insert(sorted: seq<u64>, k: u64): (r: seq<u64>)
    requires forall i, j :: 0 <= i < j < |sorted| ==> sorted[i] < sorted[j]
    ensures forall i, j :: 0 <= i < j < |r| ==> r[i] < r[j]
    ensures forall x :: x in r <==> x == k || x in sorted
    ensures |r| <= |sorted| + 1
  {
    if |sorted| == 0 || k < sorted[0] then [k] + sorted
    else if k == sorted[0] then sorted
    else
      var rest := Insert(sorted[1..], k);
      assert forall i :: 0 <= i < |rest| ==> sorted[0] < rest[i] by {
        forall i | 0 <= i < |rest| ensures sorted[0] < rest[i] {
          assert rest[i] in rest;
        }
      }
      [sorted[0]] + rest
  }

  /** The working arrays are ready for an attempt: no hash placed, no cell loaded. */
  ghost predicate Clean(order: array<u64>, size: nat, t2count: array<u8>, t2hash: array<u64>)
    reads order, t2count, t2hash
  {
    && order.Length == size + 1 && order[size] == 1
    && (forall p :: 0 <= p < size ==> order[p] == 0)
    && t2count.Length == t2hash.Length
    && forall c :: 0 <= c < t2count.Length ==> t2count[c] == 0 && t2hash[c] == 0
  }

  /** Zeroes the working arrays between attempts; the sentinel stays. */
  method Reset(order: array<u64>, size: nat, t2count: array<u8>, t2hash: array<u64>)
    requires order as object != t2count && order != t2hash && t2count as object != t2hash
    requires order.Length == size + 1 && order[size] == 1 && t2count.Length == t2hash.Length
    modifies order, t2count, t2hash
    ensures Clean(order, size, t2count, t2hash)
  {
    forall p | 0 <= p < size {
      order[p] := 0;
    }
    forall c | 0 <= c < t2count.Length {
      t2count[c] := 0;
    }
    forall c | 0 <= c < t2hash.Length {
      t2hash[c] := 0;
    }
  }

  /** The hash of every key is among the first `stacked` stacked hashes. */
  ghost predicate AllStacked(keys: seq<u64>, seed: u64, mix: Mix, stack: seq<u64>)
  {
    forall k :: k in keys ==> mix(k, seed) in stack
  }

  /** Slots that hold the hashes of the keys, padded with zeros. */
  ghost predicate Arranged(keys: seq<u64>, seed: u64, mix: Mix, slots: seq<u64>)
  {
    |keys| <= |slots| && HoldsPadded(slots, Hashes(keys, seed, mix))
  }

  /** Slots for as many distinct hashes as there are keys are those hashes in some order. */
  lemma ArrangedDistinct(keys: seq<u64>, seed: u64, mix: Mix, slots: seq<u64>)
    requires Arranged(keys, seed, mix, slots) && |keys| == |slots| && Distinct(Hashes(keys, seed, mix))
    ensures Distinct(slots) && Elements(slots) == Elements(Hashes(keys, seed, mix))
  {
    hide Distinct;
    var hashes := Hashes(keys, seed, mix);
    assert multiset(slots) == multiset(hashes) by {
      PaddedFull(slots, hashes);
    }
    SameMultiset(slots, hashes);
  }

  /** Slots hold every hash, and besides at most the padding. */
  lemma ArrangedElements(keys: seq<u64>, seed: u64, mix: Mix, slots: seq<u64>)
    requires Arranged(keys, seed, mix, slots)
    ensures Elements(Hashes(keys, seed, mix)) <= Elements(slots) <= Elements(Hashes(keys, seed, mix)) + {0}
  {
    hide HoldsPadded, Hashes;
    var hashes := Hashes(keys, seed, mix);
    forall h | h in hashes ensures h in slots {
      PaddedContains(slots, hashes, h);
    }
    forall h | h in slots ensures h in hashes || h == 0 {
      PaddedOnly(slots, hashes, h);
    }
  }

  /** The attempt on these slots comes out well. */
  ghost predicate Works(g: Geometry, slots: seq<u64>)
  {
    Solvable(IndexOf(g), Kept(IndexOf(g), slots), g.Capacity())
  }

  /** The hashes of the keys, as a set, can be built into a filter of this geometry. */
  ghost predicate CanBuild(keys: seq<u64>, seed: u64, mix: Mix, g: Geometry)
  {
    Buildable(IndexOf(g), Elements(Hashes(keys, seed, mix)), g.Capacity())
  }

  /** For distinct hashes and no padding, the set of hashes decides. */
  lemma WorksExactly(keys: seq<u64>, seed: u64, mix: Mix, g: Geometry, slots: seq<u64>)
    requires Arranged(keys, seed, mix, slots) && |keys| == |slots| && Distinct(Hashes(keys, seed, mix))
    ensures Works(g, slots) <==> CanBuild(keys, seed, mix, g)
  {
    hide Solvable, Buildable, Kept, Distinct, Elements, IndexOf, Arranged;
    ArrangedDistinct(keys, seed, mix, slots);
    KeptSolvable(IndexOf(g), slots, g.Capacity());
  }

  /** In any case it must be possible. */
  lemma WorksOnly(keys: seq<u64>, seed: u64, mix: Mix, g: Geometry, slots: seq<u64>)
    requires Arranged(keys, seed, mix, slots) && Works(g, slots)
    ensures CanBuild(keys, seed, mix, g)
  {
    hide Solvable, Buildable, Kept, Distinct, Elements, IndexOf, Arranged;
    ArrangedElements(keys, seed, mix, slots);
    KeptSolvable(IndexOf(g), slots, g.Capacity());
    BuildablePart(IndexOf(g), Elements(Hashes(keys, seed, mix)), Elements(slots), g.Capacity());
  }

  /** One construction attempt with a given seed and geometry: place, fill, peel. It succeeds exactly
      if what the fill pass keeps of the slots fits the counters and can be peeled. For distinct hashes
      without padding that is a matter of the set of hashes alone. */
  method Attempt(keys: seq<u64>, seed: u64, mix: Mix, g: Geometry, size: nat, alone: array<u32>,
                 t2count: array<u8>, t2hash: array<u64>, order: array<u64>, reverseH: array<u8>)
    returns (success: bool, error: bool, stacked: nat, duplicates: nat, ghost slots: seq<u64>)
    requires g.Valid() && g.segmentLength >= 2 && Separate(t2count, t2hash, alone, order, reverseH)
    requires t2count.Length == t2hash.Length == alone.Length == g.Capacity()
    requires |keys| <= size == reverseH.Length < TWO32 - 1
    requires Clean(order, size, t2count, t2hash)
    modifies alone, t2count, t2hash, order, reverseH
    ensures order[size] == 1 && stacked <= size
    ensures success ==> PeelOrder(IndexOf(g), order[..stacked], reverseH[..stacked])
    ensures success ==> AllStacked(keys, seed, mix, order[..stacked])
    ensures |slots| == size && Arranged(keys, seed, mix, slots)
    ensures success <==> Works(g, slots)
    ensures error <==> Overfull(IndexOf(g), Kept(IndexOf(g), slots), g.Capacity())
    ensures |keys| == size && Distinct(Hashes(keys, seed, mix)) ==> (success <==> CanBuild(keys, seed, mix, g))
  {
    hide PeelOrder, TableIs, IndexOf, Below, HoldsPadded, Hashes, Stuck, Overfull, Kept, KeepsStuck, Distinct,
      CanBuild, Works;
    CountFits(g);
    var bits := BlockBits(g.segmentCount);
    Place(keys, seed, mix, order, size, bits);
    slots := order[..size];
    stacked := 0;
    ghost var retained;
    error, duplicates, retained := Fill(g, t2count, t2hash, order, size);
    if error {
      success := false;
      OverfullFails(g, slots);
    } else {
      ghost var live;
      stacked, live := Peel(g, t2count, t2hash, alone, order, reverseH, retained);
      success := stacked + duplicates == size;
      RemainderDecides(g, slots, live);
      if success {
        AllHashesStacked(keys, seed, mix, slots, retained, order[..stacked]);
      }
    }
    if |keys| == size && Distinct(Hashes(keys, seed, mix)) {
      WorksExactly(keys, seed, mix, g, slots);
    }
  }

  lemma OverfullFails(g: Geometry, slots: seq<u64>)
    requires Overfull(IndexOf(g), Kept(IndexOf(g), slots), g.Capacity())
    ensures !Works(g, slots)
  {
    hide Overfull, IndexOf, Kept;
  }

  /** Peeling leaves nothing exactly if everything can be peeled. */
  lemma RemainderDecides(g: Geometry, slots: seq<u64>, live: set<nat>)
    requires !Overfull(IndexOf(g), Kept(IndexOf(g), slots), g.Capacity())
    requires Stuck(IndexOf(g), Kept(IndexOf(g), slots), live, g.Capacity())
    requires KeepsStuck(IndexOf(g), Kept(IndexOf(g), slots), live, g.Capacity())
    ensures Works(g, slots) <==> live == {}
  {
    hide Overfull, IndexOf, Kept, Stuck;
  }

  lemma CountFits(g: Geometry)
    requires g.Valid() && g.segmentLength >= 2
    ensures g.segmentCount <= 0x8000_0000
  {
    var c, n := g.segmentCount, g.segmentLength;
    ValidProducts(g);
    ProductAtLeast(c, n - 1);
    assert c * n == c * (n - 1) + c;
  }

  /** Placed, retained and stacked: the chain that carries a key's hash onto the stack. */
  lemma AllHashesStacked(keys: seq<u64>, seed: u64, mix: Mix, slots: seq<u64>, retained: seq<u64>, stack: seq<u64>)
    requires HoldsPadded(slots, Hashes(keys, seed, mix)) && |keys| <= |slots|
    requires forall k :: 0 <= k < |slots| ==> slots[k] in retained
    requires forall h :: h in retained ==> h in stack
    ensures AllStacked(keys, seed, mix, stack)
  {
    hide HoldsPadded;
    forall k | k in keys ensures mix(k, seed) in stack {
      var i :| 0 <= i < |keys| && keys[i] == k;
      var h: u64 := Hashes(keys, seed, mix)[i];
      assert h in Hashes(keys, seed, mix);
      PaddedContains(slots, Hashes(keys, seed, mix), h);
    }
  }

  /** The random number generator: a new counter and the seed drawn. */
  type Rng = u64 -> (u64, u64)

  /** The draw for the attempt after `n` others. */
  function Draw(rng: Rng, n: nat): (u64, u64)
  {
    if n == 0 then rng(1) else rng(Draw(rng, n - 1).0)
  }

  /** The geometry in force after `iterations` attempts for `size` keys. */
  function CurrentGeometry(g: Geometry, size: nat, iterations: nat): Geometry
    requires g.Valid() && g.segmentLength >= 4
  {
    if 4 < size < 1_000_000 && iterations % 4 == 2 then Halve(g) else g
  }

  lemma CurrentGeometryValid(g: Geometry, size: nat, iterations: nat)
    requires g.Valid() && g.segmentLength >= 4
    ensures var c := CurrentGeometry(g, size, iterations);
            c.Valid() && c.segmentLength >= 2 && c.Capacity() == g.Capacity()
  {
    hide Pow2;
    HalveRestore(g);
    HalveFits(g);
  }

  /** The `iterations % 4` step: halve on 2, restore on 3, otherwise keep. */
  method Resize(ghost base: Geometry, g: Geometry, size: nat, iterations: nat) returns (g': Geometry)
    requires base.Valid() && base.segmentLength >= 4 && iterations >= 1
    requires g == CurrentGeometry(base, size, iterations - 1)
    ensures g' == CurrentGeometry(base, size, iterations)
  {
    hide Pow2, Halve, Restore;
    HalveRestore(base);
    RestoreFits(base);
    BeforeMod4(iterations);
    g' := g;
    if 4 < size < 1_000_000 {
      if iterations % 4 == 2 {
        g' := Halve(g);
      } else if iterations % 4 == 3 {
        g' := Restore(g);
      }
    }
  }

  lemma BeforeMod4(i: nat)
    requires i >= 1
    ensures (i - 1) % 4 == 2 <==> i % 4 == 3
  {
  }

  lemma RestoreFits(base: Geometry)
    requires base.Valid() && base.segmentLength >= 4
    ensures var g := Halve(base);
            && g.segmentLength * 2 < TWO32 && g.segmentLength >= 1 && g.segmentCount >= 2
            && (g.segmentCount / 2 - 1) * (g.segmentLength * 2) < TWO32
  {
    hide Pow2;
    HalveFits(base);
    assert 2 * (base.segmentLength / 2) == base.segmentLength;
    assert (base.segmentCount * 2 + 2) / 2 - 1 == base.segmentCount;
  }

  /** A stack that lets every key be looked up: the outcome of a successful search. */
  ghost predicate Ready(keys: seq<u64>, seed: u64, mix: Mix, g: Geometry, stack: seq<u64>, roles: seq<u8>)
  {
    && g.Valid() && PeelOrder(IndexOf(g), stack, roles) && AllStacked(keys, seed, mix, stack)
  }

  lemma ReadyForFewer(input: seq<u64>, keys: seq<u64>, seed: u64, mix: Mix, g: Geometry,
                      stack: seq<u64>, roles: seq<u8>)
    requires Ready(keys, seed, mix, g, stack, roles) && forall k :: k in input ==> k in keys
    ensures Ready(input, seed, mix, g, stack, roles)
  {
  }

  /** Slots that an attempt may have to deal with: the hashes of all keys, or of the keys without
      their repeats, in as many slots as there were keys. */
  ghost predicate SlotsFor(input: seq<u64>, seed: u64, mix: Mix, slots: seq<u64>)
  {
    |slots| == |input| && (Arranged(input, seed, mix, slots) || Arranged(Prune(input), seed, mix, slots))
  }

  /** An attempt with this seed and geometry came out well, or not. */
  ghost predicate Attempted(input: seq<u64>, seed: u64, mix: Mix, g: Geometry, works: bool)
  {
    exists slots: seq<u64> :: SlotsFor(input, seed, mix, slots) && Works(g, slots) == works
  }

  /** Keys without repeats give the same hashes, and as many if there were none. */
  lemma PrunedHashes(input: seq<u64>, seed: u64, mix: Mix)
    ensures Elements(Hashes(Prune(input), seed, mix)) == Elements(Hashes(input, seed, mix))
  {
    hide Prune;
    var pruned := Prune(input);
    SameHashes(input, pruned, seed, mix);
    SameHashes(pruned, input, seed, mix);
  }

  lemma SameHashes(a: seq<u64>, b: seq<u64>, seed: u64, mix: Mix)
    requires forall k :: k in a ==> k in b
    ensures Elements(Hashes(a, seed, mix)) <= Elements(Hashes(b, seed, mix))
  {
    forall h | h in Hashes(a, seed, mix) ensures h in Hashes(b, seed, mix) {
      var i :| 0 <= i < |a| && Hashes(a, seed, mix)[i] == h;
      assert a[i] in b;
      var j :| 0 <= j < |b| && b[j] == a[i];
      assert Hashes(b, seed, mix)[j] == h;
    }
  }

  lemma PrunedDistinct(input: seq<u64>, seed: u64, mix: Mix)
    requires Distinct(input) && Distinct(Hashes(input, seed, mix))
    ensures |Prune(input)| == |input| && Distinct(Hashes(Prune(input), seed, mix))
  {
    hide Prune, Hashes;
    var pruned := Prune(input);
    assert Distinct(pruned);
    assert Elements(pruned) == Elements(input);
    DistinctSize(pruned);
    DistinctSize(input);
    PrunedHashes(input, seed, mix);
    FullSizeDistinct(Hashes(pruned, seed, mix), Hashes(input, seed, mix));
  }

  /** As many hashes with as many different ones are distinct. */
  lemma FullSizeDistinct(a: seq<u64>, b: seq<u64>)
    requires |a| == |b| && Elements(a) == Elements(b) && Distinct(b)
    ensures Distinct(a)
  {
    DistinctSize(b);
    if !Distinct(a) {
      ShortOfElements(a);
    }
  }

  /** What an attempt tells about the hashes: success that they can be built into a filter; failure,
      if keys and hashes are distinct, that they cannot. */
  lemma AttemptedMeans(input: seq<u64>, seed: u64, mix: Mix, g: Geometry, works: bool)
    requires Attempted(input, seed, mix, g, works)
    ensures works ==> CanBuild(input, seed, mix, g)
    ensures !works && Distinct(input) && Distinct(Hashes(input, seed, mix)) ==> !CanBuild(input, seed, mix, g)
  {
    hide Works, Prune, Hashes, Distinct, Buildable, IndexOf, Arranged;
    var slots: seq<u64> :| SlotsFor(input, seed, mix, slots) && Works(g, slots) == works;
    var keys := if Arranged(input, seed, mix, slots) then input else Prune(input);
    PrunedHashes(input, seed, mix);
    if works {
      WorksOnly(keys, seed, mix, g, slots);
    } else if Distinct(input) && Distinct(Hashes(input, seed, mix)) {
      PrunedDistinct(input, seed, mix);
      WorksExactly(keys, seed, mix, g, slots);
    }
  }

  /** The attempt of one iteration came out well, or not. */
  ghost predicate AttemptedAt(input: seq<u64>, base: Geometry, mix: Mix, rng: Rng, i: nat, works: bool)
    requires base.Valid() && base.segmentLength >= 4 && i >= 1
  {
    Attempted(input, Draw(rng, i - 1).1, mix, CurrentGeometry(base, |input|, i), works)
  }

  ghost predicate CanBuildAt(input: seq<u64>, base: Geometry, mix: Mix, rng: Rng, i: nat)
    requires base.Valid() && base.segmentLength >= 4 && i >= 1
  {
    CanBuild(input, Draw(rng, i - 1).1, mix, CurrentGeometry(base, |input|, i))
  }

  ghost predicate DistinctAt(input: seq<u64>, mix: Mix, rng: Rng, i: nat)
    requires i >= 1
  {
    Distinct(input) && Distinct(Hashes(input, Draw(rng, i - 1).1, mix))
  }

  lemma AttemptedAtMeans(input: seq<u64>, base: Geometry, mix: Mix, rng: Rng, i: nat, works: bool)
    requires base.Valid() && base.segmentLength >= 4 && i >= 1 && AttemptedAt(input, base, mix, rng, i, works)
    ensures works ==> CanBuildAt(input, base, mix, rng, i)
    ensures !works && DistinctAt(input, mix, rng, i) ==> !CanBuildAt(input, base, mix, rng, i)
  {
    hide Attempted, CanBuild, CurrentGeometry, Draw, Distinct;
    AttemptedMeans(input, Draw(rng, i - 1).1, mix, CurrentGeometry(base, |input|, i), works);
  }

  /** Attempts with fresh seeds, segment lengths halved every fourth time and repeated keys
      pruned once seen, until one succeeds or the iteration limit is passed. */
  method Search(input: seq<u64>, base: Geometry, mix: Mix, rng: Rng, alone: array<u32>,
                t2count: array<u8>, t2hash: array<u64>, order: array<u64>, reverseH: array<u8>)
    returns (found: bool, seed: u64, g: Geometry, stacked: nat, iterations: nat)
    requires base.Valid() && base.segmentLength >= 4 && Separate(t2count, t2hash, alone, order, reverseH)
    requires t2count.Length == t2hash.Length == alone.Length == base.Capacity()
    requires |input| == reverseH.Length < TWO32 - 1
    requires Clean(order, |input|, t2count, t2hash)
    modifies alone, t2count, t2hash, order, reverseH
    ensures stacked <= |input| && g.Capacity() == base.Capacity()
    ensures found ==> Ready(input, seed, mix, g, order[..stacked], reverseH[..stacked])
    ensures found <==> iterations <= MAX_ITERATIONS
    ensures iterations >= 1 && forall i :: 1 <= i < iterations ==> AttemptedAt(input, base, mix, rng, i, false)
    ensures found ==> AttemptedAt(input, base, mix, rng, iterations, true)
    ensures found ==> seed == Draw(rng, iterations - 1).1 && g == CurrentGeometry(base, |input|, iterations)
  {
    hide PeelOrder, IndexOf, Pow2, Prune, CurrentGeometry, AllStacked, Draw, AttemptedAt, Overfull, Kept, Works,
      CanBuild, Arranged, Distinct;
    var keys, size := input, |input|;
    g := base;
    var counter: u64;
    var draw := rng(1);
    counter, seed := draw.0, draw.1;
    iterations := 0;
    stacked := 0;
    StartGeometry(base, size);
    NextDraw(rng, 0);
    while true
      invariant 0 <= iterations <= MAX_ITERATIONS
      invariant g == CurrentGeometry(base, size, iterations) && g.Capacity() == base.Capacity()
      invariant |keys| <= size && (keys == input || keys == Prune(input)) && forall k :: k in input <==> k in keys
      invariant (counter, seed) == Draw(rng, iterations)
      invariant forall i :: 1 <= i <= iterations ==> AttemptedAt(input, base, mix, rng, i, false)
      invariant Clean(order, size, t2count, t2hash)
      decreases MAX_ITERATIONS - iterations
    {
      iterations := iterations + 1;
      if iterations > MAX_ITERATIONS {
        return false, seed, g, 0, iterations;
      }
      g := Resize(base, g, size, iterations);
      CurrentGeometryValid(base, size, iterations);
      var success, error, duplicates;
      ghost var slots;
      success, error, stacked, duplicates, slots :=
        Attempt(keys, seed, mix, g, size, alone, t2count, t2hash, order, reverseH);
      AttemptAt(keys, input, base, mix, rng, iterations, slots);
      if success {
        ReadyForFewer(input, keys, seed, mix, g, order[..stacked], reverseH[..stacked]);
        return true, seed, g, stacked, iterations;
      }
      NextDraw(rng, iterations);
      if !error && duplicates > 0 {
        PruneTwice(input);
        keys := Prune(keys);
      }
      Reset(order, size, t2count, t2hash);
      draw := rng(counter);
      counter, seed := draw.0, draw.1;
    }
  }

  /** An attempt on the keys or on those without repeats counts for the input. */
  lemma AttemptAt(keys: seq<u64>, input: seq<u64>, base: Geometry, mix: Mix, rng: Rng, i: nat, slots: seq<u64>)
    requires base.Valid() && base.segmentLength >= 4 && i >= 1 && (keys == input || keys == Prune(input))
    requires Arranged(keys, Draw(rng, i - 1).1, mix, slots) && |slots| == |input|
    ensures AttemptedAt(input, base, mix, rng, i, Works(CurrentGeometry(base, |input|, i), slots))
  {
    hide Arranged, CurrentGeometry, Draw, Works, Prune;
    assert SlotsFor(input, Draw(rng, i - 1).1, mix, slots);
  }

  /** Pruning again changes nothing. */
  lemma PruneTwice(keys: seq<u64>)
    ensures Prune(Prune(keys)) == Prune(keys)
  {
    PruneSorted(Prune(keys));
  }

  lemma {:induction false} PruneSorted(keys: seq<u64>)
    requires forall i, j :: 0 <= i < j < |keys| ==> keys[i] < keys[j]
    ensures Prune(keys) == keys
  {
    if |keys| > 0 {
      PruneSorted(keys[1..]);
      assert keys == [keys[0]] + keys[1..];
    }
  }

  lemma NextDraw(rng: Rng, n: nat)
    ensures n >= 1 ==> Draw(rng, n) == rng(Draw(rng, n - 1).0)
    ensures Draw(rng, 0) == rng(1)
  {
  }

  lemma StartGeometry(base: Geometry, size: nat)
    requires base.Valid() && base.segmentLength >= 4
    ensures CurrentGeometry(base, size, 0) == base
  {
  }

  /** Solved stacked hashes make every key a member. */
  lemma SolvedContains(keys: seq<u64>, mix: Mix, f: Filter, stack: seq<u64>)
    requires f.Valid() && AllStacked(keys, f.seed, mix, stack)
    requires forall k :: 0 <= k < |stack| ==> Solved(f.fingerprints, IndexOf(f.geometry), stack[k])
    ensures forall k :: k in keys ==> Contains(f, mix, k)
  {
    hide Xor, Cells, IndexOf, Fingerprint;
    forall k | k in keys ensures Contains(f, mix, k) {
      var hash: u64 := mix(k, f.seed);
      var i :| 0 <= i < |stack| && stack[i] == hash;
      XorSelf(Fingerprint(hash));
    }
  }

  /** The iteration that a filter comes from: the first whose attempt came out well. */
  ghost predicate BuiltAt(input: seq<u64>, base: Geometry, mix: Mix, rng: Rng, f: Filter, i: nat)
  {
    && base.Valid() && base.segmentLength >= 4 && 1 <= i <= MAX_ITERATIONS
    && f.seed == Draw(rng, i - 1).1 && f.geometry == CurrentGeometry(base, |input|, i)
    && AttemptedAt(input, base, mix, rng, i, true) && CanBuildAt(input, base, mix, rng, i)
    && forall j :: 1 <= j < i ==> AttemptedAt(input, base, mix, rng, j, false)
  }

  /** Every attempt failed; where keys and hashes are distinct, there is no filter to be built. */
  ghost predicate Exhausted(input: seq<u64>, base: Geometry, mix: Mix, rng: Rng)
  {
    && base.Valid() && base.segmentLength >= 4
    && forall i :: 1 <= i <= MAX_ITERATIONS ==>
                     && AttemptedAt(input, base, mix, rng, i, false)
                     && (DistinctAt(input, mix, rng, i) ==> !CanBuildAt(input, base, mix, rng, i))
  }

  /** In some iteration the hashes can be built into a filter. */
  ghost predicate SomeCanBuild(input: seq<u64>, base: Geometry, mix: Mix, rng: Rng)
  {
    && base.Valid() && base.segmentLength >= 4
    && exists i :: 1 <= i <= MAX_ITERATIONS && CanBuildAt(input, base, mix, rng, i)
  }

  ghost predicate AllDistinct(input: seq<u64>, mix: Mix, rng: Rng)
  {
    forall i :: 1 <= i <= MAX_ITERATIONS ==> DistinctAt(input, mix, rng, i)
  }

  /** An empty or one-key input is built in the first iteration, whatever the hash functions. */
  lemma FewKeysBuild(input: seq<u64>, base: Geometry, mix: Mix, rng: Rng)
    requires |input| <= 1 && base.Valid() && base.segmentLength >= 4
    ensures AllDistinct(input, mix, rng) && SomeCanBuild(input, base, mix, rng)
  {
    hide Draw, CurrentGeometry, Buildable, Cells;
    var seed: u64, g := Draw(rng, 0).1, CurrentGeometry(base, |input|, 1);
    CurrentGeometryValid(base, |input|, 1);
    var hashes := Elements(Hashes(input, seed, mix));
    FewElements(Hashes(input, seed, mix));
    forall h | h in hashes ensures ProperTriple(IndexOf(g)(h), g.Capacity()) {
      CellsProper(g, h);
    }
    OneBuilds(IndexOf(g), hashes, g.Capacity());
    assert CanBuildAt(input, base, mix, rng, 1);
  }

  lemma NoneBuilds(input: seq<u64>, base: Geometry, mix: Mix, rng: Rng)
    requires Exhausted(input, base, mix, rng)
    ensures AllDistinct(input, mix, rng) ==> !SomeCanBuild(input, base, mix, rng)
    ensures |input| > 1
  {
    hide AttemptedAt, CanBuildAt, DistinctAt;
    if |input| <= 1 {
      FewKeysBuild(input, base, mix, rng);
    }
  }

  /** `build`. Whatever the keys (repeated, or hashing to zero) and whatever the hash functions,
      a filter that is returned contains every key. It comes from the first attempt that came out well;
      for distinct keys with distinct hashes there is one exactly if in one of the iterations the set of
      hashes can be built into a filter at all. */
  method Build(input: seq<u64>, rawLength: u32, rawCapacity: u32, mix: Mix, rng: Rng) returns (r: BuildResult)
    requires |input| < TWO32 - 1 && rawCapacity + 0xC_0000 < TWO32
    requires exists k: nat :: k >= 2 && rawLength == Pow2(k)
    ensures r.Ok? ==> r.filter.Valid() && forall k :: k in input ==> Contains(r.filter, mix, k)
    ensures var base := InitialGeometry(|input|, rawLength, rawCapacity);
            && (r.Ok? ==> exists i :: BuiltAt(input, base, mix, rng, r.filter, i))
            && (r.TooManyIterations? ==> Exhausted(input, base, mix, rng))
            && (AllDistinct(input, mix, rng) ==> (r.Ok? <==> SomeCanBuild(input, base, mix, rng)))
    ensures |input| <= 1 ==> r.Ok?
    ensures |input| == 0 ==> AllZero(r.filter.fingerprints)
  {
    hide PeelOrder, IndexOf, Pow2, Contains, InitialGeometry, AllStacked, Solved, AllDistinct, AttemptedAt, CanBuildAt, DistinctAt,
      Draw, CurrentGeometry;
    InitialGeometryValid(|input|, rawLength, rawCapacity);
    var base := InitialGeometry(|input|, rawLength, rawCapacity);
    var capacity := base.Capacity();
    var alone := new u32[capacity](_ => 0);
    var t2count := new u8[capacity](_ => 0);
    var reverseH := new u8[|input|](_ => 0);
    var t2hash := new u64[capacity](_ => 0);
    var order := new u64[|input| + 1](_ => 0);
    order[|input|] := 1;
    var found, seed, g, stacked, iterations := Search(input, base, mix, rng, alone, t2count, t2hash, order, reverseH);
    if !found {
      forall i | 1 <= i <= MAX_ITERATIONS
        ensures DistinctAt(input, mix, rng, i) ==> !CanBuildAt(input, base, mix, rng, i)
      {
        AttemptedAtMeans(input, base, mix, rng, i, false);
      }
      NoneBuilds(input, base, mix, rng);
      return TooManyIterations;
    }
    AttemptedAtMeans(input, base, mix, rng, iterations, true);
    var fingerprints := new u16[capacity](_ => 0);
    Assign(g, fingerprints, order, reverseH, stacked);
    r := Ok(Filter(seed, g, fingerprints[..]));
    assert BuiltAt(input, base, mix, rng, r.filter, iterations);
    SolvedContains(input, mix, r.filter, order[..stacked]);
  }

  /** With the filter's own hash functions distinct keys have distinct hashes. */
  lemma MixDistinct(keys: seq<u64>)
    requires Distinct(keys)
    ensures AllDistinct(keys, MixSplit, SplitMix64)
  {
    hide MixSplit, SplitMix64, Draw;
    forall i | 1 <= i <= MAX_ITERATIONS ensures DistinctAt(keys, MixSplit, SplitMix64, i) {
      var seed: u64 := Draw(SplitMix64, i - 1).1;
      forall a, b | 0 <= a < b < |keys| ensures Hashes(keys, seed, MixSplit)[a] != Hashes(keys, seed, MixSplit)[b] {
        if MixSplit(keys[a], seed) == MixSplit(keys[b], seed) {
          MixInjective(keys[a], keys[b], seed);
        }
      }
    }
  }

  /** `BinaryFuse16::new`: construction with the filter's own hash functions. For distinct keys it
      succeeds exactly if in one of the iterations the set of hashes can be built into a filter. */
  method New(keys: seq<u64>, rawLength: u32, rawCapacity: u32) returns (r: BuildResult)
    requires |keys| < TWO32 - 1 && rawCapacity + 0xC_0000 < TWO32
    requires exists k: nat :: k >= 2 && rawLength == Pow2(k)
    ensures r.Ok? ==> r.filter.Valid() && forall k :: k in keys ==> Contains(r.filter, MixSplit, k)
    ensures var base := InitialGeometry(|keys|, rawLength, rawCapacity);
            && (r.Ok? ==> exists i :: BuiltAt(keys, base, MixSplit, SplitMix64, r.filter, i))
            && (r.TooManyIterations? ==> Exhausted(keys, base, MixSplit, SplitMix64))
            && (Distinct(keys) ==> (r.Ok? <==> SomeCanBuild(keys, base, MixSplit, SplitMix64)))
    ensures |keys| <= 1 ==> r.Ok?
    ensures |keys| == 0 ==> AllZero(r.filter.fingerprints)
  {
    if Distinct(keys) {
      MixDistinct(keys);
    }
    hide Contains, MixSplit, SplitMix64, Pow2, InitialGeometry, BuiltAt, Exhausted, SomeCanBuild, AllDistinct;
    r := Build(keys, rawLength, rawCapacity, MixSplit, SplitMix64);
  }
}
