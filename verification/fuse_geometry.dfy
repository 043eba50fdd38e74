/** Segment geometry of the binary fuse filter: where a hash's three cells lie, and the
    branch-free recomputation of two of them from the third. */
module FuseGeometry {
  import opened Bits

  /** The geometry fields of `BinaryFuse16`. */
  datatype Geometry = Geometry(
    segmentLength: u32,
    segmentLengthMask: u32,
    segmentCount: u32,
    segmentCountLength: u32)
  {
    /** The construction invariants: segments of `2^k` cells, and `segmentCount * 2^k`, written as
        a shift, for the cells a first index may have. The fingerprint array has `Capacity()` slots. */
    ghost predicate Valid() {
      && (exists k: nat :: segmentLength == Pow2(k) && segmentCountLength == Shl(segmentCount, k))
      && segmentLengthMask == segmentLength - 1
      && segmentCount >= 1
      && Capacity() < TWO32
    }

    function Capacity(): nat {
      segmentCountLength + 2 * segmentLength
    }
  }

  /** In a valid geometry the two products hold. */
  lemma ValidProducts(g: Geometry)
    requires g.Valid()
    ensures 0 < g.segmentCountLength == g.segmentCount * g.segmentLength
    ensures g.Capacity() == (g.segmentCount + 2) * g.segmentLength
  {
    var k: nat :| g.segmentLength == Pow2(k) && g.segmentCountLength == Shl(g.segmentCount, k);
    hide Pow2, Shl;
    ShlIsProduct(g.segmentCount, k);
  }

  /** The first of them makes a geometry valid. */
  lemma ProductValid(g: Geometry, k: nat)
    requires g.segmentLength == Pow2(k) && g.segmentLengthMask == g.segmentLength - 1 && g.segmentCount >= 1
    requires g.segmentCountLength == g.segmentCount * g.segmentLength && g.Capacity() < TWO32
    ensures g.Valid()
  {
    ShlIsProduct(g.segmentCount, k);
  }

  /** The three cells of a hash, in role order 0, 1, 2. */
  datatype Triple = Triple(c0: nat, c1: nat, c2: nat)

  function Pick(t: Triple, role: nat): nat
  {
    if role == 0 then t.c0 else if role == 1 then t.c1 else t.c2
  }

  /** The next role, cyclically. */
  function Next(role: nat): nat {
    if role == 0 then 1 else if role == 1 then 2 else 0
  }

  ghost predicate ProperTriple(t: Triple, capacity: nat)
  {
    && t.c0 < capacity && t.c1 < capacity && t.c2 < capacity
    && t.c0 != t.c1 && t.c1 != t.c2 && t.c0 != t.c2
  }

  /** High word of the 64x64 product: the first cell. */
  function FirstCell(g: Geometry, hash: u64): (r: nat)
  {
    hash * g.segmentCountLength / TWO64
  }

  lemma FirstCellBound(g: Geometry, hash: u64)
    requires g.segmentCountLength > 0
    ensures FirstCell(g, hash) < g.segmentCountLength
  {
    var s := g.segmentCountLength;
    assert hash * s <= (TWO64 - 1) * s;
  }

  /** Low bits selecting a place inside a segment. */
  function Offset(g: Geometry, word: u32): (r: u32)
  {
    And32(word, g.segmentLengthMask)
  }

  lemma OffsetIsMod(g: Geometry, word: u32)
    requires g.Valid()
    ensures Offset(g, word) == word % g.segmentLength < g.segmentLength
  {
    var k: nat :| g.segmentLength == Pow2(k);
    AndLowMask(k, word);
  }

  function Offset1(g: Geometry, hash: u64): u32 {
    Offset(g, hash / 0x4_0000 % TWO32)
  }

  function Offset2(g: Geometry, hash: u64): u32 {
    Offset(g, hash % TWO32)
  }

  /** `get_hash_from_hash`: the three fingerprint indexes of a hash. */
  function Cells(g: Geometry, hash: u64): (t: Triple)
    requires g.Valid()
  {
    ValidProducts(g);
    FirstCellBound(g, hash);
    var h0 := FirstCell(g, hash);
    Triple(h0,
           Xor32(h0 + g.segmentLength, Offset1(g, hash)),
           Xor32(h0 + 2 * g.segmentLength, Offset2(g, hash)))
  }

  /** Place `r` of segment `q`. */
  function At(g: Geometry, q: nat, r: nat): nat {
    q * g.segmentLength + r
  }

  lemma AtNext(g: Geometry, q: nat, r: nat)
    ensures At(g, q + 1, r) == At(g, q, r) + g.segmentLength
  {
  }

  /** Flipping offset bits stays inside the segment. */
  lemma AtXor(g: Geometry, q: nat, r: nat, s: nat)
    requires g.Valid() && r < g.segmentLength && s < g.segmentLength
    ensures Xor(At(g, q, r), s) == At(g, q, Xor(r, s))
    ensures Xor(r, s) < g.segmentLength
  {
    var k: nat :| g.segmentLength == Pow2(k);
    ShlIsProduct(q, k);
    XorLowBits(k, q, r, s);
    XorBound(k, r, s);
  }

  /** A hash's cells are one place in each of three consecutive segments. */
  ghost predicate Split(g: Geometry, hash: u64, q: nat, r: nat)
  {
    && q < g.segmentCount && r < g.segmentLength
    && Offset1(g, hash) < g.segmentLength && Offset2(g, hash) < g.segmentLength
    && FirstCell(g, hash) == At(g, q, r)
  }

  lemma SplitExists(g: Geometry, hash: u64) returns (q: nat, r: nat)
    requires g.Valid()
    ensures Split(g, hash, q, r)
  {
    hide FirstCell, Pow2;
    ValidProducts(g);
    FirstCellBound(g, hash);
    q, r := DivideUp(FirstCell(g, hash), g.segmentLength, g.segmentCount);
    OffsetIsMod(g, hash / 0x4_0000 % TWO32);
    OffsetIsMod(g, hash % TWO32);
  }

  lemma DivideUp(h: nat, n: nat, m: nat) returns (q: nat, r: nat)
    requires n > 0 && h < m * n
    ensures q < m && r < n && h == q * n + r
  {
    q, r := h / n, h % n;
    QuotientBound(h, n, m);
  }

  lemma CellsAt(g: Geometry, hash: u64, q: nat, r: nat)
    requires g.Valid() && Split(g, hash, q, r)
    ensures Cells(g, hash).c0 == At(g, q, r)
    ensures Cells(g, hash).c1 == At(g, q + 1, Xor(r, Offset1(g, hash)))
    ensures Cells(g, hash).c2 == At(g, q + 2, Xor(r, Offset2(g, hash)))
    ensures Xor(r, Offset1(g, hash)) < g.segmentLength && Xor(r, Offset2(g, hash)) < g.segmentLength
  {
    hide Xor, At, FirstCell;
    AtNext(g, q, r);
    AtNext(g, q + 1, r);
    AtXor(g, q + 1, r, Offset1(g, hash));
    AtXor(g, q + 2, r, Offset2(g, hash));
  }

  lemma QuotientBound(h: nat, n: nat, m: nat)
    requires n > 0 && h < m * n
    ensures h / n < m
  {
    var q := h / n;
    assert q * n <= h;
    assert q >= m ==> q * n >= m * n;
  }

  lemma SegmentDisjoint(n: nat, m: nat, q: nat, a: nat, b: nat, c: nat)
    requires q < m && a < n && b < n && c < n
    ensures ProperTriple(Triple(q * n + a, (q + 1) * n + b, (q + 2) * n + c), (m + 2) * n)
  {
    assert (q + 1) * n == q * n + n;
    assert (q + 2) * n == q * n + 2 * n;
    assert (q + 1) * n <= m * n;
    assert (m + 2) * n == m * n + 2 * n;
  }

  /** The three cells lie in consecutive segments, so they are distinct and in bounds. */
  lemma CellsProper(g: Geometry, hash: u64)
    requires g.Valid()
    ensures ProperTriple(Cells(g, hash), g.Capacity())
    ensures Cells(g, hash).c1 / g.segmentLength == Cells(g, hash).c0 / g.segmentLength + 1
    ensures Cells(g, hash).c2 / g.segmentLength == Cells(g, hash).c0 / g.segmentLength + 2
  {
    hide Cells, Xor, Pow2;
    var q, r := SplitExists(g, hash);
    CellsAt(g, hash, q, r);
    var n, t := g.segmentLength, Cells(g, hash);
    var b, c := Xor(r, Offset1(g, hash)), Xor(r, Offset2(g, hash));
    ValidProducts(g);
    SegmentDisjoint(n, g.segmentCount, q, r, b, c);
    ModOf(t.c0, q, r, n);
    ModOf(t.c1, q + 1, b, n);
    ModOf(t.c2, q + 2, c, n);
  }

  /** The peeling step's branch-free derivation of the other two cells, and their roles,
      from the cell `index` that the hash occupies in role `found`. */
  function OtherCells(g: Geometry, hash: u64, found: u8, index: u32): (r: (u32, u32, nat, nat))
    requires found < 3 && 2 * g.segmentLength < TWO32
  {
    var n := g.segmentLength;
    var toMinusTwo := Xor32(n, WrapNeg32(2 * n));
    var h01 := Offset1(g, hash);
    var h02 := Offset2(g, hash);
    var is0 := WrapNeg32(WrapSub8(found, 1) / 0x80);
    var is1 := WrapNeg32(And32(found, 1));
    var is2 := WrapNeg32(found / 2);
    var other1 := WrapAdd32(index, Xor32(n, And32(toMinusTwo, is2)));
    var other2 := WrapSub32(index, Xor32(n, And32(toMinusTwo, is0)));
    (Xor32(other1, Xor32(And32(h01, Not32(is2)), And32(h02, Not32(is0)))),
     Xor32(other2, Xor32(And32(h01, Not32(is0)), And32(h02, Not32(is1)))),
     Or(And(is0, 1), And(is1, 2)),
     Or(And(is0, 2), And(is2, 1)))
  }

  lemma MaskConstants(x: u32)
    ensures And32(x, 0) == 0 && And32(x, TWO32 - 1) == x
  {
    AndZero(x);
    Pow2Values();
    AndAllOnes(32, x);
  }

  lemma SmallAnds()
    ensures And(0, 1) == 0 && And(1, 1) == 1 && And(2, 1) == 0
    ensures And(TWO32 - 1, 1) == 1 && And(TWO32 - 1, 2) == 2
    ensures And(0, 2) == 0 && Or(1, 0) == 1 && Or(2, 0) == 2 && Or(0, 2) == 2 && Or(0, 0) == 0 && Or(0, 1) == 1
  {
    assert And(0x7FFF_FFFF, 1) == 1;
  }

  lemma FlipToMinusTwo(n: u32)
    requires 2 * n < TWO32
    ensures Xor32(n, Xor32(n, WrapNeg32(2 * n))) == WrapNeg32(2 * n)
    ensures Xor32(n, 0) == n
  {
    XorCancel(WrapNeg32(2 * n), n);
    XorZero(n);
  }

  /** The all-ones or zero masks for a role. */
  ghost predicate Masks(found: u8, is0: u32, is1: u32, is2: u32)
  {
    && is0 == (if found == 0 then TWO32 - 1 else 0)
    && is1 == (if found == 1 then TWO32 - 1 else 0)
    && is2 == (if found == 2 then TWO32 - 1 else 0)
  }

  lemma MasksComputed(found: u8)
    requires found < 3
    ensures Masks(found, WrapNeg32(WrapSub8(found, 1) / 0x80), WrapNeg32(And32(found, 1)), WrapNeg32(found / 2))
  {
    SmallAnds();
  }

  /** `seg_len ^ (flip & mask)` is the segment length, or minus twice it under the mask. */
  function Stride(n: u32, minus: bool): u32
    requires 2 * n < TWO32
  {
    if minus then WrapNeg32(2 * n) else n
  }

  lemma StrideComputed(n: u32, mask: u32)
    requires 2 * n < TWO32 && (mask == 0 || mask == TWO32 - 1)
    ensures Xor32(n, And32(Xor32(n, WrapNeg32(2 * n)), mask)) == Stride(n, mask != 0)
  {
    FlipToMinusTwo(n);
    MaskConstants(Xor32(n, WrapNeg32(2 * n)));
  }

  /** `(x & !p) ^ (y & !q)` for all-ones or zero masks. */
  lemma FlipsComputed(x: u32, y: u32, p: u32, q: u32)
    requires (p == 0 || p == TWO32 - 1) && (q == 0 || q == TWO32 - 1)
    ensures Xor32(And32(x, Not32(p)), And32(y, Not32(q))) ==
            if p == 0 && q == 0 then Xor32(x, y) else if p == 0 then x else if q == 0 then y else 0
  {
    MaskConstants(x);
    MaskConstants(y);
    XorZero(x);
    XorZero(y);
  }

  /** What the masks select for each role. */
  lemma OtherCellsByRole(g: Geometry, hash: u64, found: u8, index: u32)
    requires found < 3 && 2 * g.segmentLength < TWO32
    ensures var n, h1, h2 := g.segmentLength, Offset1(g, hash), Offset2(g, hash);
            OtherCells(g, hash, found, index) ==
            if found == 0 then
              (Xor32(WrapAdd32(index, n), h1), Xor32(WrapSub32(index, WrapNeg32(2 * n)), h2), 1, 2)
            else if found == 1 then
              (Xor32(WrapAdd32(index, n), Xor32(h1, h2)), Xor32(WrapSub32(index, n), h1), 2, 0)
            else
              (Xor32(WrapAdd32(index, WrapNeg32(2 * n)), h2), Xor32(WrapSub32(index, n), Xor32(h1, h2)), 0, 1)
  {
    hide Xor, And, Or, Offset1, Offset2, Xor32, And32, Not32, WrapNeg32, WrapSub8, WrapAdd32, WrapSub32;
    var n, h1, h2 := g.segmentLength, Offset1(g, hash), Offset2(g, hash);
    var is0, is1, is2 := WrapNeg32(WrapSub8(found, 1) / 0x80), WrapNeg32(And32(found, 1)), WrapNeg32(found / 2);
    MasksComputed(found);
    StrideComputed(n, is2);
    StrideComputed(n, is0);
    FlipsComputed(h1, h2, is2, is0);
    FlipsComputed(h1, h2, is0, is1);
    SmallAnds();
  }

  lemma AtBound(g: Geometry, q: nat, r: nat)
    requires g.Valid() && q < g.segmentCount && r < g.segmentLength
    ensures At(g, q + 2, r) < g.Capacity()
  {
    ValidProducts(g);
    SegmentDisjoint(g.segmentLength, g.segmentCount, q, r, r, r);
  }

  lemma WrapNeighbours(x: u32, n: u32)
    requires 2 * n < TWO32
    ensures x + n < TWO32 ==> WrapAdd32(x, n) == x + n
    ensures n <= x ==> WrapSub32(x, n) == x - n
    ensures 2 * n <= x ==> WrapAdd32(x, WrapNeg32(2 * n)) == x - 2 * n
    ensures x + 2 * n < TWO32 ==> WrapSub32(x, WrapNeg32(2 * n)) == x + 2 * n
  {
  }

  lemma XorThrough(r: nat, a: nat, b: nat)
    ensures Xor(Xor(r, a), Xor(a, b)) == Xor(r, b)
    ensures Xor(Xor(r, b), Xor(a, b)) == Xor(r, a)
  {
    XorAssoc(r, a, Xor(a, b));
    XorCancel(b, a);
    XorComm(a, b);
    XorAssoc(r, b, Xor(b, a));
    XorCancel(a, b);
  }

  /** Adding or subtracting strides moves between the segments of a hash. */
  lemma Moves(g: Geometry, q: nat, s: nat)
    requires g.Valid() && q < g.segmentCount && s < g.segmentLength
    ensures At(g, q, s) < TWO32 && At(g, q + 1, s) < TWO32 && At(g, q + 2, s) < TWO32
    ensures WrapAdd32(At(g, q, s), g.segmentLength) == At(g, q + 1, s)
    ensures WrapAdd32(At(g, q + 1, s), g.segmentLength) == At(g, q + 2, s)
    ensures WrapSub32(At(g, q + 1, s), g.segmentLength) == At(g, q, s)
    ensures WrapSub32(At(g, q + 2, s), g.segmentLength) == At(g, q + 1, s)
    ensures WrapSub32(At(g, q, s), WrapNeg32(2 * g.segmentLength)) == At(g, q + 2, s)
    ensures WrapAdd32(At(g, q + 2, s), WrapNeg32(2 * g.segmentLength)) == At(g, q, s)
  {
    hide At, WrapAdd32, WrapSub32, WrapNeg32, Pow2;
    AtBound(g, q, s);
    AtNext(g, q, s);
    AtNext(g, q + 1, s);
    WrapNeighbours(At(g, q, s), g.segmentLength);
    WrapNeighbours(At(g, q + 1, s), g.segmentLength);
    WrapNeighbours(At(g, q + 2, s), g.segmentLength);
  }

  lemma OtherCellsFrom0(g: Geometry, hash: u64, q: nat, r: nat)
    requires g.Valid() && Split(g, hash, q, r)
    ensures var t := Cells(g, hash);
            t.c0 < TWO32 && OtherCells(g, hash, 0, t.c0) == (t.c1, t.c2, 1, 2)
  {
    hide Cells, At, OtherCells, Xor, Offset1, Offset2, WrapAdd32, WrapSub32, WrapNeg32, FirstCell, Pow2;
    CellsAt(g, hash, q, r);
    Moves(g, q, r);
    OtherCellsByRole(g, hash, 0, At(g, q, r));
    AtXor(g, q + 1, r, Offset1(g, hash));
    AtXor(g, q + 2, r, Offset2(g, hash));
  }

  lemma OtherCellsFrom1(g: Geometry, hash: u64, q: nat, r: nat)
    requires g.Valid() && Split(g, hash, q, r)
    ensures var t := Cells(g, hash);
            t.c1 < TWO32 && OtherCells(g, hash, 1, t.c1) == (t.c2, t.c0, 2, 0)
  {
    hide Cells, At, OtherCells, Xor, Offset1, Offset2, WrapAdd32, WrapSub32, WrapNeg32, FirstCell, Pow2;
    var h1, h2 := Offset1(g, hash), Offset2(g, hash);
    CellsAt(g, hash, q, r);
    var s := Xor(r, h1);
    Moves(g, q, s);
    OtherCellsByRole(g, hash, 1, At(g, q + 1, s));
    AtXor(g, q, h1, h2);
    AtXor(g, q + 2, s, Xor(h1, h2));
    AtXor(g, q, s, h1);
    XorThrough(r, h1, h2);
    XorCancel(r, h1);
  }

  lemma OtherCellsFrom2(g: Geometry, hash: u64, q: nat, r: nat)
    requires g.Valid() && Split(g, hash, q, r)
    ensures var t := Cells(g, hash);
            t.c2 < TWO32 && OtherCells(g, hash, 2, t.c2) == (t.c0, t.c1, 0, 1)
  {
    hide Cells, At, OtherCells, Xor, Offset1, Offset2, WrapAdd32, WrapSub32, WrapNeg32, FirstCell, Pow2;
    var h1, h2 := Offset1(g, hash), Offset2(g, hash);
    CellsAt(g, hash, q, r);
    var s := Xor(r, h2);
    Moves(g, q, s);
    OtherCellsByRole(g, hash, 2, At(g, q + 2, s));
    AtXor(g, q, h1, h2);
    AtXor(g, q, s, h2);
    AtXor(g, q + 1, s, Xor(h1, h2));
    XorThrough(r, h1, h2);
    XorCancel(r, h2);
  }

  /** The branch-free computation yields exactly the other two cells and their roles. */
  lemma OtherCellsCorrect(g: Geometry, hash: u64, found: u8)
    requires g.Valid() && found < 3
    ensures Pick(Cells(g, hash), found) < TWO32
    ensures OtherCells(g, hash, found, Pick(Cells(g, hash), found)) ==
            (Pick(Cells(g, hash), Next(found)), Pick(Cells(g, hash), Next(Next(found))),
             Next(found), Next(Next(found)))
  {
    hide Cells, OtherCells;
    var q, r := SplitExists(g, hash);
    if found == 0 {
      OtherCellsFrom0(g, hash, q, r);
    } else if found == 1 {
      OtherCellsFrom1(g, hash, q, r);
    } else {
      OtherCellsFrom2(g, hash, q, r);
    }
  }
}
