/** The fill pass of the filter construction: every hash is added to its three cells, and an
    occurrence that repeats a retained hash is taken out again. */
module FuseFill {
  import opened Bits
  import opened FuseGeometry
  import opened FuseLoad

  /** `v` and `h` are the counter byte (count above two role bits) and hash word for a load. */
  ghost predicate Encodes(v: u8, h: u64, l: Load)
  {
    l.count < 64 && l.role < 4 && v == 4 * l.count + l.role && h == l.hash
  }

  function Up(v: u8, role: u8): u8 {
    Xor8(WrapAdd8(v, 4), role)
  }

  function Down(v: u8, role: u8): u8 {
    Xor8(WrapSub8(v, 4), role)
  }

  lemma XorRoleBits(count: nat, a: nat, b: nat)
    requires count < 64 && a < 4 && b < 4
    ensures Xor8(4 * count + a, b) == 4 * count + Xor(a, b)
    ensures Xor(a, b) < 4
  {
    hide Xor, Shl, Pow2;
    Pow2Values();
    ShlIsProduct(count, 2);
    XorLowBits(2, count, a, b);
    RoleBound(a, b);
  }

  /** Adding to a cell: the six-bit counter wraps exactly when the count reaches 64. */
  lemma UpEncodes(v: u8, h: u64, l: Load, role: u8, hash: u64)
    requires Encodes(v, h, l) && role < 3
    ensures var l' := Add(l, role, hash);
            && l'.role < 4 && Xor64(h, hash) == l'.hash
            && Up(v, role) == 4 * (if l'.count == 64 then 0 else l'.count) + l'.role
  {
    hide Xor;
    XorRoleBits(if l.count == 63 then 0 else l.count + 1, l.role, role);
  }

  /** Taking a hash out of a cell is the inverse, wrapped or not. */
  lemma DownEncodes(v: u8, h: u64, l: Load, role: u8, hash: u64)
    requires l.count < 64 && l.role < 4 && role < 3 && l.hash < TWO64
    requires v == 4 * (if l.count == 63 then 0 else l.count + 1) + Xor(l.role, role)
    requires h == Xor(l.hash, hash)
    ensures Encodes(Down(v, role), Xor64(h, hash), l)
  {
    hide Xor;
    RoleBound(l.role, role);
    XorRoleBits(l.count, Xor(l.role, role), role);
    XorCancel(l.role, role);
    XorCancel(l.hash, hash);
  }

  /** Counter bytes and hash words of every cell encode the load of the live hashes on it. */
  ghost predicate TableIs(ix: Index, retained: seq<u64>, live: set<nat>, counts: seq<u8>, words: seq<u64>)
  {
    && |counts| == |words|
    && forall c: nat :: c < |counts| ==> Encodes(counts[c], words[c], LoadOn(ix, retained, live, c, |retained|))
  }

  /** Counter bytes after adding a hash with cells `t`, in roles 0, 1 and 2. */
  function AddCounts(counts: seq<u8>, t: Triple): (r: seq<u8>)
    requires ProperTriple(t, |counts|)
    ensures |r| == |counts|
    ensures forall c: nat :: c < |r| ==> r[c] == if Touches(t, c) then Up(counts[c], Role(t, c)) else counts[c]
  {
    counts[t.c0 := Up(counts[t.c0], 0)][t.c1 := Up(counts[t.c1], 1)][t.c2 := Up(counts[t.c2], 2)]
  }

  function RemoveCounts(counts: seq<u8>, t: Triple): (r: seq<u8>)
    requires ProperTriple(t, |counts|)
    ensures |r| == |counts|
    ensures forall c: nat :: c < |r| ==> r[c] == if Touches(t, c) then Down(counts[c], Role(t, c)) else counts[c]
  {
    counts[t.c0 := Down(counts[t.c0], 0)][t.c1 := Down(counts[t.c1], 1)][t.c2 := Down(counts[t.c2], 2)]
  }

  /** Hash words after adding or removing a hash (the same operation). */
  function FlipWords(words: seq<u64>, t: Triple, hash: u64): (r: seq<u64>)
    requires ProperTriple(t, |words|)
    ensures |r| == |words|
    ensures forall c: nat :: c < |r| ==> r[c] == if Touches(t, c) then Xor64(words[c], hash) else words[c]
  {
    words[t.c0 := Xor64(words[t.c0], hash)][t.c1 := Xor64(words[t.c1], hash)][t.c2 := Xor64(words[t.c2], hash)]
  }

  /** Adding a hash to one cell that does not wrap. */
  lemma AddHoldsAt(v: u8, h: u64, l: Load, role: u8, hash: u64)
    requires Encodes(v, h, l) && role < 3 && Up(v, role) >= 4
    ensures Encodes(Up(v, role), Xor64(h, hash), Add(l, role, hash))
  {
    hide Xor, Up;
    UpEncodes(v, h, l, role, hash);
  }

  /** If no touched counter wrapped to zero, the table has taken on the new hash exactly. */
  lemma AddHolds(ix: Index, retained: seq<u64>, counts: seq<u8>, words: seq<u64>, hash: u64)
    requires TableIs(ix, retained, Below(|retained|), counts, words)
    requires ProperTriple(ix(hash), |counts|)
    requires forall c: nat :: c < |counts| && Touches(ix(hash), c) ==> AddCounts(counts, ix(hash))[c] >= 4
    ensures TableIs(ix, retained + [hash], Below(|retained| + 1),
                    AddCounts(counts, ix(hash)), FlipWords(words, ix(hash), hash))
  {
    hide Xor, Up, Add, LoadOn, FlipWords, AddCounts, Below, Encodes, Role;
    var counts', words', t := AddCounts(counts, ix(hash)), FlipWords(words, ix(hash), hash), ix(hash);
    forall c: nat | c < |counts|
      ensures Encodes(counts'[c], words'[c],
                      LoadOn(ix, retained + [hash], Below(|retained| + 1), c, |retained| + 1))
    {
      LoadAppend(ix, retained, hash, c);
      if Touches(t, c) {
        AddHoldsAt(counts[c], words[c], LoadOn(ix, retained, Below(|retained|), c, |retained|), Role(t, c), hash);
      }
    }
  }

  /** Adding a hash and taking it out again leaves the table as it was, even past a wrap. */
  lemma AddRemoveHolds(ix: Index, retained: seq<u64>, counts: seq<u8>, words: seq<u64>, hash: u64)
    requires TableIs(ix, retained, Below(|retained|), counts, words)
    requires ProperTriple(ix(hash), |counts|)
    ensures var t := ix(hash);
            TableIs(ix, retained, Below(|retained|),
                    RemoveCounts(AddCounts(counts, t), t), FlipWords(FlipWords(words, t, hash), t, hash))
  {
    var t := ix(hash);
    var counts', words' := AddCounts(counts, t), FlipWords(words, t, hash);
    forall c: nat | c < |counts|
      ensures Encodes(RemoveCounts(counts', t)[c], FlipWords(words', t, hash)[c],
                      LoadOn(ix, retained, Below(|retained|), c, |retained|))
    {
      hide Xor, Up, Down, LoadOn, FlipWords, AddCounts, RemoveCounts;
      if Touches(t, c) {
        var l := LoadOn(ix, retained, Below(|retained|), c, |retained|);
        UpEncodes(counts[c], words[c], l, Role(t, c), hash);
        DownEncodes(counts'[c], words'[c], l, Role(t, c), hash);
      }
    }
  }

  /** The duplicate test is exact: count two with cancelling hashes means that the hash is there,
      and alone. */
  lemma DuplicateIsRetained(ix: Index, retained: seq<u64>, counts: seq<u8>, words: seq<u64>, hash: u64, c: nat)
    requires TableIs(ix, retained, Below(|retained|), counts, words)
    requires ProperTriple(ix(hash), |counts|) && c < |counts| && Touches(ix(hash), c)
    requires AddCounts(counts, ix(hash))[c] == 8 && FlipWords(words, ix(hash), hash)[c] == 0
    ensures Sole(ix, retained, hash, c) && hash in retained
  {
    hide Xor, Up, LoadOn, FlipWords, AddCounts;
    var l := LoadOn(ix, retained, Below(|retained|), c, |retained|);
    UpEncodes(counts[c], words[c], l, Role(ix(hash), c), hash);
    var i := LoadOne(ix, retained, Below(|retained|), c, |retained|);
    XorZeroMeansEqual(retained[i], hash);
  }

  /** `hash` is the one retained hash on cell `c`. */
  ghost predicate Sole(ix: Index, retained: seq<u64>, hash: u64, c: nat)
  {
    var l := LoadOn(ix, retained, Below(|retained|), c, |retained|);
    Touches(ix(hash), c) && l.count == 1 && l.hash == hash
  }

  /** The duplicate test on exact loads: on some cell of the hash, the hash is already there and
      alone. A repeated hash that shares all its cells with others passes unnoticed. */
  ghost predicate Repeats(ix: Index, retained: seq<u64>, hash: u64)
  {
    exists c: nat :: Sole(ix, retained, hash, c)
  }

  /** What the fill pass keeps of the placed hashes. */
  ghost function Kept(ix: Index, slots: seq<u64>): (kept: seq<u64>)
  {
    if |slots| == 0 then []
    else
      var rest, h := Kept(ix, slots[..|slots| - 1]), slots[|slots| - 1];
      if Repeats(ix, rest, h) then rest else rest + [h]
  }

  lemma KeptNext(ix: Index, slots: seq<u64>, h: u64)
    ensures var rest := Kept(ix, slots);
            Kept(ix, slots + [h]) == if Repeats(ix, rest, h) then rest else rest + [h]
  {
    assert (slots + [h])[..|slots|] == slots;
  }

  lemma RepeatIsRetained(ix: Index, retained: seq<u64>, hash: u64)
    requires Repeats(ix, retained, hash)
    ensures hash in retained
  {
    hide Below;
    var c: nat :| Sole(ix, retained, hash, c);
    var i := LoadOne(ix, retained, Below(|retained|), c, |retained|);
  }

  /** A repeat makes the counter two and the hash word zero. */
  lemma RepeatShows(ix: Index, retained: seq<u64>, counts: seq<u8>, words: seq<u64>, hash: u64, c: nat)
    requires TableIs(ix, retained, Below(|retained|), counts, words)
    requires ProperTriple(ix(hash), |counts|) && Sole(ix, retained, hash, c)
    ensures c < |counts| && AddCounts(counts, ix(hash))[c] == 8 && FlipWords(words, ix(hash), hash)[c] == 0
  {
    hide Xor, Up, LoadOn, FlipWords, AddCounts, Below;
    var l := LoadOn(ix, retained, Below(|retained|), c, |retained|);
    var i := LoadOne(ix, retained, Below(|retained|), c, |retained|);
    UpEncodes(counts[c], words[c], l, Role(ix(hash), c), hash);
    XorSelf(Role(ix(hash), c));
    XorSelf(hash);
  }

  /** Some cell gets 64 hashes or more, too many for its counter. */
  ghost predicate Overfull(ix: Index, retained: seq<u64>, capacity: nat)
  {
    exists c: nat :: c < capacity && LoadOn(ix, retained, Below(|retained|), c, |retained|).count >= 64
  }

  /** A counter below four after adding a hash has wrapped: the cell now has 64 hashes. */
  lemma WrapMeansFull(ix: Index, retained: seq<u64>, counts: seq<u8>, words: seq<u64>, hash: u64, c: nat)
    requires TableIs(ix, retained, Below(|retained|), counts, words)
    requires ProperTriple(ix(hash), |counts|) && c < |counts| && Touches(ix(hash), c)
    requires AddCounts(counts, ix(hash))[c] < 4
    ensures Overfull(ix, retained + [hash], |counts|)
  {
    hide Xor, Up, LoadOn, AddCounts, Below;
    UpEncodes(counts[c], words[c], LoadOn(ix, retained, Below(|retained|), c, |retained|), Role(ix(hash), c), hash);
    LoadAppend(ix, retained, hash, c);
    var all := retained + [hash];
    assert LoadOn(ix, all, Below(|all|), c, |all|).count == 64;
  }

  lemma TableNotOverfull(ix: Index, retained: seq<u64>, counts: seq<u8>, words: seq<u64>)
    requires TableIs(ix, retained, Below(|retained|), counts, words)
    ensures !Overfull(ix, retained, |counts|)
  {
    hide LoadOn, Below;
    forall c: nat | c < |counts| ensures LoadOn(ix, retained, Below(|retained|), c, |retained|).count < 64 {
      assert Encodes(counts[c], words[c], LoadOn(ix, retained, Below(|retained|), c, |retained|));
    }
  }

  /** The cells of a retained hash hold at least that one. */
  lemma RetainedCounts(ix: Index, retained: seq<u64>, counts: seq<u8>, words: seq<u64>, hash: u64, c: nat)
    requires TableIs(ix, retained, Below(|retained|), counts, words)
    requires hash in retained && c < |counts| && Touches(ix(hash), c)
    ensures counts[c] >= 4
  {
    hide LoadOn;
    var i :| 0 <= i < |retained| && retained[i] == hash;
    if LoadOn(ix, retained, Below(|retained|), c, |retained|).count == 0 {
      LoadZero(ix, retained, Below(|retained|), c, |retained|, i);
    }
  }

  /** Adds a hash to its three cells. */
  method AddHash(t2count: array<u8>, t2hash: array<u64>, t: Triple, hash: u64)
    requires t2count as object != t2hash && t2count.Length == t2hash.Length && ProperTriple(t, t2count.Length)
    modifies t2count, t2hash
    ensures t2count[..] == AddCounts(old(t2count[..]), t)
    ensures t2hash[..] == FlipWords(old(t2hash[..]), t, hash)
  {
    hide Up;
    t2count[t.c0] := Up(t2count[t.c0], 0);
    t2hash[t.c0] := Xor64(t2hash[t.c0], hash);
    t2count[t.c1] := Up(t2count[t.c1], 1);
    t2hash[t.c1] := Xor64(t2hash[t.c1], hash);
    t2count[t.c2] := Up(t2count[t.c2], 2);
    t2hash[t.c2] := Xor64(t2hash[t.c2], hash);
  }

  /** Takes a hash out of its three cells. */
  method RemoveHash(t2count: array<u8>, t2hash: array<u64>, t: Triple, hash: u64)
    requires t2count as object != t2hash && t2count.Length == t2hash.Length && ProperTriple(t, t2count.Length)
    modifies t2count, t2hash
    ensures t2count[..] == RemoveCounts(old(t2count[..]), t)
    ensures t2hash[..] == FlipWords(old(t2hash[..]), t, hash)
  {
    hide Down;
    t2count[t.c0] := Down(t2count[t.c0], 0);
    t2hash[t.c0] := Xor64(t2hash[t.c0], hash);
    t2count[t.c1] := Down(t2count[t.c1], 1);
    t2hash[t.c1] := Xor64(t2hash[t.c1], hash);
    t2count[t.c2] := Down(t2count[t.c2], 2);
    t2hash[t.c2] := Xor64(t2hash[t.c2], hash);
  }

  /** One step of the fill pass. While nothing has gone wrong (`ok`), the table is exactly that
      of the retained hashes: an occurrence is dropped exactly if the duplicate test on the loads
      says so, and a kept one is either added exactly or reported as `bad`. */
  method FillOne(g: Geometry, t2count: array<u8>, t2hash: array<u64>, hash: u64,
                 ghost retained: seq<u64>, ghost ok: bool)
    returns (duplicate: bool, bad: bool)
    requires g.Valid() && t2count as object != t2hash
    requires t2count.Length == t2hash.Length == g.Capacity()
    requires ok ==> TableIs(IndexOf(g), retained, Below(|retained|), t2count[..], t2hash[..])
    modifies t2count, t2hash
    ensures ok ==> (duplicate <==> Repeats(IndexOf(g), retained, hash))
    ensures ok && duplicate ==>
              hash in retained && TableIs(IndexOf(g), retained, Below(|retained|), t2count[..], t2hash[..])
    ensures ok && !duplicate && !bad ==>
              TableIs(IndexOf(g), retained + [hash], Below(|retained| + 1), t2count[..], t2hash[..])
    ensures ok && bad ==> !duplicate && Overfull(IndexOf(g), retained + [hash], g.Capacity())
  {
    hide Xor, And, Cells, TableIs, AddCounts, RemoveCounts, FlipWords, IndexOf, Below, Overfull, Repeats;
    ghost var counts, words := t2count[..], t2hash[..];
    var t := Cells(g, hash);
    CellsProper(g, hash);
    AddHash(t2count, t2hash, t, hash);
    duplicate := false;
    ZeroAnd(t2hash[t.c0], t2hash[t.c1], t2hash[t.c2]);
    ghost var shows := Shows(t2count[..], t2hash[..], t);
    if And(And(t2hash[t.c0], t2hash[t.c1]), t2hash[t.c2]) == 0 {
      if (t2hash[t.c0] == 0 && t2count[t.c0] == 8) || (t2hash[t.c1] == 0 && t2count[t.c1] == 8)
         || (t2hash[t.c2] == 0 && t2count[t.c2] == 8)
      {
        duplicate := true;
        if ok {
          AddRemoveHolds(IndexOf(g), retained, counts, words, hash);
        }
        RemoveHash(t2count, t2hash, t, hash);
      }
    }
    assert duplicate == shows;
    if ok {
      TestExact(IndexOf(g), retained, counts, words, hash);
    }
    bad := t2count[t.c0] < 4 || t2count[t.c1] < 4 || t2count[t.c2] < 4;
    if ok && duplicate {
      RepeatIsRetained(IndexOf(g), retained, hash);
      RetainedCounts(IndexOf(g), retained, t2count[..], t2hash[..], hash, t.c0);
      RetainedCounts(IndexOf(g), retained, t2count[..], t2hash[..], hash, t.c1);
      RetainedCounts(IndexOf(g), retained, t2count[..], t2hash[..], hash, t.c2);
    } else if ok && bad {
      ghost var c := if t2count[t.c0] < 4 then t.c0 else if t2count[t.c1] < 4 then t.c1 else t.c2;
      WrapMeansFull(IndexOf(g), retained, counts, words, hash, c);
    } else if ok {
      AddHolds(IndexOf(g), retained, counts, words, hash);
    }
  }

  lemma ZeroAnd(x: nat, y: nat, z: nat)
    ensures x == 0 || y == 0 || z == 0 ==> And(And(x, y), z) == 0
  {
    AndZero(y);
    AndZero(x);
    AndZero(z);
    AndZero(And(x, y));
  }

  /** The test that the code makes after adding a hash. */
  predicate Shows(counts: seq<u8>, words: seq<u64>, t: Triple)
    requires |counts| == |words| && ProperTriple(t, |counts|)
  {
    || (words[t.c0] == 0 && counts[t.c0] == 8) || (words[t.c1] == 0 && counts[t.c1] == 8)
    || (words[t.c2] == 0 && counts[t.c2] == 8)
  }

  /** While the table is exact, the test decides whether the hash repeats. */
  lemma TestExact(ix: Index, retained: seq<u64>, counts: seq<u8>, words: seq<u64>, hash: u64)
    requires TableIs(ix, retained, Below(|retained|), counts, words)
    requires |counts| == |words| && ProperTriple(ix(hash), |counts|)
    ensures Shows(AddCounts(counts, ix(hash)), FlipWords(words, ix(hash), hash), ix(hash))
       <==> Repeats(ix, retained, hash)
  {
    hide TableIs, AddCounts, FlipWords, Below, Sole;
    var t := ix(hash);
    var counts', words' := AddCounts(counts, t), FlipWords(words, t, hash);
    if Shows(counts', words', t) {
      var c := if words'[t.c0] == 0 && counts'[t.c0] == 8 then t.c0
               else if words'[t.c1] == 0 && counts'[t.c1] == 8 then t.c1 else t.c2;
      DuplicateIsRetained(ix, retained, counts, words, hash, c);
    }
    if Repeats(ix, retained, hash) {
      var c: nat :| Sole(ix, retained, hash, c);
      RepeatShows(ix, retained, counts, words, hash, c);
      SoleTouches(ix, retained, hash, c);
    }
  }

  lemma SoleTouches(ix: Index, retained: seq<u64>, hash: u64, c: nat)
    requires Sole(ix, retained, hash, c)
    ensures Touches(ix(hash), c)
  {
  }

  lemma StillOverfull(ix: Index, retained: seq<u64>, hash: u64, capacity: nat)
    requires Overfull(ix, retained, capacity)
    ensures Overfull(ix, retained + [hash], capacity)
  {
    hide LoadOn, Below;
    var c: nat :| c < capacity && LoadOn(ix, retained, Below(|retained|), c, |retained|).count >= 64;
    LoadAppend(ix, retained, hash, c);
    var all := retained + [hash];
    assert LoadOn(ix, all, Below(|all|), c, |all|).count >= 64;
  }

  lemma EmptyTable(ix: Index, counts: seq<u8>, words: seq<u64>)
    requires |counts| == |words|
    requires forall c :: 0 <= c < |counts| ==> counts[c] == 0 && words[c] == 0
    ensures TableIs(ix, [], Below(0), counts, words)
  {
  }

  /** The fill pass over the first `size` placed hashes. It reports an error exactly if the kept
      hashes put too many on some cell; otherwise the table holds exactly the kept hashes, and every
      placed hash is among them. */
  method Fill(g: Geometry, t2count: array<u8>, t2hash: array<u64>, order: array<u64>, size: nat)
    returns (error: bool, duplicates: nat, ghost retained: seq<u64>)
    requires g.Valid() && t2count as object != t2hash && order != t2hash && t2count as object != order
    requires t2count.Length == t2hash.Length == g.Capacity() && size <= order.Length
    requires forall c :: 0 <= c < t2count.Length ==> t2count[c] == 0 && t2hash[c] == 0
    modifies t2count, t2hash
    ensures retained == Kept(IndexOf(g), order[..size])
    ensures error <==> Overfull(IndexOf(g), retained, g.Capacity())
    ensures !error ==> |retained| + duplicates == size && forall k :: 0 <= k < size ==> order[k] in retained
    ensures !error ==> TableIs(IndexOf(g), retained, Below(|retained|), t2count[..], t2hash[..])
  {
    hide TableIs, IndexOf, Below, Overfull, Kept, Repeats;
    ghost var ix := IndexOf(g);
    error, duplicates, retained := false, 0, [];
    EmptyTable(ix, t2count[..], t2hash[..]);
    KeptNothing(ix, order[..0]);
    for j := 0 to size
      invariant retained == Kept(ix, order[..j])
      invariant !error ==> |retained| + duplicates == j && forall k :: 0 <= k < j ==> order[k] in retained
      invariant !error ==> TableIs(ix, retained, Below(|retained|), t2count[..], t2hash[..])
      invariant error ==> Overfull(ix, retained, g.Capacity())
    {
      assert order[..j + 1] == order[..j] + [order[j]];
      KeptNext(ix, order[..j], order[j]);
      if error {
        StillOverfull(ix, retained, order[j], g.Capacity());
      }
      var duplicate, bad := FillOne(g, t2count, t2hash, order[j], retained, !error);
      if duplicate {
        duplicates := duplicates + 1;
      }
      if bad {
        error := true;
      }
      if !Repeats(ix, retained, order[j]) {
        retained := retained + [order[j]];
      }
    }
    if !error {
      TableNotOverfull(ix, retained, t2count[..], t2hash[..]);
    }
  }

  lemma KeptNothing(ix: Index, slots: seq<u64>)
    requires slots == []
    ensures Kept(ix, slots) == []
  {
  }
}
