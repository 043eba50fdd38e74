/** When a set of hashes can be built into a filter at all: a condition on the set alone, whatever
    the order in which the hashes are placed, filled and peeled. */
module FuseCore {
  import opened Bits
  import opened FuseGeometry
  import opened FuseLoad
  import opened FuseFill
  import opened FusePeel

  ghost predicate Distinct(s: seq<u64>)
  {
    forall i, j :: 0 <= i < j < |s| ==> s[i] != s[j]
  }

  ghost function Elements(s: seq<u64>): set<u64>
  {
    set h | h in s
  }

  /** The hashes of a set that touch a cell. */
  ghost function On(ix: Index, hashes: set<u64>, c: nat): set<u64>
  {
    set h | h in hashes && Touches(ix(h), c)
  }

  /** No cell is touched by exactly one hash of the set. */
  ghost predicate Locked(ix: Index, hashes: set<u64>, capacity: nat)
  {
    forall c: nat :: c < capacity ==> |On(ix, hashes, c)| != 1
  }

  /** No cell is touched by 64 of the hashes, and every part of them leaves some cell to one hash. */
  ghost predicate Buildable(ix: Index, hashes: set<u64>, capacity: nat)
  {
    && (forall c: nat :: c < capacity ==> |On(ix, hashes, c)| < 64)
    && (forall part: set<u64> :: part <= hashes && Locked(ix, part, capacity) ==> part == {})
  }

  lemma BuildablePart(ix: Index, part: set<u64>, hashes: set<u64>, capacity: nat)
    requires Buildable(ix, hashes, capacity) && part <= hashes
    ensures Buildable(ix, part, capacity)
  {
    hide Locked;
    forall c: nat | c < capacity ensures |On(ix, part, c)| < 64 {
      PartSmaller(On(ix, part, c), On(ix, hashes, c));
    }
  }

  lemma {:induction false} PartSmaller<T>(a: set<T>, b: set<T>)
    requires a <= b
    ensures |a| <= |b|
  {
    assert b == a + (b - a);
  }

  /** A single hash can always be built in, since it has a cell to itself. */
  lemma OneBuilds(ix: Index, hashes: set<u64>, capacity: nat)
    requires |hashes| <= 1 && forall h :: h in hashes ==> ProperTriple(ix(h), capacity)
    ensures Buildable(ix, hashes, capacity)
  {
    forall c: nat | c < capacity ensures |On(ix, hashes, c)| < 64 {
      PartSmaller(On(ix, hashes, c), hashes);
    }
    forall part: set<u64> | part <= hashes && part != {} ensures !Locked(ix, part, capacity) {
      var h :| h in part;
      PartSmaller(part, hashes);
      OnlyOne(part, h);
      OneIsFree(ix, h, capacity);
    }
  }

  lemma OneIsFree(ix: Index, h: u64, capacity: nat)
    requires ProperTriple(ix(h), capacity)
    ensures !Locked(ix, {h}, capacity)
  {
    assert On(ix, {h}, ix(h).c0) == {h};
  }

  lemma OnlyOne(s: set<u64>, h: u64)
    requires |s| <= 1 && h in s
    ensures s == {h}
  {
    assert |s - {h}| == 0;
  }

  /** The retained hashes fit the counters and can all be peeled. */
  ghost predicate Solvable(ix: Index, retained: seq<u64>, capacity: nat)
  {
    && !Overfull(ix, retained, capacity)
    && forall live: set<nat> :: Stuck(ix, retained, live, capacity) ==> live == {}
  }

  /** The hashes at the live positions below `n`. */
  ghost function Image(hashes: seq<u64>, live: set<nat>, n: nat): set<u64>
    requires n <= |hashes|
  {
    set i | 0 <= i < n && i in live :: hashes[i]
  }

  lemma ImageNext(hashes: seq<u64>, live: set<nat>, n: nat)
    requires 0 < n <= |hashes| && Distinct(hashes)
    ensures Image(hashes, live, n) == Image(hashes, live, n - 1) + (if n - 1 in live then {hashes[n - 1]} else {})
    ensures hashes[n - 1] !in Image(hashes, live, n - 1)
  {
  }

  /** Among distinct hashes the load on a cell counts the hashes that touch it. */
  lemma {:induction false} LoadCounts(ix: Index, hashes: seq<u64>, live: set<nat>, c: nat, n: nat)
    requires n <= |hashes| && Distinct(hashes)
    ensures LoadOn(ix, hashes, live, c, n).count == |On(ix, Image(hashes, live, n), c)|
  {
    hide Xor, Image, On, Touches, Distinct;
    if n == 0 {
      NothingOn(ix, hashes, live, c);
    } else {
      LoadCounts(ix, hashes, live, c, n - 1);
      ImageNext(hashes, live, n);
      var before := Image(hashes, live, n - 1);
      OnNext(ix, before, hashes[n - 1], c);
      assert before + {} == before;
    }
  }

  lemma NothingOn(ix: Index, hashes: seq<u64>, live: set<nat>, c: nat)
    ensures On(ix, Image(hashes, live, 0), c) == {}
  {
  }

  lemma OnNext(ix: Index, hashes: set<u64>, h: u64, c: nat)
    requires h !in hashes
    ensures |On(ix, hashes + {h}, c)| == |On(ix, hashes, c)| + (if Touches(ix(h), c) then 1 else 0)
  {
    assert On(ix, hashes + {h}, c) == On(ix, hashes, c) + (if Touches(ix(h), c) then {h} else {});
  }

  lemma ImageOfAll(hashes: seq<u64>)
    ensures Image(hashes, Below(|hashes|), |hashes|) == Elements(hashes)
  {
    hide Below;
    forall h | h in hashes ensures h in Image(hashes, Below(|hashes|), |hashes|) {
      var i :| 0 <= i < |hashes| && hashes[i] == h;
    }
  }

  lemma OverfullMeans(ix: Index, hashes: seq<u64>, capacity: nat)
    requires Distinct(hashes)
    ensures Overfull(ix, hashes, capacity) <==> exists c: nat :: c < capacity && |On(ix, Elements(hashes), c)| >= 64
  {
    hide LoadOn, Below, Elements;
    ImageOfAll(hashes);
    forall c: nat ensures LoadOn(ix, hashes, Below(|hashes|), c, |hashes|).count == |On(ix, Elements(hashes), c)| {
      LoadCounts(ix, hashes, Below(|hashes|), c, |hashes|);
    }
  }

  lemma StuckMeans(ix: Index, hashes: seq<u64>, live: set<nat>, capacity: nat)
    requires Distinct(hashes) && forall i :: i in live ==> i < |hashes|
    ensures Stuck(ix, hashes, live, capacity) <==> Locked(ix, Image(hashes, live, |hashes|), capacity)
    ensures Image(hashes, live, |hashes|) <= Elements(hashes)
    ensures Image(hashes, live, |hashes|) == {} ==> live == {}
  {
    hide LoadOn;
    forall c: nat ensures LoadOn(ix, hashes, live, c, |hashes|).count == |On(ix, Image(hashes, live, |hashes|), c)| {
      LoadCounts(ix, hashes, live, c, |hashes|);
    }
    forall i | i in live ensures hashes[i] in Image(hashes, live, |hashes|) {
    }
  }

  /** The positions of a part of the hashes. */
  ghost function Positions(hashes: seq<u64>, part: set<u64>): set<nat>
  {
    set i: nat | i < |hashes| && hashes[i] in part
  }

  lemma PositionsImage(hashes: seq<u64>, part: set<u64>)
    requires part <= Elements(hashes)
    ensures Image(hashes, Positions(hashes, part), |hashes|) == part
    ensures Positions(hashes, part) == {} ==> part == {}
  {
    forall h | h in part ensures h in Image(hashes, Positions(hashes, part), |hashes|) {
      var i :| 0 <= i < |hashes| && hashes[i] == h;
      assert i in Positions(hashes, part);
    }
  }

  lemma SolvableDistinct(ix: Index, hashes: seq<u64>, capacity: nat)
    requires Distinct(hashes)
    ensures Solvable(ix, hashes, capacity) <==> Buildable(ix, Elements(hashes), capacity)
  {
    hide Overfull, Stuck, Locked, On, Image, Elements, Distinct, Positions;
    OverfullMeans(ix, hashes, capacity);
    if Buildable(ix, Elements(hashes), capacity) {
      forall live: set<nat> | Stuck(ix, hashes, live, capacity) ensures live == {} {
        StuckBelow(ix, hashes, live, capacity);
        StuckMeans(ix, hashes, live, capacity);
      }
    }
    if Solvable(ix, hashes, capacity) {
      forall part: set<u64> | part <= Elements(hashes) && Locked(ix, part, capacity) ensures part == {} {
        PositionsImage(hashes, part);
        PositionsBelow(hashes, part);
        StuckMeans(ix, hashes, Positions(hashes, part), capacity);
      }
    }
  }

  lemma StuckBelow(ix: Index, hashes: seq<u64>, live: set<nat>, capacity: nat)
    requires Stuck(ix, hashes, live, capacity)
    ensures forall i :: i in live ==> i < |hashes|
  {
  }

  lemma PositionsBelow(hashes: seq<u64>, part: set<u64>)
    ensures forall i :: i in Positions(hashes, part) ==> i < |hashes|
  {
  }

  /** Two copies of a hash lock each other. */
  lemma CopiesLock(ix: Index, hashes: seq<u64>, i: nat, j: nat, capacity: nat)
    requires i < j < |hashes| && hashes[i] == hashes[j]
    ensures Stuck(ix, hashes, {i, j}, capacity)
  {
    hide LoadOn;
    var n := |hashes|;
    forall c: nat | c < capacity ensures LoadOn(ix, hashes, {i, j}, c, n).count != 1 {
      if Touches(ix(hashes[i]), c) {
        LoadRemove(ix, hashes, {i, j}, i, c, n);
        assert {i, j} - {i} == {j};
        LoadRemove(ix, hashes, {j}, j, c, n);
      } else {
        LoadUntouched(ix, hashes, {i, j}, c, n);
      }
    }
  }

  /** Retained hashes can be built in exactly if none is repeated and they can be as a set. */
  lemma SolvableExactly(ix: Index, hashes: seq<u64>, capacity: nat)
    ensures Solvable(ix, hashes, capacity) <==> Distinct(hashes) && Buildable(ix, Elements(hashes), capacity)
  {
    if Distinct(hashes) {
      SolvableDistinct(ix, hashes, capacity);
    } else {
      var i, j :| 0 <= i < j < |hashes| && hashes[i] == hashes[j];
      CopiesLock(ix, hashes, i, j, capacity);
      assert i in {i, j};
    }
  }

  /** Filling loses no hash, and keeps distinct ones as they are. */
  lemma {:induction false} KeptElements(ix: Index, slots: seq<u64>)
    ensures Elements(Kept(ix, slots)) == Elements(slots)
    ensures Distinct(slots) ==> Kept(ix, slots) == slots
  {
    hide Repeats;
    if |slots| > 0 {
      var n := |slots| - 1;
      var rest, h := Kept(ix, slots[..n]), slots[n];
      KeptElements(ix, slots[..n]);
      assert slots == slots[..n] + [h];
      assert Elements(slots) == Elements(slots[..n]) + {h};
      if Repeats(ix, rest, h) {
        RepeatIsRetained(ix, rest, h);
        assert h in Elements(rest) && h in Elements(slots[..n]);
        assert !Distinct(slots);
      } else {
        assert Elements(rest + [h]) == Elements(rest) + {h};
      }
    }
  }

  /** What one attempt decides about the slots it is given: a repeated hash that the duplicate test
      misses spoils it, and otherwise only the set of hashes matters. */
  lemma KeptSolvable(ix: Index, slots: seq<u64>, capacity: nat)
    ensures Solvable(ix, Kept(ix, slots), capacity)
       <==> Distinct(Kept(ix, slots)) && Buildable(ix, Elements(slots), capacity)
    ensures Distinct(slots) ==>
              (Solvable(ix, Kept(ix, slots), capacity) <==> Buildable(ix, Elements(slots), capacity))
  {
    hide Solvable, Buildable, Kept;
    KeptElements(ix, slots);
    SolvableExactly(ix, Kept(ix, slots), capacity);
  }

  // ----- Sequences as sets.

  lemma {:induction false} DistinctSize(s: seq<u64>)
    requires Distinct(s)
    ensures |Elements(s)| == |s|
  {
    if |s| > 0 {
      var n := |s| - 1;
      DistinctSize(s[..n]);
      assert Elements(s) == Elements(s[..n]) + {s[n]};
    }
  }

  /** A repeat leaves fewer elements than positions. */
  lemma ShortOfElements(s: seq<u64>)
    requires !Distinct(s)
    ensures |Elements(s)| < |s|
  {
    var i, j :| 0 <= i < j < |s| && s[i] == s[j];
    var t := s[..j] + s[j + 1..];
    assert t[i] == s[j];
    forall h | h in s ensures h in t {
      var k :| 0 <= k < |s| && s[k] == h;
      assert k < j ==> t[k] == h;
      assert k > j ==> t[k - 1] == h;
    }
    assert Elements(s) == Elements(t);
    FewElements(t);
  }

  lemma {:induction false} FewElements(s: seq<u64>)
    ensures |Elements(s)| <= |s|
  {
    if |s| > 0 {
      var n := |s| - 1;
      FewElements(s[..n]);
      assert Elements(s) == Elements(s[..n]) + {s[n]};
    }
  }

  lemma {:induction false} DistinctOnce(s: seq<u64>, h: u64)
    requires Distinct(s)
    ensures multiset(s)[h] <= 1
  {
    if |s| > 0 {
      var n := |s| - 1;
      DistinctOnce(s[..n], h);
      assert s == s[..n] + [s[n]];
      assert s[n] !in s[..n];
    }
  }

  lemma SameMultiset(a: seq<u64>, b: seq<u64>)
    requires multiset(a) == multiset(b) && Distinct(b)
    ensures Distinct(a) && Elements(a) == Elements(b)
  {
    forall h ensures h in a <==> h in b {
      assert h in a <==> h in multiset(a);
      assert h in b <==> h in multiset(b);
    }
    forall i, j | 0 <= i < j < |a| ensures a[i] != a[j] {
      DistinctOnce(b, a[j]);
      assert a == a[..j] + [a[j]] + a[j + 1..];
      assert a[i] == a[..j][i] && a[..j][i] in multiset(a[..j]);
    }
  }
}
