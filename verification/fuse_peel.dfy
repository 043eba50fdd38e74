/** The peeling pass: cells with a single live hash are queued, each one's hash is moved to the
    stack and removed from its other two cells. */
module FusePeel {
  import opened Bits
  import opened FuseGeometry
  import opened FuseLoad
  import opened FuseFill

  /** The pivot cell of each stacked hash is touched by no hash stacked after it. */
  ghost predicate PeelOrder(ix: Index, hs: seq<u64>, roles: seq<u8>)
  {
    && |hs| == |roles|
    && (forall k :: 0 <= k < |roles| ==> roles[k] < 3)
    && forall k, l :: 0 <= k < l < |hs| ==> !Touches(ix(hs[l]), Pick(ix(hs[k]), roles[k]))
  }

  /** The pivots of the stacked hashes are used cells, and no live hash touches a used cell. */
  ghost predicate Pivots(ix: Index, retained: seq<u64>, live: set<nat>, used: set<nat>,
                         hs: seq<u64>, roles: seq<u8>)
  {
    && PeelOrder(ix, hs, roles)
    && (forall k :: 0 <= k < |hs| ==> Pick(ix(hs[k]), roles[k]) in used)
    && forall i, c :: 0 <= i < |retained| && i in live && c in used ==> !Touches(ix(retained[i]), c)
  }

  /** Every retained hash is live or on the stack, and they are counted exactly. */
  ghost predicate Conserved(retained: seq<u64>, live: set<nat>, hs: seq<u64>)
  {
    && |live| + |hs| == |retained|
    && (forall i :: i in live ==> i < |retained|)
    && forall i :: 0 <= i < |retained| ==> i in live || retained[i] in hs
  }

  /** Cells not used as a pivot hold exactly the load of the live hashes. */
  ghost predicate OpenCells(ix: Index, retained: seq<u64>, live: set<nat>, used: set<nat>,
                            counts: seq<u8>, words: seq<u64>)
  {
    && |counts| == |words|
    && forall c: nat :: c < |counts| && c !in used ==>
                          Encodes(counts[c], words[c], LoadOn(ix, retained, live, c, |retained|))
  }

  /** The queue holds distinct unused cells of count at most one. */
  ghost predicate Queued(ix: Index, retained: seq<u64>, live: set<nat>, used: set<nat>, queue: seq<u32>, capacity: nat)
  {
    && (forall j, k :: 0 <= j < k < |queue| ==> queue[j] != queue[k])
    && forall k :: 0 <= k < |queue| ==>
                     && queue[k] < capacity && queue[k] !in used
                     && LoadOn(ix, retained, live, queue[k], |retained|).count <= 1
  }

  /** No unused cell with a single live hash is missing from the queue. */
  ghost predicate Covered(ix: Index, retained: seq<u64>, live: set<nat>, used: set<nat>, queue: seq<u32>, capacity: nat)
  {
    forall c: nat :: c < capacity && c !in used && LoadOn(ix, retained, live, c, |retained|).count == 1 ==>
                       exists k :: 0 <= k < |queue| && queue[k] == c
  }

  /** Peeling cannot go on: no cell is touched by exactly one of the live hashes. */
  ghost predicate Stuck(ix: Index, retained: seq<u64>, live: set<nat>, capacity: nat)
  {
    && (forall i :: i in live ==> i < |retained|)
    && forall c: nat :: c < capacity ==> LoadOn(ix, retained, live, c, |retained|).count != 1
  }

  /** Counter bytes after removing a hash from the two cells other than its pivot. */
  function PeelCounts(counts: seq<u8>, t: Triple, found: nat): (r: seq<u8>)
    requires ProperTriple(t, |counts|) && found < 3
    ensures |r| == |counts|
    ensures forall c: nat :: c < |r| ==>
                               r[c] == if Touches(t, c) && c != Pick(t, found) then Down(counts[c], Role(t, c)) else counts[c]
  {
    var a, b := Next(found), Next(Next(found));
    counts[Pick(t, a) := Down(counts[Pick(t, a)], a)][Pick(t, b) := Down(counts[Pick(t, b)], b)]
  }

  function PeelWords(words: seq<u64>, t: Triple, found: nat, hash: u64): (r: seq<u64>)
    requires ProperTriple(t, |words|) && found < 3
    ensures |r| == |words|
    ensures forall c: nat :: c < |r| ==>
                               r[c] == if Touches(t, c) && c != Pick(t, found) then Xor64(words[c], hash) else words[c]
  {
    var a, b := Pick(t, Next(found)), Pick(t, Next(Next(found)));
    words[a := Xor64(words[a], hash)][b := Xor64(words[b], hash)]
  }

  lemma PickOfRole(t: Triple, c: nat)
    requires Touches(t, c)
    ensures Pick(t, Role(t, c)) == c
  {
  }

  /** Removing a hash from a cell that holds it. */
  lemma DownRemoves(v: u8, h: u64, l: Load, role: u8, hash: u64)
    requires role < 3 && l.hash < TWO64 && l.role < 4
    requires Encodes(v, h, Add(l, role, hash))
    ensures Encodes(Down(v, role), Xor64(h, hash), l)
  {
    hide Xor, Down;
    DownEncodes(v, h, l, role, hash);
  }

  lemma {:induction false} LoadHashBound(ix: Index, hashes: seq<u64>, live: set<nat>, c: nat, n: nat)
    requires n <= |hashes|
    ensures LoadOn(ix, hashes, live, c, n).hash < TWO64
  {
    if n > 0 {
      LoadHashBound(ix, hashes, live, c, n - 1);
      hide Xor;
      var l := LoadOn(ix, hashes, live, c, n - 1).hash;
      assert Xor(l, hashes[n - 1]) == Xor64(l, hashes[n - 1]);
    }
  }

  lemma PeelCell(ix: Index, retained: seq<u64>, live: set<nat>, i: nat, v: u8, h: u64, c: nat)
    requires i < |retained| && i in live && Touches(ix(retained[i]), c)
    requires Encodes(v, h, LoadOn(ix, retained, live, c, |retained|))
    ensures Encodes(Down(v, Role(ix(retained[i]), c)), Xor64(h, retained[i]),
                    LoadOn(ix, retained, live - {i}, c, |retained|))
  {
    hide LoadOn, Encodes, Add, Xor, Down;
    LoadRemove(ix, retained, live, i, c, |retained|);
    LoadHashBound(ix, retained, live - {i}, c, |retained|);
    LoadRoleBound(ix, retained, live - {i}, c, |retained|);
    DownRemoves(v, h, LoadOn(ix, retained, live - {i}, c, |retained|), Role(ix(retained[i]), c), retained[i]);
  }

  /** Peeling keeps the open cells exact. */
  lemma PeelOpenCells(ix: Index, retained: seq<u64>, live: set<nat>, used: set<nat>,
                      counts: seq<u8>, words: seq<u64>, i: nat, found: nat)
    requires OpenCells(ix, retained, live, used, counts, words)
    requires i < |retained| && i in live && found < 3 && ProperTriple(ix(retained[i]), |counts|)
    requires forall c :: c in used ==> !Touches(ix(retained[i]), c)
    ensures var t := ix(retained[i]);
            OpenCells(ix, retained, live - {i}, used + {Pick(t, found)},
                      PeelCounts(counts, t, found), PeelWords(words, t, found, retained[i]))
  {
    hide LoadOn, Encodes, Xor, Down, PeelCounts, PeelWords;
    var t, hash := ix(retained[i]), retained[i];
    var counts', words' := PeelCounts(counts, t, found), PeelWords(words, t, found, hash);
    forall c: nat | c < |counts| && c !in used + {Pick(t, found)}
      ensures Encodes(counts'[c], words'[c], LoadOn(ix, retained, live - {i}, c, |retained|))
    {
      if Touches(t, c) {
        PeelCell(ix, retained, live, i, counts[c], words[c], c);
      } else {
        LoadIgnoresDead(ix, retained, live, i, c, |retained|);
      }
    }
  }

  /** Peeling keeps the pivots clear of live hashes. */
  lemma PeelPivots(ix: Index, retained: seq<u64>, live: set<nat>, used: set<nat>,
                   hs: seq<u64>, roles: seq<u8>, c: nat, i: nat)
    requires Pivots(ix, retained, live, used, hs, roles)
    requires i < |retained| && i in live && Touches(ix(retained[i]), c)
    requires LoadOn(ix, retained, live, c, |retained|).count == 1
    ensures Pivots(ix, retained, live - {i}, used + {c}, hs + [retained[i]], roles + [Role(ix(retained[i]), c)])
  {
    hide LoadOn;
    PickOfRole(ix(retained[i]), c);
    forall j | 0 <= j < |retained| && j in live - {i}
      ensures !Touches(ix(retained[j]), c)
    {
      LoadOneAlone(ix, retained, live, c, i, j);
    }
  }

  lemma PeelConserved(retained: seq<u64>, live: set<nat>, hs: seq<u64>, i: nat)
    requires Conserved(retained, live, hs) && i in live
    ensures Conserved(retained, live - {i}, hs + [retained[i]])
    ensures |hs| < |retained|
  {
  }

  lemma LoadCountDrops(ix: Index, hashes: seq<u64>, live: set<nat>, i: nat, c: nat)
    requires i < |hashes| && i in live
    ensures LoadOn(ix, hashes, live, c, |hashes|).count ==
            LoadOn(ix, hashes, live - {i}, c, |hashes|).count + if Touches(ix(hashes[i]), c) then 1 else 0
  {
    hide LoadOn, Xor;
    if Touches(ix(hashes[i]), c) {
      LoadRemove(ix, hashes, live, i, c, |hashes|);
    } else {
      LoadIgnoresDead(ix, hashes, live, i, c, |hashes|);
    }
  }

  /** The queue minus its popped cell stays good while a hash is peeled at that cell. */
  lemma QueuePeel(ix: Index, retained: seq<u64>, live: set<nat>, used: set<nat>, queue: seq<u32>, capacity: nat,
                  c: u32, i: nat)
    requires Queued(ix, retained, live, used, queue, capacity) && c !in queue && i < |retained| && i in live
    ensures Queued(ix, retained, live - {i}, used + {c}, queue, capacity)
  {
    hide LoadOn;
    forall k | 0 <= k < |queue|
      ensures LoadOn(ix, retained, live - {i}, queue[k], |retained|).count <= 1
    {
      LoadCountDrops(ix, retained, live, i, queue[k]);
    }
  }

  /** A cell whose count drops from two to one is new to the queue. */
  lemma QueuePush(ix: Index, retained: seq<u64>, live: set<nat>, used: set<nat>, queue: seq<u32>, capacity: nat,
                  x: u32)
    requires Queued(ix, retained, live, used, queue, capacity)
    requires x < capacity && x !in used && x !in queue
    requires LoadOn(ix, retained, live, x, |retained|).count <= 1
    ensures Queued(ix, retained, live, used, queue + [x], capacity)
  {
  }

  lemma QueuePop(ix: Index, retained: seq<u64>, live: set<nat>, used: set<nat>, queue: seq<u32>, capacity: nat, c: u32)
    requires Queued(ix, retained, live, used, queue + [c], capacity)
    ensures c !in queue && c < capacity && c !in used
    ensures LoadOn(ix, retained, live, c, |retained|).count <= 1
    ensures Queued(ix, retained, live, used, queue, capacity)
  {
    hide LoadOn;
    var whole := queue + [c];
    assert whole[|queue|] == c;
    assert forall k :: 0 <= k < |queue| ==> whole[k] == queue[k];
    assert forall j, k :: 0 <= j < k < |queue| ==> whole[j] != whole[k];
  }

  lemma {:induction false} DistinctFits(queue: seq<u32>, room: set<nat>)
    requires forall j, k :: 0 <= j < k < |queue| ==> queue[j] != queue[k]
    requires forall k :: 0 <= k < |queue| ==> queue[k] in room
    ensures |queue| <= |room|
  {
    if |queue| > 0 {
      var last := |queue| - 1;
      DistinctFits(queue[..last], room - {queue[last]});
    }
  }

  /** There is always room to write one more cell number behind the queue. */
  lemma QueueHasRoom(ix: Index, retained: seq<u64>, live: set<nat>, used: set<nat>, queue: seq<u32>, capacity: nat)
    requires Queued(ix, retained, live, used, queue, capacity)
    requires exists c: nat :: c < capacity && c in used
    ensures |queue| < capacity
  {
    hide LoadOn, Below;
    var c: nat :| c < capacity && c in used;
    DistinctFits(queue, Below(capacity) - {c});
  }

  /** Cells to queue when a hash leaves cell `c`: those it leaves with a single live hash. */
  function Push(counts: seq<u8>, c: u32): (r: seq<u32>)
    requires c < |counts|
  {
    if counts[c] / 4 == 2 then [c] else []
  }

  /** A counter of two means two live hashes, so the cell is not in the queue yet. */
  lemma PushIsNew(ix: Index, retained: seq<u64>, live: set<nat>, used: set<nat>, queue: seq<u32>, capacity: nat,
                  counts: seq<u8>, words: seq<u64>, x: u32)
    requires Queued(ix, retained, live, used, queue, capacity)
    requires OpenCells(ix, retained, live, used, counts, words)
    requires x < |counts| && x !in used && counts[x] / 4 == 2
    ensures LoadOn(ix, retained, live, x, |retained|).count == 2 && x !in queue
  {
    hide LoadOn;
  }

  /** Queueing a cell that the peeled hash leaves with a single hash. */
  lemma PushKeepsQueue(ix: Index, retained: seq<u64>, live: set<nat>, used: set<nat>, queue: seq<u32>, capacity: nat,
                       counts: seq<u8>, words: seq<u64>, c: u32, i: nat, more: seq<u32>, x: u32)
    requires Queued(ix, retained, live, used, queue, capacity)
    requires OpenCells(ix, retained, live, used, counts, words) && |counts| == capacity
    requires i < |retained| && i in live && Touches(ix(retained[i]), x)
    requires Queued(ix, retained, live - {i}, used + {c}, queue + more, capacity)
    requires x < capacity && x !in used && x != c && x !in more
    ensures Queued(ix, retained, live - {i}, used + {c}, queue + more + Push(counts, x), capacity)
  {
    hide LoadOn, Queued, OpenCells;
    if counts[x] / 4 == 2 {
      PushIsNew(ix, retained, live, used, queue, capacity, counts, words, x);
      LoadCountDrops(ix, retained, live, i, x);
      QueuePush(ix, retained, live - {i}, used + {c}, queue + more, capacity, x);
    } else {
      assert queue + more + Push(counts, x) == queue + more;
    }
  }

  /** The queue after peeling the hash at position `i` from its cell `c`. */
  lemma QueueAfterPeel(ix: Index, retained: seq<u64>, live: set<nat>, used: set<nat>, queue: seq<u32>, capacity: nat,
                       counts: seq<u8>, words: seq<u64>, c: u32, i: nat, found: nat)
    requires Queued(ix, retained, live, used, queue, capacity) && c !in queue && c < capacity
    requires OpenCells(ix, retained, live, used, counts, words) && |counts| == capacity < TWO32
    requires i < |retained| && i in live && found < 3
    requires ProperTriple(ix(retained[i]), capacity) && c == Pick(ix(retained[i]), found)
    requires forall u :: u in used ==> !Touches(ix(retained[i]), u)
    ensures var t := ix(retained[i]);
            var one := queue + Push(counts, Pick(t, Next(found)));
            && |one| < capacity
            && Queued(ix, retained, live - {i}, used + {c}, one + Push(counts, Pick(t, Next(Next(found)))), capacity)
  {
    hide LoadOn, Queued, OpenCells, Push;
    var t := ix(retained[i]);
    var a, b := Pick(t, Next(found)), Pick(t, Next(Next(found)));
    QueuePeel(ix, retained, live, used, queue, capacity, c, i);
    assert queue + [] == queue;
    PushKeepsQueue(ix, retained, live, used, queue, capacity, counts, words, c, i, [], a);
    assert queue + [] + Push(counts, a) == queue + Push(counts, a);
    assert c in used + {c};
    QueueHasRoom(ix, retained, live - {i}, used + {c}, queue + Push(counts, a), capacity);
    PushHoldsOnly(counts, a);
    PushKeepsQueue(ix, retained, live, used, queue, capacity, counts, words, c, i, Push(counts, a), b);
  }

  lemma PushHoldsOnly(counts: seq<u8>, a: u32)
    requires a < |counts|
    ensures forall b :: b in Push(counts, a) ==> b == a
  {
  }

  /** The invariant of the peeling loop. */
  ghost predicate PeelInvariant(ix: Index, retained: seq<u64>, live: set<nat>, used: set<nat>,
                                counts: seq<u8>, words: seq<u64>, hs: seq<u64>, roles: seq<u8>, queue: seq<u32>)
  {
    && Conserved(retained, live, hs)
    && Pivots(ix, retained, live, used, hs, roles)
    && OpenCells(ix, retained, live, used, counts, words)
    && Queued(ix, retained, live, used, queue, |counts|)
    && Covered(ix, retained, live, used, queue, |counts|)
  }

  /** A cell left with a single live hash by peeling was queued before or is queued now. */
  lemma CoveredAfterPeel(ix: Index, retained: seq<u64>, live: set<nat>, used: set<nat>, queue: seq<u32>,
                         counts: seq<u8>, words: seq<u64>, c: u32, i: nat, found: nat)
    requires Covered(ix, retained, live, used, queue + [c], |counts|)
    requires OpenCells(ix, retained, live, used, counts, words) && |counts| < TWO32
    requires i < |retained| && i in live && found < 3
    requires ProperTriple(ix(retained[i]), |counts|) && c == Pick(ix(retained[i]), found)
    ensures var t := ix(retained[i]);
            Covered(ix, retained, live - {i}, used + {c},
                    queue + Push(counts, Pick(t, Next(found))) + Push(counts, Pick(t, Next(Next(found)))), |counts|)
  {
    hide LoadOn, Push;
    var t := ix(retained[i]);
    var a, b := Pick(t, Next(found)), Pick(t, Next(Next(found)));
    var pushed := queue + Push(counts, a) + Push(counts, b);
    forall x: nat | x < |counts| && x !in used + {c} && LoadOn(ix, retained, live - {i}, x, |retained|).count == 1
      ensures exists k :: 0 <= k < |pushed| && pushed[k] == x
    {
      LoadCountDrops(ix, retained, live, i, x);
      if Touches(t, x) {
        assert counts[x] / 4 == 2;
        PushedIs(counts, x);
        assert x == a || x == b by { OtherCell(t, x, found); }
        assert pushed[|queue| + if x == a then 0 else |Push(counts, a)|] == x;
      } else {
        var k :| 0 <= k < |queue + [c]| && (queue + [c])[k] == x;
        assert pushed[k] == x;
      }
    }
  }

  lemma PushedIs(counts: seq<u8>, x: u32)
    requires x < |counts| && counts[x] / 4 == 2
    ensures Push(counts, x) == [x]
  {
  }

  lemma OtherCell(t: Triple, x: nat, found: nat)
    requires Touches(t, x) && found < 3 && x != Pick(t, found)
    ensures x == Pick(t, Next(found)) || x == Pick(t, Next(Next(found)))
  {
  }

  /** Dropping a popped cell that has lost its hash meanwhile. */
  lemma PeelSkip(ix: Index, retained: seq<u64>, live: set<nat>, used: set<nat>, counts: seq<u8>, words: seq<u64>,
                 hs: seq<u64>, roles: seq<u8>, queue: seq<u32>, c: u32)
    requires PeelInvariant(ix, retained, live, used, counts, words, hs, roles, queue + [c])
    requires c < |counts| && counts[c] / 4 != 1
    ensures PeelInvariant(ix, retained, live, used, counts, words, hs, roles, queue)
  {
    hide Conserved, Pivots, Queued, LoadOn;
    QueuePop(ix, retained, live, used, queue, |counts|, c);
    forall x: nat | x < |counts| && x !in used && LoadOn(ix, retained, live, x, |retained|).count == 1
      ensures exists k :: 0 <= k < |queue| && queue[k] == x
    {
      var k :| 0 <= k < |queue + [c]| && (queue + [c])[k] == x;
      assert queue[k] == x;
    }
  }

  /** A popped cell with counter one yields its only live hash and role. */
  lemma PeelFinds(ix: Index, retained: seq<u64>, live: set<nat>, used: set<nat>, counts: seq<u8>, words: seq<u64>,
                  hs: seq<u64>, roles: seq<u8>, queue: seq<u32>, c: u32) returns (i: nat)
    requires PeelInvariant(ix, retained, live, used, counts, words, hs, roles, queue + [c])
    requires c < |counts| && counts[c] / 4 == 1
    ensures i in live && i < |retained| && Touches(ix(retained[i]), c)
    ensures LoadOn(ix, retained, live, c, |retained|).count == 1
    ensures words[c] == retained[i] && counts[c] % 4 == Role(ix(retained[i]), c) < 3
  {
    hide LoadOn, Conserved, Pivots, Queued, Below;
    QueuePop(ix, retained, live, used, queue, |counts|, c);
    i := LoadOne(ix, retained, live, c, |retained|);
  }

  /** The invariant survives peeling the hash at position `i` from cell `c`. */
  lemma PeelStep(ix: Index, retained: seq<u64>, live: set<nat>, used: set<nat>, counts: seq<u8>, words: seq<u64>,
                 hs: seq<u64>, roles: seq<u8>, queue: seq<u32>, c: u32, i: nat)
    requires PeelInvariant(ix, retained, live, used, counts, words, hs, roles, queue + [c])
    requires c < |counts| < TWO32 && i in live && i < |retained| && Touches(ix(retained[i]), c)
    requires LoadOn(ix, retained, live, c, |retained|).count == 1
    requires ProperTriple(ix(retained[i]), |counts|)
    ensures var t, found := ix(retained[i]), Role(ix(retained[i]), c);
            var one := queue + Push(counts, Pick(t, Next(found)));
            && |hs| < |retained| && |one| < |counts| && c == Pick(t, found)
            && PeelInvariant(ix, retained, live - {i}, used + {c},
                             PeelCounts(counts, t, found), PeelWords(words, t, found, retained[i]),
                             hs + [retained[i]], roles + [found], one + Push(counts, Pick(t, Next(Next(found)))))
  {
    hide LoadOn, Conserved, OpenCells, Queued, Covered, Push, PeelCounts, PeelWords, PeelOrder;
    var t, found := ix(retained[i]), Role(ix(retained[i]), c);
    PickOfRole(t, c);
    QueuePop(ix, retained, live, used, queue, |counts|, c);
    PeelConserved(retained, live, hs, i);
    PeelPivots(ix, retained, live, used, hs, roles, c, i);
    PeelOpenCells(ix, retained, live, used, counts, words, i, found);
    QueueAfterPeel(ix, retained, live, used, queue, |counts|, counts, words, c, i, found);
    CoveredAfterPeel(ix, retained, live, used, queue, counts, words, c, i, found);
  }

  /** Removes a hash from one cell, queueing the cell if that leaves it with one hash. */
  method RemoveOne(t2count: array<u8>, t2hash: array<u64>, alone: array<u32>, queued: nat,
                   other: u32, role: u8, hash: u64)
    returns (queued': nat)
    requires t2count as object != t2hash && t2count as object != alone && t2hash as object != alone
    requires other < t2count.Length == t2hash.Length && queued < alone.Length
    modifies t2count, t2hash, alone
    ensures t2count[..] == old(t2count[..])[other := Down(old(t2count[other]), role)]
    ensures t2hash[..] == old(t2hash[..])[other := Xor64(old(t2hash[other]), hash)]
    ensures queued' == queued + |Push(old(t2count[..]), other)|
    ensures alone[..queued'] == old(alone[..queued]) + Push(old(t2count[..]), other)
  {
    hide Xor, Down;
    alone[queued] := other;
    queued' := queued;
    if t2count[other] / 4 == 2 {
      queued' := queued' + 1;
    }
    t2count[other] := Down(t2count[other], role);
    t2hash[other] := Xor64(t2hash[other], hash);
  }

  /** Removes a stacked hash from the two cells other than `index`, found by the branch-free
      computation; `t` are the hash's cells and `found` the role of `index` among them. */
  method RemoveFromOthers(g: Geometry, t2count: array<u8>, t2hash: array<u64>, alone: array<u32>, queued: nat,
                          index: u32, hash: u64, found: u8, ghost t: Triple)
    returns (queued': nat)
    requires g.Valid() && t == Cells(g, hash) && found < 3 && index == Pick(t, found)
    requires t2count as object != t2hash && t2count as object != alone && t2hash as object != alone
    requires t2count.Length == t2hash.Length == alone.Length == g.Capacity()
    requires ProperTriple(t, g.Capacity())
    requires queued + |Push(t2count[..], Pick(t, Next(found)))| < alone.Length
    modifies t2count, t2hash, alone
    ensures t2count[..] == PeelCounts(old(t2count[..]), t, found)
    ensures t2hash[..] == PeelWords(old(t2hash[..]), t, found, hash)
    ensures queued' <= alone.Length
    ensures alone[..queued'] == old(alone[..queued]) + Push(old(t2count[..]), Pick(t, Next(found)))
                                + Push(old(t2count[..]), Pick(t, Next(Next(found))))
  {
    hide Xor, Down, Cells, OtherCells, Role, Touches;
    OtherCellsCorrect(g, hash, found);
    var (other1, other2, f1, f2) := OtherCells(g, hash, found, index);
    queued' := RemoveOne(t2count, t2hash, alone, queued, other1, f1, hash);
    queued' := RemoveOne(t2count, t2hash, alone, queued', other2, f2, hash);
  }

  /** Queues the cells that hold a single hash. */
  method QueueSingles(t2count: array<u8>, alone: array<u32>) returns (queued: nat)
    requires t2count as object != alone && t2count.Length == alone.Length < TWO32
    modifies alone
    ensures queued <= alone.Length
    ensures forall j, k :: 0 <= j < k < queued ==> alone[j] < alone[k]
    ensures forall k :: 0 <= k < queued ==> alone[k] < t2count.Length && t2count[alone[k]] / 4 == 1
    ensures forall c: nat :: c < t2count.Length && t2count[c] / 4 == 1 ==> exists k :: 0 <= k < queued && alone[k] == c
  {
    queued := 0;
    for i := 0 to t2count.Length
      invariant queued <= i
      invariant forall j, k :: 0 <= j < k < queued ==> alone[j] < alone[k]
      invariant forall k :: 0 <= k < queued ==> alone[k] < i && t2count[alone[k]] / 4 == 1
      invariant forall c: nat :: c < i && t2count[c] / 4 == 1 ==> exists k :: 0 <= k < queued && alone[k] == c
    {
      ghost var before := alone[..queued];
      alone[queued] := i;
      assert alone[..queued] == before;
      if t2count[i] / 4 == 1 {
        queued := queued + 1;
        assert alone[queued - 1] == i;
      }
    }
  }

  /** The peeling invariant holds before anything is peeled. */
  lemma PeelStart(ix: Index, retained: seq<u64>, counts: seq<u8>, words: seq<u64>, queue: seq<u32>)
    requires TableIs(ix, retained, Below(|retained|), counts, words)
    requires forall j, k :: 0 <= j < k < |queue| ==> queue[j] < queue[k]
    requires forall k :: 0 <= k < |queue| ==> queue[k] < |counts| && counts[queue[k]] / 4 == 1
    requires forall c: nat :: c < |counts| && counts[c] / 4 == 1 ==> exists k :: 0 <= k < |queue| && queue[k] == c
    ensures PeelInvariant(ix, retained, Below(|retained|), {}, counts, words, [], [], queue)
  {
    hide LoadOn, Below;
  }

  /** No set of hashes that cannot be peeled contains the only live hash of a cell. */
  lemma StuckKeeps(ix: Index, retained: seq<u64>, live: set<nat>, capacity: nat, c: nat, i: nat, s: set<nat>)
    requires c < capacity && i in live && i < |retained| && Touches(ix(retained[i]), c)
    requires LoadOn(ix, retained, live, c, |retained|).count == 1
    requires Stuck(ix, retained, s, capacity) && s <= live
    ensures i !in s
  {
    if i in s {
      hide LoadOn;
      forall j | 0 <= j < |retained| && j in s - {i} ensures !Touches(ix(retained[j]), c) {
        LoadOneAlone(ix, retained, live, c, i, j);
      }
      LoadUntouched(ix, retained, s - {i}, c, |retained|);
      LoadRemove(ix, retained, s, i, c, |retained|);
    }
  }

  /** Every set of hashes that cannot be peeled is among the live ones. */
  ghost predicate KeepsStuck(ix: Index, retained: seq<u64>, live: set<nat>, capacity: nat)
  {
    forall s: set<nat> :: Stuck(ix, retained, s, capacity) ==> s <= live
  }

  lemma PeelKeepsStuck(ix: Index, retained: seq<u64>, live: set<nat>, capacity: nat, c: nat, i: nat)
    requires c < capacity && i in live && i < |retained| && Touches(ix(retained[i]), c)
    requires LoadOn(ix, retained, live, c, |retained|).count == 1 && KeepsStuck(ix, retained, live, capacity)
    ensures KeepsStuck(ix, retained, live - {i}, capacity)
  {
    hide LoadOn, Stuck;
    forall s: set<nat> | Stuck(ix, retained, s, capacity) ensures s <= live - {i} {
      StuckKeeps(ix, retained, live, capacity, c, i, s);
    }
  }

  lemma AllKeepStuck(ix: Index, retained: seq<u64>, capacity: nat)
    ensures KeepsStuck(ix, retained, Below(|retained|), capacity)
  {
    hide LoadOn, Below;
  }

  /** The arrays of the peeling pass are separate objects. */
  ghost predicate Separate(t2count: array<u8>, t2hash: array<u64>, alone: array<u32>,
                           order: array<u64>, reverseH: array<u8>)
  {
    && t2count as object != t2hash && t2count as object != alone && t2hash as object != alone
    && order as object !in {t2count as object, t2hash, alone, reverseH}
    && reverseH as object !in {t2count as object, t2hash, alone}
  }

  /** Stacks the only hash of the popped cell `index` and removes it from its other cells. */
  method PeelAt(g: Geometry, t2count: array<u8>, t2hash: array<u64>, alone: array<u32>,
                order: array<u64>, reverseH: array<u8>, queued: nat, stacked: nat, index: u32,
                ghost retained: seq<u64>, ghost live: set<nat>, ghost used: set<nat>)
    returns (queued': nat, ghost live': set<nat>, ghost used': set<nat>)
    requires g.Valid() && Separate(t2count, t2hash, alone, order, reverseH)
    requires t2count.Length == t2hash.Length == alone.Length == g.Capacity()
    requires |retained| <= order.Length && |retained| <= reverseH.Length
    requires queued <= alone.Length && stacked <= |retained|
    requires PeelInvariant(IndexOf(g), retained, live, used, t2count[..], t2hash[..],
                           order[..stacked], reverseH[..stacked], alone[..queued] + [index])
    requires index < t2count.Length && t2count[index] / 4 == 1 && KeepsStuck(IndexOf(g), retained, live, g.Capacity())
    modifies t2count, t2hash, alone, order, reverseH
    ensures queued' <= alone.Length && stacked < |retained| && |live'| < |live|
    ensures KeepsStuck(IndexOf(g), retained, live', g.Capacity())
    ensures PeelInvariant(IndexOf(g), retained, live', used', t2count[..], t2hash[..],
                          order[..stacked + 1], reverseH[..stacked + 1], alone[..queued'])
    ensures forall k :: stacked < k < order.Length ==> order[k] == old(order[k])
  {
    hide PeelInvariant, LoadOn, IndexOf, Push, PeelCounts, PeelWords, Cells, KeepsStuck;
    ghost var ix := IndexOf(g);
    ghost var hs, roles := order[..stacked], reverseH[..stacked];
    ghost var i := PeelFinds(ix, retained, live, used, t2count[..], t2hash[..], hs, roles, alone[..queued], index);
    CellsProper(g, retained[i]);
    PeelKeepsStuck(ix, retained, live, g.Capacity(), index, i);
    PeelStep(ix, retained, live, used, t2count[..], t2hash[..], hs, roles, alone[..queued], index, i);
    var hash, found := t2hash[index], t2count[index] % 4;
    reverseH[stacked] := found;
    order[stacked] := hash;
    assert order[..stacked + 1] == hs + [hash] && reverseH[..stacked + 1] == roles + [found];
    queued' := RemoveFromOthers(g, t2count, t2hash, alone, queued, index, hash, found, Cells(g, hash));
    live', used' := live - {i}, used + {index};
  }

  /** The peeling loop. It stacks retained hashes so that each one's pivot is touched by none
      stacked later; if the stack is full, it holds every retained hash. What is left is the greatest
      set of hashes that cannot be peeled, in whatever order one tries. */
  method Peel(g: Geometry, t2count: array<u8>, t2hash: array<u64>, alone: array<u32>,
              order: array<u64>, reverseH: array<u8>, ghost retained: seq<u64>)
    returns (stacked: nat, ghost live: set<nat>)
    requires g.Valid() && Separate(t2count, t2hash, alone, order, reverseH)
    requires t2count.Length == t2hash.Length == alone.Length == g.Capacity()
    requires |retained| <= order.Length && |retained| <= reverseH.Length
    requires TableIs(IndexOf(g), retained, Below(|retained|), t2count[..], t2hash[..])
    modifies t2count, t2hash, alone, order, reverseH
    ensures stacked <= |retained|
    ensures PeelOrder(IndexOf(g), order[..stacked], reverseH[..stacked])
    ensures stacked == |retained| ==> forall h :: h in retained ==> h in order[..stacked]
    ensures |live| + stacked == |retained| && Stuck(IndexOf(g), retained, live, g.Capacity())
    ensures KeepsStuck(IndexOf(g), retained, live, g.Capacity())
    ensures forall k :: stacked <= k < order.Length ==> order[k] == old(order[k])
  {
    hide PeelInvariant, PeelOrder, TableIs, LoadOn, Below, IndexOf, Cells, KeepsStuck;
    ghost var ix := IndexOf(g);
    var queued: nat := QueueSingles(t2count, alone);
    SinglesQueued(t2count[..], alone[..], queued);
    PeelStart(ix, retained, t2count[..], t2hash[..], alone[..queued]);
    stacked := 0;
    live := Below(|retained|);
    AllKeepStuck(ix, retained, g.Capacity());
    ghost var used: set<nat> := {};
    assert order[..0] == [] && reverseH[..0] == [];
    while queued > 0
      invariant queued <= alone.Length && stacked <= |retained|
      invariant PeelInvariant(ix, retained, live, used, t2count[..], t2hash[..],
                              order[..stacked], reverseH[..stacked], alone[..queued])
      invariant KeepsStuck(ix, retained, live, g.Capacity())
      invariant forall k :: stacked <= k < order.Length ==> order[k] == old(order[k])
      decreases |live|, queued
    {
      queued := queued - 1;
      var index := alone[queued];
      assert alone[..queued + 1] == alone[..queued] + [index];
      IndexBound(ix, retained, live, used, t2count[..], t2hash[..], order[..stacked], reverseH[..stacked],
                 alone[..queued], index);
      if t2count[index] / 4 == 1 {
        queued, live, used := PeelAt(g, t2count, t2hash, alone, order, reverseH, queued, stacked, index,
                                     retained, live, used);
        stacked := stacked + 1;
      } else {
        PeelSkip(ix, retained, live, used, t2count[..], t2hash[..],
                 order[..stacked], reverseH[..stacked], alone[..queued], index);
      }
    }
    assert alone[..0] == [];
    PeelDone(ix, retained, live, used, t2count[..], t2hash[..], order[..stacked], reverseH[..stacked]);
  }

  lemma SinglesQueued(counts: seq<u8>, cells: seq<u32>, queued: nat)
    requires queued <= |cells|
    requires forall c: nat :: c < |counts| && counts[c] / 4 == 1 ==> exists k :: 0 <= k < queued && cells[k] == c
    ensures forall c: nat :: c < |counts| && counts[c] / 4 == 1 ==>
              exists k :: 0 <= k < |cells[..queued]| && cells[..queued][k] == c
  {
    forall c: nat | c < |counts| && counts[c] / 4 == 1
      ensures exists k :: 0 <= k < |cells[..queued]| && cells[..queued][k] == c
    {
      var k :| 0 <= k < queued && cells[k] == c;
      assert cells[..queued][k] == c;
    }
  }

  lemma IndexBound(ix: Index, retained: seq<u64>, live: set<nat>, used: set<nat>, counts: seq<u8>, words: seq<u64>,
                   hs: seq<u64>, roles: seq<u8>, queue: seq<u32>, c: u32)
    requires PeelInvariant(ix, retained, live, used, counts, words, hs, roles, queue + [c])
    ensures c < |counts|
  {
    hide Conserved, Pivots, OpenCells, Queued;
    QueuePop(ix, retained, live, used, queue, |counts|, c);
  }

  lemma PeelDone(ix: Index, retained: seq<u64>, live: set<nat>, used: set<nat>, counts: seq<u8>, words: seq<u64>,
                 hs: seq<u64>, roles: seq<u8>)
    requires PeelInvariant(ix, retained, live, used, counts, words, hs, roles, [])
    ensures |hs| <= |retained| && PeelOrder(ix, hs, roles)
    ensures |hs| == |retained| ==> forall h :: h in retained ==> h in hs
    ensures |live| + |hs| == |retained| && Stuck(ix, retained, live, |counts|)
  {
    hide OpenCells, Queued, LoadOn, Below;
    forall c: nat | c < |counts| ensures LoadOn(ix, retained, live, c, |retained|).count != 1 {
      if c in used {
        LoadUntouched(ix, retained, live, c, |retained|);
      }
    }
    if |hs| == |retained| {
      forall h | h in retained ensures h in hs {
        var i :| 0 <= i < |retained| && retained[i] == h;
        assert live == {};
      }
    }
  }
}
