/** The directory builder: entries are chunked into leaf objects whose keys feed the index. */
module DirectoryBuilder {
  import opened Bits
  import opened ByteOrder
  import opened Runs
  import opened TreeModel
  import opened TreeShape
  import opened TreeBuilder

  function LastName(run: seq<Entry>): Name
  {
    if |run| == 0 then [] else run[|run| - 1].name
  }

  /** The index leaf that a run of entries becomes. */
  ghost function RunLeaf(cfg: Config, run: seq<Entry>): Tree
    requires cfg.encode(DirLeaf(run)).Some?
  {
    Leaf(cfg.encode(DirLeaf(run)).value, LastName(run))
  }

  /** The runs were emitted as leaf objects, and these are the leaves of the index. */
  ghost predicate RunsAre(cfg: Config, runs: seq<seq<Entry>>, leaves: seq<Tree>, objs: seq<Object>)
  {
    && |leaves| == |runs|
    && forall i :: 0 <= i < |runs| ==>
                     && cfg.encode(DirLeaf(runs[i])).Some?
                     && leaves[i] == RunLeaf(cfg, runs[i])
                     && Object(leaves[i].key, DirLeaf(runs[i])) in objs
  }

  /** Runs hold one to `maxRun` entries, except the single empty run of an empty directory. */
  ghost predicate RunSizes(runs: seq<seq<Entry>>, maxRun: nat)
  {
    && (forall i :: 0 <= i < |runs| ==> |runs[i]| <= maxRun)
    && (runs == [[]] || forall i :: 0 <= i < |runs| ==> runs[i] != [])
  }

  lemma RunsAppend(cfg: Config, runs: seq<seq<Entry>>, leaves: seq<Tree>, objs: seq<Object>,
                   run: seq<Entry>, o: Object, more: seq<Object>)
    requires RunsAre(cfg, runs, leaves, objs) && cfg.encode(DirLeaf(run)).Some?
    requires o == Object(cfg.encode(DirLeaf(run)).value, DirLeaf(run)) && objs + [o] <= more
    ensures RunsAre(cfg, runs + [run], leaves + [RunLeaf(cfg, run)], more)
  {
    assert forall x :: x in objs ==> x in more by {
      forall x | x in objs ensures x in more {
        var j :| 0 <= j < |objs| && objs[j] == x;
        assert more[j] == (objs + [o])[j];
      }
    }
    assert more[|objs|] == (objs + [o])[|objs|];
  }

  lemma RunsMore(cfg: Config, runs: seq<seq<Entry>>, leaves: seq<Tree>, objs: seq<Object>, more: seq<Object>)
    requires RunsAre(cfg, runs, leaves, objs) && objs <= more
    ensures RunsAre(cfg, runs, leaves, more)
  {
    forall x | x in objs ensures x in more {
      var j :| 0 <= j < |objs| && objs[j] == x;
      assert more[j] == objs[j];
    }
  }

  ghost predicate Encodable(cfg: Config, runs: seq<seq<Entry>>)
  {
    forall i :: 0 <= i < |runs| ==> cfg.encode(DirLeaf(runs[i])).Some?
  }

  ghost function RunLeaves(cfg: Config, runs: seq<seq<Entry>>): (leaves: seq<Tree>)
    requires Encodable(cfg, runs)
    ensures |leaves| == |runs| && forall i :: 0 <= i < |runs| ==> leaves[i] == RunLeaf(cfg, runs[i])
  {
    seq(|runs|, i requires 0 <= i < |runs| => RunLeaf(cfg, runs[i]))
  }

  /** One of these runs cannot be encoded, or some index node over them. */
  ghost predicate DirRefused(cfg: Config, runs: seq<seq<Entry>>)
  {
    !Encodable(cfg, runs) || NodeRefused(cfg, true, RunLeaves(cfg, runs))
  }

  lemma RunRefusedLast(cfg: Config, runs: seq<seq<Entry>>, run: seq<Entry>)
    requires cfg.encode(DirLeaf(run)).None?
    ensures DirRefused(cfg, runs + [run])
  {
    assert (runs + [run])[|runs|] == run;
  }

  /** Runs that were emitted are the leaves of the index, so a node refused over those is refused
      over the runs. */
  lemma NodeRefusedOver(cfg: Config, runs: seq<seq<Entry>>, leaves: seq<Tree>, objs: seq<Object>)
    requires RunsAre(cfg, runs, leaves, objs) && NodeRefused(cfg, true, leaves)
    ensures DirRefused(cfg, runs)
  {
    hide NodeRefused;
    assert RunLeaves(cfg, runs) == leaves;
  }

  lemma NodeRefusedNext(cfg: Config, runs: seq<seq<Entry>>, leaves: seq<Tree>, objs: seq<Object>, run: seq<Entry>)
    requires RunsAre(cfg, runs, leaves, objs) && cfg.encode(DirLeaf(run)).Some?
    requires NodeRefused(cfg, true, leaves + [RunLeaf(cfg, run)])
    ensures DirRefused(cfg, runs + [run])
  {
    hide NodeRefused;
    var all := runs + [run];
    if Encodable(cfg, all) {
      assert RunLeaves(cfg, all) == leaves + [RunLeaf(cfg, run)];
    }
  }

  /** The closed runs and the open one are those of the rule. */
  ghost predicate CutSoFar(cfg: Config, es: seq<Entry>, runs: seq<seq<Entry>>, leaf: seq<Entry>)
  {
    runs == ClosedRuns(EntryRule(cfg), es) && leaf == OpenRun(EntryRule(cfg), es)
  }

  /** One more entry: its run goes on, or ends where the boundary test of the code says. */
  lemma CutNext(cfg: Config, es: seq<Entry>, runs: seq<seq<Entry>>, leaf: seq<Entry>, e: Entry)
    requires cfg.Valid() && CutSoFar(cfg, es, runs, leaf)
    ensures var run := leaf + [e];
            if IsBoundary(cfg.ic, cfg.digest(EntryItem(e)), |run|) then CutSoFar(cfg, es + [e], runs + [run], [])
            else CutSoFar(cfg, es + [e], runs, run)
  {
    hide EntryRule;
    RunNext(EntryRule(cfg), es, e);
    EntryRuleIs(cfg, leaf + [e]);
  }

  class DirBuilder {
    const cfg: Config
    const idx: IndexBuilder
    var leaf: seq<Entry>
    var leafMax: Name
    var runLen: nat
    ghost var runs: seq<seq<Entry>>

    /** All entries added so far. */
    ghost function Entries(): seq<Entry>
      reads this
    {
      Flat(runs) + leaf
    }

    ghost predicate Consistent(sink: Sink)
      reads this, idx, sink
    {
      && idx.Valid(sink) && idx.isDir && idx.cfg == cfg && idx.given == {}
      && runLen == |leaf| && leafMax == LastName(leaf)
      && RunsAre(cfg, runs, LeavesOf(idx.Items()), sink.emitted)
      && (idx.levels == [] <==> runs == [])
    }

    /** What holds between calls: the entries are cut into runs where the rule says. */
    ghost predicate Valid(sink: Sink)
      reads this, idx, sink
    {
      && Consistent(sink) && |leaf| < cfg.ic.maxRun && RunSizes(runs, cfg.ic.maxRun)
      && (forall i :: 0 <= i < |runs| ==> runs[i] != [])
      && CutSoFar(cfg, Entries(), runs, leaf)
    }

    constructor (cfg: Config, sink: Sink)
      requires cfg.Valid() && sink.emitted == []
      ensures this.cfg == cfg && fresh(idx) && Valid(sink) && Entries() == []
    {
      this.cfg := cfg;
      idx := new IndexBuilder(cfg, true, sink);
      leaf := [];
      leafMax := [];
      runLen := 0;
      runs := [];
      new;
      hide CutSoFar, Shaped, State, LastIsNewest, Flatten;
      NothingCut(cfg);
    }

    /** `add_entry`: an entry that does not marshal leaves the builder unchanged, and a run that
        cannot be encoded stays in place, the new entry with it. */
    method AddEntry(sink: Sink, e: Entry) returns (r: Outcome)
      requires Valid(sink)
      modifies this, idx, sink
      ensures r.Done? ==> Valid(sink) && Entries() == old(Entries()) + [e]
      ensures !cfg.marshals(e) ==> r == EncodeError && unchanged(this) && unchanged(idx) && unchanged(sink)
      ensures sink.refused == (old(sink.refused) || r.EmitError?)
      ensures r.EncodeError? ==> !cfg.marshals(e) || DirRefused(cfg, old(runs) + [old(leaf) + [e]])
      ensures var run := old(leaf) + [e];
              cfg.marshals(e) && IsBoundary(cfg.ic, cfg.digest(EntryItem(e)), |run|) && cfg.encode(DirLeaf(run)).None? ==>
                && r.EncodeError? && unchanged(idx) && unchanged(sink)
                && leaf == run && leafMax == e.name && runLen == |run| && runs == old(runs)
    {
      hide DirRefused, RunsAre, RunSizes, Flat, State, LastIsNewest, Flatten, LeavesOf, CutSoFar, Shaped;
      if !cfg.marshals(e) {
        return EncodeError;
      }
      CutNext(cfg, Entries(), runs, leaf, e);
      leafMax := e.name;
      leaf := leaf + [e];
      runLen := runLen + 1;
      assert Entries() == old(Entries()) + [e];
      if IsBoundary(cfg.ic, cfg.digest(EntryItem(e)), runLen) {
        r := CloseLeaf(sink);
        assert r.Done? ==> Flat(runs) + [] == Flat(runs);
      } else {
        r := Done;
      }
    }

    /** `close_leaf`: emits the open run and promotes its key; a run that cannot be encoded stays in
        place. */
    method CloseLeaf(sink: Sink) returns (r: Outcome)
      requires Consistent(sink) && |leaf| <= cfg.ic.maxRun && RunSizes(runs, cfg.ic.maxRun)
      requires leaf != [] || runs == []
      requires forall i :: 0 <= i < |runs| ==> runs[i] != []
      modifies this, idx, sink
      ensures r.Done? ==> Consistent(sink) && leaf == [] && RunSizes(runs, cfg.ic.maxRun) && runs != []
      ensures r.Done? && old(leaf) != [] ==> forall i :: 0 <= i < |runs| ==> runs[i] != []
      ensures r.Done? ==> Flat(runs) == old(Entries()) && runs == old(runs) + [old(leaf)]
      ensures cfg.encode(DirLeaf(old(leaf))).None? ==>
                r.EncodeError? && unchanged(this) && unchanged(idx) && unchanged(sink)
      ensures sink.refused == (old(sink.refused) || r.EmitError?)
      ensures r.EncodeError? ==> DirRefused(cfg, old(runs) + [old(leaf)])
    {
      hide DirRefused, RunsAre, RunSizes, Flat, State, LastIsNewest, Flatten, LeavesOf, Shaped;
      var encoded := cfg.encode(DirLeaf(leaf));
      if encoded.None? {
        RunRefusedLast(cfg, runs, leaf);
        return EncodeError;
      }
      var o := Object(encoded.value, DirLeaf(leaf));
      r := Promote(sink, o);
    }

    /** Emits the leaf object and hands its key to the index. */
    method Promote(sink: Sink, o: Object) returns (r: Outcome)
      requires Consistent(sink) && |leaf| <= cfg.ic.maxRun && RunSizes(runs, cfg.ic.maxRun)
      requires leaf != [] || runs == []
      requires forall i :: 0 <= i < |runs| ==> runs[i] != []
      requires cfg.encode(DirLeaf(leaf)) == Some(o.key) && o.node == DirLeaf(leaf)
      modifies this, idx, sink
      ensures r.Done? ==> Consistent(sink) && leaf == [] && RunSizes(runs, cfg.ic.maxRun) && runs != []
      ensures r.Done? && old(leaf) != [] ==> forall i :: 0 <= i < |runs| ==> runs[i] != []
      ensures r.Done? ==> Flat(runs) == old(Entries()) && runs == old(runs) + [old(leaf)]
      ensures sink.refused == (old(sink.refused) || r.EmitError?)
      ensures r.EncodeError? ==> DirRefused(cfg, old(runs) + [old(leaf)])
    {
      hide State, LastIsNewest, Flatten, LeavesOf, RunsAre, RunSizes, Flat, NodeRefused, DirRefused, Shaped;
      ghost var run, objs, leaves := leaf, sink.emitted, LeavesOf(idx.Items());
      var sep := leafMax;
      leafMax := [];
      leaf := [];
      runLen := 0;
      var ok := sink.Emit(o);
      if !ok {
        return EmitError;
      }
      ghost var t := Leaf(o.key, sep);
      StateEmit(cfg, true, idx.levels, idx.trees, objs, {}, o);
      NewestLast(idx.Items(), t, objs, o, {});
      LeafOk(cfg, t, objs, o);
      r := idx.Add(sink, 0, o.key, sep, t, leaves);
      if r.EncodeError? {
        assert Leaves(t) == [RunLeaf(cfg, run)];
        NodeRefusedNext(cfg, runs, leaves, objs, run);
      }
      if r.Done? {
        RunsAppend(cfg, runs, leaves, objs, run, o, sink.emitted);
        IndexNonEmpty(idx, sink);
        RunAdded(runs, run, cfg.ic.maxRun);
        runs := runs + [run];
      }
    }

    /** `finish`: the open run is closed (an empty directory gets one empty leaf) and the index
        is collapsed. It fails only if the callback refuses an object, or one of the runs or a node
        over them cannot be encoded. The root reads back as exactly the entries that were added, in order; it
        is the last object emitted, and every object follows its children. */
    method Finish(sink: Sink) returns (r: FinishResult, ghost root: Tree)
      requires Valid(sink)
      modifies this, idx, sink
      ensures !r.NoChildren?
      ensures sink.refused == (old(sink.refused) || r.FinishEmitError?)
      ensures r.FinishEncodeError? ==> DirRefused(cfg, LeafRuns(cfg, old(Entries())))
      ensures !sink.refused && !DirRefused(cfg, LeafRuns(cfg, old(Entries()))) ==> r.Root?
      ensures r.Root? ==> runs == LeafRuns(cfg, old(Entries())) && Encodable(cfg, runs)
      ensures r.Root? ==> RunLeaves(cfg, runs) != [] && root == RootOf(cfg, true, RunLeaves(cfg, runs))
      ensures r.Root? ==> root.key == r.key && Built(cfg, true, root) && Stored(true, root, sink.emitted)
      ensures r.Root? ==> RunsAre(cfg, runs, Leaves(root), sink.emitted) && RunSizes(runs, cfg.ic.maxRun)
      ensures r.Root? ==> Flat(runs) == old(Entries())
      ensures r.Root? ==> ChildrenFirst(sink.emitted, {}) && Encoded(cfg, sink.emitted)
      ensures r.Root? ==> sink.emitted != [] && sink.emitted[|sink.emitted| - 1].key == r.key
      ensures r.Root? ==> Reads(cfg, sink.emitted, root)
    {
      hide State, LastIsNewest, Flatten, LeavesOf, RunsAre, Built, Stored, ChildrenFirst, Encoded, Reads, RunSizes,
        NodeRefused, DirRefused, Shaped, RootOf, CutSoFar, LeafRuns;
      ghost var pending := LeafRuns(cfg, Entries());
      PendingIs(cfg, runs, leaf, Entries());
      root := Leaf([], []);
      assert Flat(runs) + [] == Flat(runs);
      if runLen > 0 || idx.levels == [] {
        var closed := CloseLeaf(sink);
        if !closed.Done? {
          return if closed.EncodeError? then FinishEncodeError else FinishEmitError, root;
        }
      }
      ghost var objs := sink.emitted;
      RunsNonEmpty(cfg, runs, LeavesOf(idx.Items()), objs);
      assert runs == pending;
      ghost var leaves := LeavesOf(idx.Items());
      r, root := idx.Finish(sink);
      if r.FinishEncodeError? {
        NodeRefusedOver(cfg, runs, leaves, objs);
      }
      if r.Root? {
        RunsLeaves(cfg, runs, leaves, objs);
        RunsMore(cfg, runs, Leaves(root), objs, sink.emitted);
      }
    }
  }

  lemma NothingCut(cfg: Config)
    ensures CutSoFar(cfg, [], [], [])
  {
    hide EntryRule;
  }

  /** The runs that are closed and the one that is open are those of the rule. */
  lemma PendingIs(cfg: Config, runs: seq<seq<Entry>>, leaf: seq<Entry>, es: seq<Entry>)
    requires CutSoFar(cfg, es, runs, leaf)
    ensures runs + (if leaf != [] || runs == [] then [leaf] else []) == LeafRuns(cfg, es)
  {
    hide EntryRule;
    RunsRule(EntryRule(cfg), es);
    if es == [] {
      assert [] + [leaf] == [[]];
    }
  }

  lemma RunsLeaves(cfg: Config, runs: seq<seq<Entry>>, leaves: seq<Tree>, objs: seq<Object>)
    requires RunsAre(cfg, runs, leaves, objs)
    ensures Encodable(cfg, runs) && RunLeaves(cfg, runs) == leaves
  {
  }

  lemma RunAdded(runs: seq<seq<Entry>>, run: seq<Entry>, maxRun: nat)
    requires RunSizes(runs, maxRun) && |run| <= maxRun && (run != [] || runs == [])
    requires forall i :: 0 <= i < |runs| ==> runs[i] != []
    ensures RunSizes(runs + [run], maxRun) && Flat(runs + [run]) == Flat(runs) + run
    ensures run != [] ==> forall i :: 0 <= i < |runs + [run]| ==> (runs + [run])[i] != []
  {
    FlatNext(runs, run);
    hide Flat;
  }

  lemma LeafOk(cfg: Config, t: Tree, objs: seq<Object>, o: Object)
    requires t.Leaf? && t.key == o.key
    ensures ItemOk(cfg, true, t, objs + [o], {})
  {
    assert (objs + [o])[|objs|].key == t.key;
  }

  lemma IndexNonEmpty(b: IndexBuilder, sink: Sink)
    requires b.Consistent(sink) && |b.Items()| > 0
    ensures b.levels != []
  {
  }

  lemma RunsNonEmpty(cfg: Config, runs: seq<seq<Entry>>, leaves: seq<Tree>, objs: seq<Object>)
    requires RunsAre(cfg, runs, leaves, objs) && runs != []
    ensures leaves != [] && objs != []
  {
    assert Object(leaves[0].key, DirLeaf(runs[0])) in objs;
  }

  /** The entries of the leaf objects stored under the given keys. */
  function EntriesAt(objs: seq<Object>, ks: seq<Key>): seq<Entry>
  {
    if |ks| == 0 then []
    else
      var rest := EntriesAt(objs, ks[..|ks| - 1]);
      match Find(objs, ks[|ks| - 1])
      case Some(DirLeaf(entries)) => rest + entries
      case _ => rest
  }

  lemma RunsAreLeaves(cfg: Config, runs: seq<seq<Entry>>, leaves: seq<Tree>, objs: seq<Object>)
    requires Injective(cfg) && Encoded(cfg, objs) && RunsAre(cfg, runs, leaves, objs)
    ensures LeavesAreLeaves(leaves, objs)
  {
    forall i, j | 0 <= i < |leaves| && 0 <= j < |objs| && objs[j].key == leaves[i].key
      ensures objs[j].node.DirLeaf?
    {
      assert cfg.encode(objs[j].node) == cfg.encode(DirLeaf(runs[i]));
    }
  }

  lemma {:induction false} RunsRead(cfg: Config, runs: seq<seq<Entry>>, leaves: seq<Tree>, objs: seq<Object>)
    requires Injective(cfg) && Encoded(cfg, objs) && RunsAre(cfg, runs, leaves, objs)
    ensures EntriesAt(objs, Keys(leaves)) == Flat(runs)
  {
    if |runs| > 0 {
      var n := |runs| - 1;
      RunsRead(cfg, runs[..n], leaves[..n], objs);
      FindStored(cfg, objs, Object(leaves[n].key, DirLeaf(runs[n])));
      assert Keys(leaves)[..n] == Keys(leaves[..n]);
    }
  }

  /** Reading the directory back from its root key yields exactly the entries of its runs. */
  lemma DirectoryReads(cfg: Config, root: Tree, runs: seq<seq<Entry>>, objs: seq<Object>, depth: nat)
    requires Injective(cfg) && Encoded(cfg, objs) && Reads(cfg, objs, root)
    requires RunsAre(cfg, runs, Leaves(root), objs) && depth >= Height(root)
    ensures EntriesAt(objs, Expand(objs, root.key, depth)) == Flat(runs)
  {
    hide Injective, Encoded, RunsAre, Expand, Height;
    RunsAreLeaves(cfg, runs, Leaves(root), objs);
    RunsRead(cfg, runs, Leaves(root), objs);
  }

  /** Entries in strictly increasing order of name. */
  ghost predicate SortedEntries(es: seq<Entry>)
  {
    forall i, j :: 0 <= i < j < |es| ==> Less(es[i].name, es[j].name)
  }

  ghost predicate SortedLeaves(ts: seq<Tree>)
  {
    forall i, j :: 0 <= i < j < |ts| ==> Less(Sep(ts[i]), Sep(ts[j]))
  }

  /** In every index node the separators strictly increase, and each is the greatest separator
      among the leaves below it. */
  ghost predicate Separated(t: Tree)
  {
    match t
    case Leaf(_, _) => true
    case Branch(_, kids) =>
      && (forall i, j :: 0 <= i < j < |kids| ==> Less(Sep(kids[i]), Sep(kids[j])))
      && (forall i :: 0 <= i < |kids| ==> SepIsGreatest(kids[i]) && Separated(kids[i]))
  }

  ghost predicate SepIsGreatest(t: Tree)
  {
    && Leaves(t) != [] && Sep(t) == Sep(Leaves(t)[|Leaves(t)| - 1])
    && forall i :: 0 <= i < |Leaves(t)| - 1 ==> Less(Sep(Leaves(t)[i]), Sep(t))
  }

  /** The leaves of a kid are a contiguous part of the leaves of the whole run. */
  lemma {:induction false} KidLeaves(ts: seq<Tree>, i: nat) returns (at: nat)
    requires i < |ts|
    ensures at + |Leaves(ts[i])| <= |LeavesOf(ts)|
    ensures LeavesOf(ts)[at..at + |Leaves(ts[i])|] == Leaves(ts[i])
    ensures at == |LeavesOf(ts[..i])|
  {
    LeavesOfConcat(ts[..i], ts[i..]);
    assert ts == ts[..i] + ts[i..];
    assert LeavesOf(ts[i..]) == Leaves(ts[i]) + LeavesOf(ts[i..][1..]);
    at := |LeavesOf(ts[..i])|;
  }

  lemma LeavesOfSplitLast(ts: seq<Tree>)
    requires |ts| > 0
    ensures LeavesOf(ts) == LeavesOf(ts[..|ts| - 1]) + Leaves(ts[|ts| - 1])
  {
    var n := |ts| - 1;
    LeavesOfConcat(ts[..n], [ts[n]]);
    LeavesOfOne(ts[n]);
    assert ts == ts[..n] + [ts[n]];
  }

  lemma {:induction false} SepIsLast(cfg: Config, t: Tree)
    requires cfg.Valid() && Built(cfg, true, t)
    ensures Leaves(t) != [] && Sep(t) == Sep(Leaves(t)[|Leaves(t)| - 1])
  {
    match t
    case Leaf(_, _) =>
    case Branch(_, kids) =>
      var n := |kids| - 1;
      SepIsLast(cfg, kids[n]);
      LeavesOfSplitLast(kids);
  }

  lemma SliceSorted(ts: seq<Tree>, at: nat, n: nat)
    requires SortedLeaves(ts) && at + n <= |ts|
    ensures SortedLeaves(ts[at..at + n])
  {
  }

  /** Sorted leaves make every index node's separators sorted and greatest. */
  lemma {:induction false} SeparatorsSorted(cfg: Config, t: Tree)
    requires cfg.Valid() && Built(cfg, true, t) && SortedLeaves(Leaves(t))
    ensures Separated(t) && SepIsGreatest(t)
  {
    SepIsLast(cfg, t);
    if t.Branch? {
      forall i | 0 <= i < |t.kids| ensures SepIsGreatest(t.kids[i]) && Separated(t.kids[i]) {
        var at := KidLeaves(t.kids, i);
        SliceSorted(Leaves(t), at, |Leaves(t.kids[i])|);
        SeparatorsSorted(cfg, t.kids[i]);
      }
      forall i, j | 0 <= i < j < |t.kids| ensures Less(Sep(t.kids[i]), Sep(t.kids[j])) {
        KidsOrdered(cfg, t, i, j);
      }
    }
  }

  /** The last leaf of a kid, as a leaf of the whole. */
  lemma KidLast(cfg: Config, t: Tree, i: nat) returns (p: nat)
    requires cfg.Valid() && Built(cfg, true, t) && t.Branch? && i < |t.kids|
    ensures p < |Leaves(t)| && Sep(Leaves(t)[p]) == Sep(t.kids[i])
    ensures p == |LeavesOf(t.kids[..i])| + |Leaves(t.kids[i])| - 1
  {
    var at := KidLeaves(t.kids, i);
    SepIsLast(cfg, t.kids[i]);
    var n := |Leaves(t.kids[i])|;
    assert LeavesOf(t.kids)[at..at + n][n - 1] == LeavesOf(t.kids)[at + n - 1];
    p := at + n - 1;
  }

  lemma KidsOrdered(cfg: Config, t: Tree, i: nat, j: nat)
    requires cfg.Valid() && Built(cfg, true, t) && SortedLeaves(Leaves(t)) && t.Branch? && i < j < |t.kids|
    ensures Less(Sep(t.kids[i]), Sep(t.kids[j]))
  {
    hide Leaves, LeavesOf, Sep, Less;
    var p := KidLast(cfg, t, i);
    var q := KidLast(cfg, t, j);
    PrefixLeaves(t.kids, i, j);
    SepIsLast(cfg, t.kids[j]);
    assert p < q;
  }

  lemma PrefixLeaves(ts: seq<Tree>, i: nat, j: nat)
    requires i < j <= |ts|
    ensures |LeavesOf(ts[..i])| + |Leaves(ts[i])| <= |LeavesOf(ts[..j])|
  {
    LeavesOfConcat(ts[..i], ts[i..j]);
    assert ts[..j] == ts[..i] + ts[i..j];
    assert LeavesOf(ts[i..j]) == Leaves(ts[i]) + LeavesOf(ts[i..j][1..]);
  }

  /** Leaf separators of runs cut from sorted entries are sorted. */
  lemma RunsSorted(cfg: Config, runs: seq<seq<Entry>>, leaves: seq<Tree>, objs: seq<Object>)
    requires RunsAre(cfg, runs, leaves, objs) && SortedEntries(Flat(runs))
    requires runs == [[]] || forall i :: 0 <= i < |runs| ==> runs[i] != []
    ensures SortedLeaves(leaves)
  {
    forall i, j | 0 <= i < j < |leaves| ensures Less(Sep(leaves[i]), Sep(leaves[j])) {
      var p := LastIndex(runs, i);
      var q := LastIndex(runs, j);
      LastIndexOrder(runs, i, j);
    }
  }

  /** Position in the whole list of the last entry of run `i`. */
  lemma LastIndex(runs: seq<seq<Entry>>, i: nat) returns (p: nat)
    requires i < |runs| && runs[i] != []
    ensures p < |Flat(runs)| && Flat(runs)[p].name == LastName(runs[i])
    ensures p == |Flat(runs[..i + 1])| - 1
  {
    FlatPrefix(runs, i + 1);
    assert runs[..i + 1][..i] == runs[..i];
    p := |Flat(runs[..i + 1])| - 1;
  }

  lemma {:induction false} FlatPrefix(runs: seq<seq<Entry>>, n: nat)
    requires n <= |runs|
    ensures Flat(runs[..n]) <= Flat(runs)
  {
    if n == |runs| {
      assert runs[..n] == runs;
    } else {
      var m := |runs| - 1;
      FlatPrefix(runs[..m], n);
      assert runs[..m][..n] == runs[..n];
    }
  }

  lemma LastIndexOrder(runs: seq<seq<Entry>>, i: nat, j: nat)
    requires i < j < |runs| && runs[j] != []
    ensures |Flat(runs[..i + 1])| < |Flat(runs[..j + 1])|
  {
    FlatPrefix(runs[..j], i + 1);
    assert runs[..j][..i + 1] == runs[..i + 1] && runs[..j + 1][..j] == runs[..j];
  }

  /** `name` is the name of one of the entries, and the greatest. */
  ghost predicate GreatestName(name: Name, es: seq<Entry>)
  {
    && (exists i :: 0 <= i < |es| && es[i].name == name)
    && forall i :: 0 <= i < |es| ==> es[i].name == name || Less(es[i].name, name)
  }

  /** The part of `runs` that lies below the kid at `i`. */
  ghost function RunsBelow(kids: seq<Tree>, i: nat, runs: seq<seq<Entry>>): seq<seq<Entry>>
    requires i < |kids| && |runs| == |LeavesOf(kids)|
  {
    KidSpan(kids, i);
    var at := |LeavesOf(kids[..i])|;
    runs[at..at + |Leaves(kids[i])|]
  }

  lemma KidSpan(kids: seq<Tree>, i: nat)
    requires i < |kids|
    ensures |LeavesOf(kids[..i])| + |Leaves(kids[i])| <= |LeavesOf(kids)|
  {
    var at := KidLeaves(kids, i);
  }

  /** In every index node of a tree over these runs, the separator of each kid is the greatest name
      of an entry in the runs that the kid's leaves stand for. */
  ghost predicate NamedBelow(cfg: Config, t: Tree, runs: seq<seq<Entry>>, objs: seq<Object>)
    decreases t
  {
    && RunsAre(cfg, runs, Leaves(t), objs)
    && (t.Branch? ==>
          forall i :: 0 <= i < |t.kids| ==>
                        && GreatestName(Sep(t.kids[i]), Flat(RunsBelow(t.kids, i, runs)))
                        && NamedBelow(cfg, t.kids[i], RunsBelow(t.kids, i, runs), objs))
  }

  lemma {:induction false} FlatAppend(a: seq<seq<Entry>>, b: seq<seq<Entry>>)
    ensures Flat(a + b) == Flat(a) + Flat(b)
  {
    if |b| == 0 {
      assert a + b == a;
    } else {
      var n := |b| - 1;
      FlatAppend(a, b[..n]);
      assert (a + b)[..|a + b| - 1] == a + b[..n] && (a + b)[|a + b| - 1] == b[n];
    }
  }

  /** Some of the runs of sorted entries hold sorted entries. */
  lemma SomeRunsSorted(runs: seq<seq<Entry>>, at: nat, n: nat)
    requires SortedEntries(Flat(runs)) && at + n <= |runs|
    ensures SortedEntries(Flat(runs[at..at + n]))
  {
    hide SortedEntries, Flat;
    var before, some, after := runs[..at], runs[at..at + n], runs[at + n..];
    assert runs == before + (some + after);
    FlatAppend(before, some + after);
    FlatAppend(some, after);
    MiddleSorted(Flat(before), Flat(some), Flat(after));
  }

  lemma MiddleSorted(a: seq<Entry>, b: seq<Entry>, c: seq<Entry>)
    requires SortedEntries(a + (b + c))
    ensures SortedEntries(b)
  {
    hide Less;
    var all := a + (b + c);
    forall i, j | 0 <= i < j < |b| ensures Less(b[i].name, b[j].name) {
      assert all[|a| + i] == b[i] && all[|a| + j] == b[j];
    }
  }

  lemma LastIsGreatest(es: seq<Entry>)
    requires SortedEntries(es) && es != []
    ensures GreatestName(es[|es| - 1].name, es)
  {
    hide Less;
  }

  lemma LastOfRuns(runs: seq<seq<Entry>>)
    requires runs != [] && runs[|runs| - 1] != []
    ensures Flat(runs) != [] && Flat(runs)[|Flat(runs)| - 1].name == LastName(runs[|runs| - 1])
  {
  }

  /** The separator of a tree over runs of sorted entries is the greatest name in them. */
  lemma SepIsGreatestName(cfg: Config, t: Tree, runs: seq<seq<Entry>>, objs: seq<Object>)
    requires cfg.Valid() && Built(cfg, true, t) && RunsAre(cfg, runs, Leaves(t), objs)
    requires SortedEntries(Flat(runs)) && forall i :: 0 <= i < |runs| ==> runs[i] != []
    ensures GreatestName(Sep(t), Flat(runs))
  {
    hide Leaves, Built, SortedEntries, GreatestName, Flat;
    SepIsLast(cfg, t);
    LastOfRuns(runs);
    LastIsGreatest(Flat(runs));
  }

  lemma RunsAreBelow(cfg: Config, kids: seq<Tree>, i: nat, runs: seq<seq<Entry>>, objs: seq<Object>)
    requires i < |kids| && RunsAre(cfg, runs, LeavesOf(kids), objs)
    ensures RunsAre(cfg, RunsBelow(kids, i, runs), Leaves(kids[i]), objs)
  {
    hide RunsAre, Leaves, LeavesOf;
    var at := KidLeaves(kids, i);
    RunsCounted(cfg, runs, LeavesOf(kids), objs);
    RunsSlice(cfg, runs, LeavesOf(kids), objs, at, |Leaves(kids[i])|);
  }

  lemma RunsSlice(cfg: Config, runs: seq<seq<Entry>>, leaves: seq<Tree>, objs: seq<Object>, at: nat, n: nat)
    requires RunsAre(cfg, runs, leaves, objs) && at + n <= |leaves|
    ensures RunsAre(cfg, runs[at..at + n], leaves[at..at + n], objs)
  {
  }

  lemma {:induction false} SortedNamedBelow(cfg: Config, t: Tree, runs: seq<seq<Entry>>, objs: seq<Object>)
    requires cfg.Valid() && Built(cfg, true, t) && RunsAre(cfg, runs, Leaves(t), objs)
    requires SortedEntries(Flat(runs)) && forall i :: 0 <= i < |runs| ==> runs[i] != []
    ensures NamedBelow(cfg, t, runs, objs)
    decreases t
  {
    hide RunsAre, SortedEntries, GreatestName, Flat;
    RunsCounted(cfg, runs, Leaves(t), objs);
    if t.Branch? {
      assert Leaves(t) == LeavesOf(t.kids);
      forall i | 0 <= i < |t.kids|
        ensures && GreatestName(Sep(t.kids[i]), Flat(RunsBelow(t.kids, i, runs)))
                && NamedBelow(cfg, t.kids[i], RunsBelow(t.kids, i, runs), objs)
      {
        var some := RunsBelow(t.kids, i, runs);
        KidSpan(t.kids, i);
        RunsAreBelow(cfg, t.kids, i, runs, objs);
        SomeRunsSorted(runs, |LeavesOf(t.kids[..i])|, |Leaves(t.kids[i])|);
        SepIsGreatestName(cfg, t.kids[i], some, objs);
        SortedNamedBelow(cfg, t.kids[i], some, objs);
      }
    }
  }

  lemma RunsCounted(cfg: Config, runs: seq<seq<Entry>>, leaves: seq<Tree>, objs: seq<Object>)
    requires RunsAre(cfg, runs, leaves, objs)
    ensures |leaves| == |runs|
  {
  }

  /** For entries added in strict name order, every index node of the finished directory has
      strictly increasing separators, each the greatest name of an entry below it. */
  lemma DirectorySeparated(cfg: Config, root: Tree, runs: seq<seq<Entry>>, objs: seq<Object>)
    requires cfg.Valid() && Built(cfg, true, root) && RunsAre(cfg, runs, Leaves(root), objs)
    requires RunSizes(runs, cfg.ic.maxRun) && SortedEntries(Flat(runs))
    ensures Separated(root) && NamedBelow(cfg, root, runs, objs)
  {
    RunsSorted(cfg, runs, Leaves(root), objs);
    SeparatorsSorted(cfg, root);
    if root.Branch? {
      TwoLeaves(cfg, root);
      SortedNamedBelow(cfg, root, runs, objs);
    }
  }

  lemma TwoLeaves(cfg: Config, t: Tree)
    requires cfg.Valid() && Built(cfg, true, t) && t.Branch?
    ensures |Leaves(t)| >= 2
  {
    var kids := t.kids;
    HasLeaf(cfg, true, kids[0]);
    HasLeaf(cfg, true, kids[1]);
    assert LeavesOf(kids) == Leaves(kids[0]) + (Leaves(kids[1]) + LeavesOf(kids[1..][1..]));
  }
}
