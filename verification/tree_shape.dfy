/** The shape of the tree over a sequence of children: every level is cut into runs by the content of
    its items, and each run becomes an item of the level above. */
module TreeShape {
  import opened Bits
  import opened Runs
  import opened TreeModel

  /** A run ends when it is full, or long enough and its last item's digest is divisible by the average
      run. */
  predicate EndsRun(ic: ItemChunker, digest: nat, n: nat) {
    n >= ic.maxRun || (n >= ic.minRun && digest % (ic.mask + 1) == 0)
  }

  /** The mask tests divisibility. */
  lemma BoundaryIs(ic: ItemChunker, digest: nat, n: nat)
    requires ic.Valid()
    ensures IsBoundary(ic, digest, n) <==> EndsRun(ic, digest, n)
  {
    var k: nat :| ic.mask + 1 == Pow2(k);
    AndLowMask(k, digest);
  }

  /** `ItemChunker::new`: runs of a quarter of the average, but at least two, to four times the average,
      and a boundary once in an average run. */
  lemma ChunkerRule(bits: nat, digest: nat, n: nat)
    ensures var avg := Pow2(bits);
            IsBoundary(NewChunker(bits), digest, n)
            <==> n >= 4 * avg || (n >= 2 && n >= avg / 4 && digest % avg == 0)
  {
    BoundaryIs(NewChunker(bits), digest, n);
    hide IsBoundary;
    assert NewChunker(bits).mask + 1 == Pow2(bits) by {
      assert Pow2(0) == 1;
    }
  }

  function ItemOf(isDir: bool, t: Tree): Item {
    if isDir then PairItem(Pair(Sep(t), t.key)) else KeyItem(t.key)
  }

  /** The rule for the runs of one level. */
  ghost function TreeRule(cfg: Config, isDir: bool): Rule<Tree> {
    (run: seq<Tree>) => run != [] && EndsRun(cfg.ic, cfg.digest(ItemOf(isDir, run[|run| - 1])), |run|)
  }

  /** The node over a run. */
  ghost function NodeOf(cfg: Config, isDir: bool, run: seq<Tree>): Tree {
    var key := cfg.encode(NodeOver(isDir, run));
    Branch(if key.Some? then key.value else [], run)
  }

  ghost function NodesOf(cfg: Config, isDir: bool, runs: seq<seq<Tree>>): (nodes: seq<Tree>)
    ensures |nodes| == |runs| && forall i :: 0 <= i < |runs| ==> nodes[i] == NodeOf(cfg, isDir, runs[i])
  {
    seq(|runs|, i requires 0 <= i < |runs| => NodeOf(cfg, isDir, runs[i]))
  }

  ghost function OpenItems(cfg: Config, isDir: bool, items: seq<Tree>): seq<Tree> {
    OpenRun(TreeRule(cfg, isDir), items)
  }

  /** The nodes over the closed runs of a level. */
  ghost function ClosedNodes(cfg: Config, isDir: bool, items: seq<Tree>): seq<Tree> {
    NodesOf(cfg, isDir, ClosedRuns(TreeRule(cfg, isDir), items))
  }

  /** What a finished level hands to the one above: a node for every run, but a last run of one item as
      it is. */
  ghost function Up(cfg: Config, isDir: bool, items: seq<Tree>): seq<Tree> {
    var open := OpenItems(cfg, isDir, items);
    ClosedNodes(cfg, isDir, items)
    + if open == [] then [] else if |open| == 1 then open else [NodeOf(cfg, isDir, open)]
  }

  lemma LevelNext(cfg: Config, isDir: bool, items: seq<Tree>, t: Tree)
    ensures var run := OpenItems(cfg, isDir, items) + [t];
            if TreeRule(cfg, isDir)(run) then
              && OpenItems(cfg, isDir, items + [t]) == []
              && ClosedNodes(cfg, isDir, items + [t]) == ClosedNodes(cfg, isDir, items) + [NodeOf(cfg, isDir, run)]
            else
              OpenItems(cfg, isDir, items + [t]) == run && ClosedNodes(cfg, isDir, items + [t]) == ClosedNodes(cfg, isDir, items)
  {
    hide TreeRule, NodeOf;
    RunNext(TreeRule(cfg, isDir), items, t);
  }

  /** Runs have at least two items, so levels shrink. */
  lemma {:induction false} LevelShrinks(cfg: Config, isDir: bool, items: seq<Tree>)
    requires cfg.Valid()
    ensures 2 * |ClosedNodes(cfg, isDir, items)| + |OpenItems(cfg, isDir, items)| <= |items|
    ensures ClosedNodes(cfg, isDir, items) == [] ==> OpenItems(cfg, isDir, items) == items
  {
    hide OpenItems, ClosedNodes, TreeRule, NodeOf;
    if |items| == 0 {
      LevelNone(cfg, isDir);
    } else {
      var before, t := items[..|items| - 1], items[|items| - 1];
      LevelShrinks(cfg, isDir, before);
      LevelNext(cfg, isDir, before, t);
      assert items == before + [t];
      RuleNeedsTwo(cfg, isDir, OpenItems(cfg, isDir, before) + [t]);
    }
  }

  lemma LevelNone(cfg: Config, isDir: bool)
    ensures OpenItems(cfg, isDir, []) == [] && ClosedNodes(cfg, isDir, []) == []
  {
  }

  lemma RuleNeedsTwo(cfg: Config, isDir: bool, run: seq<Tree>)
    requires cfg.Valid()
    ensures TreeRule(cfg, isDir)(run) ==> |run| >= 2
  {
  }

  lemma UpShrinks(cfg: Config, isDir: bool, items: seq<Tree>)
    requires cfg.Valid() && |items| >= 2
    ensures 0 < |Up(cfg, isDir, items)| < |items|
  {
    hide OpenItems, ClosedNodes, NodeOf;
    LevelShrinks(cfg, isDir, items);
  }

  /** The tree over a sequence of children. */
  ghost function RootOf(cfg: Config, isDir: bool, items: seq<Tree>): Tree
    requires cfg.Valid() && items != []
    decreases |items|
  {
    if |items| == 1 then items[0]
    else
      UpShrinks(cfg, isDir, items);
      RootOf(cfg, isDir, Up(cfg, isDir, items))
  }

  /** The runs of every level are those of the rule: they make up the level, none ends before its last
      item, and all but the last end there. No other cut has these properties. */
  lemma LevelCut(cfg: Config, isDir: bool, items: seq<Tree>)
    ensures IsCut(TreeRule(cfg, isDir), Cut(TreeRule(cfg, isDir), items), items)
    ensures forall runs :: IsCut(TreeRule(cfg, isDir), runs, items) ==> runs == Cut(TreeRule(cfg, isDir), items)
  {
    hide TreeRule, IsCut, Cut;
    CutIsCut(TreeRule(cfg, isDir), items);
    forall runs | IsCut(TreeRule(cfg, isDir), runs, items) ensures runs == Cut(TreeRule(cfg, isDir), items) {
      CutUnique(TreeRule(cfg, isDir), runs, items);
    }
  }

  /** And each of them is one item of the level above, under a node unless it is a single last item. */
  lemma LevelUp(cfg: Config, isDir: bool, items: seq<Tree>)
    requires cfg.Valid()
    ensures var runs, up := Cut(TreeRule(cfg, isDir), items), Up(cfg, isDir, items);
            |up| == |runs| && forall i :: 0 <= i < |runs| ==>
                                up[i] == if |runs[i]| == 1 then runs[i][0] else NodeOf(cfg, isDir, runs[i])
  {
    hide NodeOf, TreeRule, Unbroken, ClosedRuns, OpenRun;
    var rule := TreeRule(cfg, isDir);
    RunsRule(rule, items);
    var closed := ClosedRuns(rule, items);
    forall i | 0 <= i < |closed| ensures |closed[i]| >= 2 {
      RuleNeedsTwo(cfg, isDir, closed[i]);
    }
  }

  // ----- The leaf runs of a directory.

  /** The rule for the runs of entries that become leaf objects. */
  ghost function EntryRule(cfg: Config): Rule<Entry> {
    (run: seq<Entry>) => run != [] && EndsRun(cfg.ic, cfg.digest(EntryItem(run[|run| - 1])), |run|)
  }

  /** The runs of a directory's entries; an empty directory has one empty run. */
  ghost function LeafRuns(cfg: Config, es: seq<Entry>): seq<seq<Entry>> {
    if es == [] then [[]] else Cut(EntryRule(cfg), es)
  }

  lemma EntryRuleIs(cfg: Config, run: seq<Entry>)
    requires cfg.Valid() && run != []
    ensures EntryRule(cfg)(run) <==> IsBoundary(cfg.ic, cfg.digest(EntryItem(run[|run| - 1])), |run|)
  {
    BoundaryIs(cfg.ic, cfg.digest(EntryItem(run[|run| - 1])), |run|);
  }

  /** They are the runs of the rule, and no others are. */
  lemma LeafCut(cfg: Config, es: seq<Entry>)
    requires es != []
    ensures IsCut(EntryRule(cfg), LeafRuns(cfg, es), es)
    ensures forall runs :: IsCut(EntryRule(cfg), runs, es) ==> runs == LeafRuns(cfg, es)
  {
    hide EntryRule, IsCut, Cut;
    CutIsCut(EntryRule(cfg), es);
    forall runs | IsCut(EntryRule(cfg), runs, es) ensures runs == Cut(EntryRule(cfg), es) {
      CutUnique(EntryRule(cfg), runs, es);
    }
  }

  // ----- What the levels of a builder hold.

  /** From level `l` on, the open runs are those of a level at which `items` have arrived, and of the
      levels above it; there is a level exactly where something has arrived. */
  ghost predicate Shaped(cfg: Config, isDir: bool, trees: seq<seq<Tree>>, l: nat, items: seq<Tree>)
    decreases |trees| - l
  {
    if l >= |trees| then l == |trees| && items == []
    else
      && items != [] && trees[l] == OpenItems(cfg, isDir, items)
      && Shaped(cfg, isDir, trees, l + 1, ClosedNodes(cfg, isDir, items))
  }

  /** Levels below do not matter. */
  lemma {:induction false} ShapedBelow(cfg: Config, isDir: bool, trees: seq<seq<Tree>>, other: seq<seq<Tree>>, l: nat, items: seq<Tree>)
    requires |trees| == |other| && (forall j :: l <= j < |trees| ==> trees[j] == other[j])
    requires Shaped(cfg, isDir, trees, l, items)
    ensures Shaped(cfg, isDir, other, l, items)
    decreases |trees| - l
  {
    hide OpenItems, ClosedNodes;
    if l < |trees| {
      ShapedBelow(cfg, isDir, trees, other, l + 1, ClosedNodes(cfg, isDir, items));
    }
  }

  lemma NothingShaped(cfg: Config, isDir: bool)
    ensures Shaped(cfg, isDir, [], 0, [])
  {
  }
}
