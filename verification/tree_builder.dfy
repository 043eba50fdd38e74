/** The bottom-up index builder and directory builder. */
module TreeBuilder {
  import opened Bits
  import opened TreeModel
  import opened TreeShape

  /** One index level's open run. */
  datatype Level = Level(keys: seq<Key>, seps: seq<Name>, runLen: nat)

  const EMPTY_LEVEL: Level := Level([], [], 0)

  datatype Outcome = Done | EncodeError | EmitError
  datatype FinishResult = Root(key: Key) | NoChildren | FinishEncodeError | FinishEmitError

  /** The emit callback: it may refuse an object, and remembers those it took and whether it ever
      refused one. */
  class Sink {
    var emitted: seq<Object>
    ghost var refused: bool

    constructor ()
      ensures emitted == [] && !refused
    {
      emitted := [];
      refused := false;
    }

    method Emit(o: Object) returns (ok: bool)
      modifies this
      ensures emitted == if ok then old(emitted) + [o] else old(emitted)
      ensures refused == (old(refused) || !ok)
    {
      ok := *;
      refused := refused || !ok;
      if ok {
        emitted := emitted + [o];
      }
    }
  }

  /** The references of all levels in order: higher levels come first. */
  ghost function Flatten(trees: seq<seq<Tree>>): seq<Tree>
  {
    if |trees| == 0 then [] else Flatten(trees[1..]) + trees[0]
  }

  lemma {:induction false} FlattenGrow(trees: seq<seq<Tree>>)
    ensures Flatten(trees + [[]]) == Flatten(trees)
  {
    if |trees| > 0 {
      FlattenGrow(trees[1..]);
      assert (trees + [[]])[1..] == trees[1..] + [[]];
    }
  }

  ghost predicate EmptyBelow(trees: seq<seq<Tree>>, l: nat)
  {
    forall j :: 0 <= j < l && j < |trees| ==> trees[j] == []
  }

  /** The open run of the lowest non-empty level ends the reference list. */
  lemma {:induction false} FlattenAt(trees: seq<seq<Tree>>, l: nat, run: seq<Tree>)
    requires l < |trees| && EmptyBelow(trees, l)
    ensures Flatten(trees[l := run]) == Flatten(trees[l := []]) + run
    ensures Flatten(trees) == Flatten(trees[l := []]) + trees[l]
  {
    if l > 0 {
      FlattenAt(trees[1..], l - 1, run);
      assert trees[l := run][1..] == trees[1..][l - 1 := run];
      assert trees[l := []][1..] == trees[1..][l - 1 := []];
    }
  }

  lemma {:induction false} FlattenEmpty(trees: seq<seq<Tree>>)
    requires EmptyBelow(trees, |trees|)
    ensures Flatten(trees) == []
  {
    if |trees| > 0 {
      FlattenEmpty(trees[1..]);
    }
  }

  /** The level's fields describe the given references. */
  ghost predicate LevelIs(isDir: bool, level: Level, run: seq<Tree>)
  {
    && level.keys == Keys(run) && level.runLen == |run|
    && level.seps == if isDir then Seps(run) else []
  }

  ghost predicate ItemOk(cfg: Config, isDir: bool, t: Tree, objs: seq<Object>, given: set<Key>)
  {
    Built(cfg, isDir, t) && Stored(isDir, t, objs) && Known(t.key, objs, given)
  }

  /** The levels hold built, stored and known references, and everything emitted so far came
      after its children. */
  ghost predicate State(cfg: Config, isDir: bool, levels: seq<Level>, trees: seq<seq<Tree>>,
                        objs: seq<Object>, given: set<Key>)
  {
    && |levels| == |trees|
    && (forall l :: 0 <= l < |levels| ==> LevelIs(isDir, levels[l], trees[l]))
    && (forall l, i :: 0 <= l < |trees| && 0 <= i < |trees[l]| ==> ItemOk(cfg, isDir, trees[l][i], objs, given))
    && ChildrenFirst(objs, given) && Encoded(cfg, objs)
  }

  /** No open run has reached the maximum. */
  ghost predicate Open(trees: seq<seq<Tree>>, maxRun: nat)
  {
    forall l :: 0 <= l < |trees| ==> |trees[l]| < maxRun
  }

  lemma StateGrow(cfg: Config, isDir: bool, levels: seq<Level>, trees: seq<seq<Tree>>,
                  objs: seq<Object>, given: set<Key>)
    requires State(cfg, isDir, levels, trees, objs, given)
    ensures State(cfg, isDir, levels + [EMPTY_LEVEL], trees + [[]], objs, given)
  {
  }

  lemma StatePush(cfg: Config, isDir: bool, levels: seq<Level>, trees: seq<seq<Tree>>,
                  objs: seq<Object>, given: set<Key>, l: nat, level: Level, t: Tree)
    requires State(cfg, isDir, levels, trees, objs, given) && l < |levels|
    requires LevelIs(isDir, level, trees[l] + [t]) && ItemOk(cfg, isDir, t, objs, given)
    ensures State(cfg, isDir, levels[l := level], trees[l := trees[l] + [t]], objs, given)
  {
  }

  lemma StateReset(cfg: Config, isDir: bool, levels: seq<Level>, trees: seq<seq<Tree>>,
                   objs: seq<Object>, given: set<Key>, l: nat)
    requires State(cfg, isDir, levels, trees, objs, given) && l < |levels|
    ensures State(cfg, isDir, levels[l := EMPTY_LEVEL], trees[l := []], objs, given)
  {
  }

  lemma ItemOkMore(cfg: Config, isDir: bool, t: Tree, objs: seq<Object>, given: set<Key>, o: Object)
    requires ItemOk(cfg, isDir, t, objs, given)
    ensures ItemOk(cfg, isDir, t, objs + [o], given)
  {
    StoredMore(isDir, t, objs, o);
    if t.key !in given {
      var j :| 0 <= j < |objs| && objs[j].key == t.key;
      assert (objs + [o])[j].key == t.key;
    }
  }

  /** Emitting an object whose children are known keeps the state. */
  lemma StateEmit(cfg: Config, isDir: bool, levels: seq<Level>, trees: seq<seq<Tree>>,
                  objs: seq<Object>, given: set<Key>, o: Object)
    requires State(cfg, isDir, levels, trees, objs, given)
    requires forall k :: k in ChildKeys(o.node) ==> Known(k, objs, given)
    requires cfg.encode(o.node) == Some(o.key)
    ensures State(cfg, isDir, levels, trees, objs + [o], given)
  {
    hide ItemOk;
    ChildrenFirstAppend(objs, given, o);
    forall l, i | 0 <= l < |trees| && 0 <= i < |trees[l]|
      ensures ItemOk(cfg, isDir, trees[l][i], objs + [o], given)
    {
      ItemOkMore(cfg, isDir, trees[l][i], objs, given, o);
    }
  }

  /** A node over known references: built, stored once emitted, and known. */
  lemma NodeOk(cfg: Config, isDir: bool, kids: seq<Tree>, objs: seq<Object>, given: set<Key>, key: Key)
    requires forall i :: 0 <= i < |kids| ==> ItemOk(cfg, isDir, kids[i], objs, given)
    requires 2 <= |kids| <= cfg.ic.maxRun && cfg.encode(NodeOver(isDir, kids)) == Some(key)
    ensures var o := Object(key, NodeOver(isDir, kids));
            && (forall k :: k in ChildKeys(o.node) ==> Known(k, objs, given))
            && ItemOk(cfg, isDir, Branch(key, kids), objs + [o], given)
  {
    var o := Object(key, NodeOver(isDir, kids));
    forall i | 0 <= i < |kids| ensures Stored(isDir, kids[i], objs + [o]) {
      StoredMore(isDir, kids[i], objs, o);
    }
    assert (objs + [o])[|objs|] == o;
    ChildKeysOver(isDir, kids);
    forall k | k in ChildKeys(o.node) ensures Known(k, objs, given) {
      var i :| 0 <= i < |kids| && kids[i].key == k;
    }
  }

  lemma ChildKeysOver(isDir: bool, kids: seq<Tree>)
    ensures ChildKeys(NodeOver(isDir, kids)) == Keys(kids)
  {
  }

  function LevelPairs(level: Level): (r: seq<Pair>)
  {
    var n := if |level.keys| < |level.seps| then |level.keys| else |level.seps|;
    seq(n, i requires 0 <= i < n => Pair(level.seps[i], level.keys[i]))
  }

  /** `build_node`: the node over a level's run, and the run's greatest separator. */
  function BuildNode(isDir: bool, level: Level): (Node, Name)
  {
    if isDir then
      (DirNode(LevelPairs(level)), if |level.seps| == 0 then [] else level.seps[|level.seps| - 1])
    else
      (FileNode(level.keys), [])
  }

  lemma BuildNodeIs(isDir: bool, level: Level, run: seq<Tree>, key: Key)
    requires LevelIs(isDir, level, run) && |run| > 0
    ensures BuildNode(isDir, level).0 == NodeOver(isDir, run)
    ensures isDir ==> BuildNode(isDir, level).1 == Sep(Branch(key, run))
  {
  }

  /** `part` is a stretch of `all`. */
  ghost predicate Stretch(part: seq<Tree>, all: seq<Tree>)
  {
    exists i, j :: 0 <= i <= j <= |all| && part == all[i..j]
  }

  /** A node that the builder may have to make over these leaves, and that cannot be encoded: its
      children could be, and stand for a stretch of the leaves. */
  ghost predicate RefusedNode(cfg: Config, isDir: bool, leaves: seq<Tree>, kids: seq<Tree>)
  {
    && 2 <= |kids| <= cfg.ic.maxRun && (forall i :: 0 <= i < |kids| ==> Built(cfg, isDir, kids[i]))
    && Stretch(LeavesOf(kids), leaves)
    && cfg.encode(NodeOver(isDir, kids)).None?
  }

  ghost predicate NodeRefused(cfg: Config, isDir: bool, leaves: seq<Tree>)
  {
    exists kids: seq<Tree> :: RefusedNode(cfg, isDir, leaves, kids)
  }

  function PushLevel(isDir: bool, level: Level, key: Key, sep: Name): Level
  {
    Level(level.keys + [key], if isDir then level.seps + [sep] else level.seps, level.runLen + 1)
  }

  lemma PushLevelIs(isDir: bool, level: Level, run: seq<Tree>, t: Tree, sep: Name)
    requires LevelIs(isDir, level, run) && (isDir ==> sep == Sep(t))
    ensures LevelIs(isDir, PushLevel(isDir, level, t.key, sep), run + [t])
  {
    assert Keys(run + [t]) == Keys(run) + [t.key];
    assert Seps(run + [t]) == Seps(run) + [Sep(t)];
  }

  lemma NewestLast(items: seq<Tree>, t: Tree, objs: seq<Object>, o: Object, given: set<Key>)
    requires t.key == o.key
    ensures LastIsNewest(items + [t], objs + [o], given)
  {
    assert (items + [t])[|items|].key == (objs + [o])[|objs|].key;
  }

  /** Builds the index levels above a stream of child references. */
  class IndexBuilder {
    const cfg: Config
    const isDir: bool
    var levels: seq<Level>
    ghost var trees: seq<seq<Tree>>
    ghost var given: set<Key>

    /** The references not yet under a node, in order. */
    ghost function Items(): seq<Tree>
      reads this
    {
      Flatten(trees)
    }

    /** What holds while references are moved between levels. */
    ghost predicate Consistent(sink: Sink)
      reads this, sink
    {
      cfg.Valid() && State(cfg, isDir, levels, trees, sink.emitted, given)
    }

    /** What holds while levels are collapsed. */
    ghost predicate Steady(sink: Sink)
      reads this, sink
    {
      && Consistent(sink) && Open(trees, cfg.ic.maxRun)
      && LastIsNewest(Items(), sink.emitted, given)
    }

    /** What holds between calls: the open runs are those of the tree over the children so far. */
    ghost predicate Valid(sink: Sink)
      reads this, sink
    {
      Steady(sink) && Shaped(cfg, isDir, trees, 0, LeavesOf(Items()))
    }

    constructor (cfg: Config, isDir: bool, sink: Sink)
      requires cfg.Valid() && sink.emitted == []
      ensures this.cfg == cfg && this.isDir == isDir && levels == [] && given == {}
      ensures Valid(sink) && Items() == []
    {
      this.cfg := cfg;
      this.isDir := isDir;
      levels := [];
      trees := [];
      given := {};
      NothingShaped(cfg, isDir);
    }

    /** Appends a reference at level `l`, where `items` have arrived before, closing the run exactly
        where the rule says that it ends. The references below `l` must have been moved up already. */
    method Add(sink: Sink, l: nat, key: Key, sep: Name, ghost t: Tree, ghost items: seq<Tree>) returns (r: Outcome)
      requires Consistent(sink) && Open(trees, cfg.ic.maxRun)
      requires l <= |levels| && EmptyBelow(trees, l)
      requires ItemOk(cfg, isDir, t, sink.emitted, given) && key == t.key && (isDir ==> sep == Sep(t))
      requires LastIsNewest(Items() + [t], sink.emitted, given) && Shaped(cfg, isDir, trees, l, items)
      modifies this`levels, this`trees, sink
      ensures r.Done? ==> Steady(sink) && EmptyBelow(trees, l) && old(sink.emitted) <= sink.emitted
      ensures r.Done? ==> Shaped(cfg, isDir, trees, l, items + [t])
      ensures r.Done? ==> LeavesOf(Items()) == LeavesOf(old(Items())) + Leaves(t)
      ensures r.Done? ==> 0 < |Items()| <= |old(Items())| + 1
      ensures r.Done? && |Items()| == |old(Items())| + 1 ==>
                |levels| == if l == |old(levels)| then l + 1 else |old(levels)|
      ensures sink.refused == (old(sink.refused) || r.EmitError?)
      ensures r.EncodeError? ==> NodeRefused(cfg, isDir, LeavesOf(old(Items())) + Leaves(t))
      decreases |levels| - l, 1
    {
      hide State, ItemOk, LastIsNewest, Flatten, LeavesOf, LevelIs, NodeRefused, Shaped, TreeRule, NodeOf;
      ghost var all, before := Items(), trees;
      LevelCount(this, sink);
      if |levels| == l {
        StateGrow(cfg, isDir, levels, trees, sink.emitted, given);
        FlattenGrow(trees);
        levels, trees := levels + [EMPTY_LEVEL], trees + [[]];
      }
      LevelOf(this, sink, l);
      PushLevelIs(isDir, levels[l], trees[l], t, sep);
      var level := PushLevel(isDir, levels[l], key, sep);
      StatePush(cfg, isDir, levels, trees, sink.emitted, given, l, level, t);
      FlattenAt(trees, l, trees[l] + [t]);
      LeavesOfConcat(all, [t]);
      LeavesOfOne(t);
      levels, trees := levels[l := level], trees[l := trees[l] + [t]];
      assert Items() == all + [t];
      var item := if isDir then PairItem(Pair(sep, key)) else KeyItem(key);
      RuleOf(cfg, isDir, trees[l]);
      Arrives(cfg, isDir, before, trees, l, items, t);
      if IsBoundary(cfg.ic, cfg.digest(item), level.runLen) {
        r := CloseLevel(sink, l, ClosedNodes(cfg, isDir, items));
        if r.Done? {
          ClosedAt(cfg, isDir, trees, l, items, t);
        }
      } else {
        r := Done;
      }
    }

    /** Emits the node over level `l`'s run and adds it one level up, where `above` have arrived
        before. */
    method CloseLevel(sink: Sink, l: nat, ghost above: seq<Tree>) returns (r: Outcome)
      requires Consistent(sink) && l < |levels| && EmptyBelow(trees, l)
      requires 2 <= |trees[l]| <= cfg.ic.maxRun && Open(trees[l := []], cfg.ic.maxRun)
      requires Shaped(cfg, isDir, trees, l + 1, above)
      modifies this`levels, this`trees, sink
      ensures r.Done? ==> Steady(sink) && EmptyBelow(trees, l + 1) && old(sink.emitted) <= sink.emitted
      ensures r.Done? ==> Shaped(cfg, isDir, trees, l + 1, above + [NodeOf(cfg, isDir, old(trees[l]))])
      ensures r.Done? ==> LeavesOf(Items()) == LeavesOf(old(Items()))
      ensures r.Done? ==> 0 < |Items()| < |old(Items())|
      ensures sink.refused == (old(sink.refused) || r.EmitError?)
      ensures r.EncodeError? ==> NodeRefused(cfg, isDir, LeavesOf(old(Items())))
      ensures cfg.encode(NodeOver(isDir, old(trees[l]))).None? ==>
                r.EncodeError? && unchanged(this) && unchanged(sink)
      decreases |levels| - l, 0
    {
      hide State, ItemOk, LastIsNewest, Flatten, LeavesOf, LevelIs, NodeOver, NodeRefused, Shaped;
      LevelOf(this, sink, l);
      ghost var items, kids := Items(), trees[l];
      var (node, sep) := BuildNode(isDir, levels[l]);
      var encoded := cfg.encode(node);
      if encoded.None? {
        FlattenAt(trees, l, []);
        LeavesOfConcat(Flatten(trees[l := []]), kids);
        KidsBuilt(cfg, isDir, kids, sink.emitted, given);
        RunRefused(cfg, isDir, levels[l], kids, LeavesOf(Flatten(trees[l := []])));
        return EncodeError;
      }
      var key := encoded.value;
      BuildNodeIs(isDir, levels[l], kids, key);
      NodeOk(cfg, isDir, kids, sink.emitted, given, key);
      StateReset(cfg, isDir, levels, trees, sink.emitted, given, l);
      FlattenAt(trees, l, []);
      ShapedBelow(cfg, isDir, trees, trees[l := []], l + 1, above);
      levels, trees := levels[l := EMPTY_LEVEL], trees[l := []];
      var o := Object(key, node);
      StateEmit(cfg, isDir, levels, trees, sink.emitted, given, o);
      ghost var objs := sink.emitted;
      var ok := sink.Emit(o);
      if !ok {
        return EmitError;
      }
      ghost var t := Branch(key, kids);
      NewestLast(Items(), t, objs, o, given);
      LeavesOfConcat(Items(), kids);
      r := Add(sink, l + 1, key, sep, t, above);
    }

    /** `add_child`: adds a leaf reference from outside. */
    method AddChild(sink: Sink, key: Key, sep: Name) returns (r: Outcome)
      requires Valid(sink)
      modifies this, sink
      ensures given == old(given) + {key}
      ensures r.Done? ==> Valid(sink) && old(sink.emitted) <= sink.emitted
      ensures r.Done? ==>
                LeavesOf(Items()) == LeavesOf(old(Items())) + [Leaf(key, if isDir then sep else [])]
      ensures sink.refused == (old(sink.refused) || r.EmitError?)
      ensures r.EncodeError? ==>
                NodeRefused(cfg, isDir, LeavesOf(old(Items())) + [Leaf(key, if isDir then sep else [])])
    {
      hide State, LastIsNewest, Flatten, LeavesOf, NodeRefused, Shaped;
      ghost var t := Leaf(key, if isDir then sep else []);
      StateGiven(cfg, isDir, levels, trees, sink.emitted, given, key);
      NewestGiven(Items(), sink.emitted, given, t);
      given := given + {key};
      r := Add(sink, 0, key, sep, t, LeavesOf(Items()));
    }

    /** Moves the only reference of level `l` one level up, where `above` have arrived before. */
    method Lift(sink: Sink, l: nat, ghost above: seq<Tree>) returns (r: Outcome)
      requires Steady(sink) && l < |levels| - 1 && EmptyBelow(trees, l) && |levels| == |trees|
      requires |trees[l]| == 1 && Shaped(cfg, isDir, trees, l + 1, above)
      modifies this`levels, this`trees, sink
      ensures r.Done? ==> Steady(sink) && EmptyBelow(trees, l + 1) && old(sink.emitted) <= sink.emitted
      ensures r.Done? ==> Shaped(cfg, isDir, trees, l + 1, above + old(trees[l]))
      ensures r.Done? ==> LeavesOf(Items()) == LeavesOf(old(Items()))
      ensures r.Done? ==> |Items()| < |old(Items())| || (|Items()| == |old(Items())| && |levels| == |old(levels)|)
      ensures sink.refused == (old(sink.refused) || r.EmitError?)
      ensures r.EncodeError? ==> NodeRefused(cfg, isDir, LeavesOf(old(Items())))
    {
      hide State, LastIsNewest, Flatten, LeavesOf, LevelIs, NodeRefused, Shaped, ItemOk;
      LevelOf(this, sink, l);
      ghost var t := trees[l][0];
      assert trees[l] == [t];
      SingleLevel(isDir, levels[l], t);
      var key := levels[l].keys[0];
      var sep := if isDir then levels[l].seps[0] else [];
      FlattenAt(trees, l, []);
      StateReset(cfg, isDir, levels, trees, sink.emitted, given, l);
      ShapedBelow(cfg, isDir, trees, trees[l := []], l + 1, above);
      levels, trees := levels[l := EMPTY_LEVEL], trees[l := []];
      LeavesOfConcat(Items(), [t]);
      LeavesOfOne(t);
      r := Add(sink, l + 1, key, sep, t, above);
    }

    /** One level of `finish`, unless it holds the root: what is left of it moves up. */
    method Collapse(sink: Sink, l: nat, ghost items: seq<Tree>) returns (r: Outcome)
      requires Steady(sink) && l < |levels| == |trees| && EmptyBelow(trees, l) && Shaped(cfg, isDir, trees, l, items)
      requires |trees[l]| != 1 || l < |levels| - 1
      modifies this`levels, this`trees, sink
      ensures r.Done? ==> Steady(sink) && EmptyBelow(trees, l + 1) && old(sink.emitted) <= sink.emitted
      ensures r.Done? ==> Shaped(cfg, isDir, trees, l + 1, Up(cfg, isDir, items))
      ensures r.Done? ==> LeavesOf(Items()) == LeavesOf(old(Items()))
      ensures r.Done? ==> |Items()| < |old(Items())| || (|Items()| == |old(Items())| && |levels| == |old(levels)|)
      ensures sink.refused == (old(sink.refused) || r.EmitError?)
      ensures r.EncodeError? ==> NodeRefused(cfg, isDir, LeavesOf(old(Items())))
    {
      hide State, LastIsNewest, Flatten, LeavesOf, LevelIs, NodeRefused, Shaped, RootOf, Up, ItemOk, NodeOf, OpenItems,
        ClosedNodes;
      LevelOf(this, sink, l);
      LevelShape(cfg, isDir, trees, l, items);
      ghost var above := ClosedNodes(cfg, isDir, items);
      r := Done;
      if levels[l].runLen == 1 {
        r := Lift(sink, l, above);
      } else if levels[l].runLen >= 2 {
        RunFits(trees, l, cfg.ic.maxRun);
        r := CloseLevel(sink, l, above);
      } else {
        assert above + [] == above;
      }
    }

    /** The only reference left, at the top level, is the root. */
    method TakeRoot(sink: Sink, l: nat) returns (key: Key, ghost root: Tree)
      requires Steady(sink) && l == |levels| - 1 && EmptyBelow(trees, l) && |levels| == |trees| && |trees[l]| == 1
      modifies this`levels, this`trees
      ensures root == old(trees[l][0]) && root.key == key && Leaves(root) == LeavesOf(old(Items()))
      ensures Built(cfg, isDir, root) && Stored(isDir, root, sink.emitted) && Reads(cfg, sink.emitted, root)
      ensures ChildrenFirst(sink.emitted, given) && Encoded(cfg, sink.emitted)
      ensures sink.emitted == [] || sink.emitted[|sink.emitted| - 1].key == key
    {
      hide State, Reads, LastIsNewest, Flatten, LeavesOf, LevelIs, ChildrenFirst, Built, Stored, Known, Encoded;
      LevelOf(this, sink, l);
      LevelLeaves(this, sink, l);
      root := trees[l][0];
      assert trees[l] == [root];
      SingleLevel(isDir, levels[l], root);
      key := levels[l].keys[0];
      FlattenAt(trees, l, []);
      ghost var items := Items();
      levels, trees := levels[l := EMPTY_LEVEL], trees[l := []];
      FlattenEmpty(trees);
      assert items == [root];
      LeavesOfOne(root);
      RootNewest(root, sink.emitted, given);
      RootReads(cfg, isDir, root, sink.emitted);
    }

    /** `finish`: collapses the open runs bottom-up. It fails with `NoChildren` exactly when
        nothing was added, and otherwise only if the callback refuses an object or a node over the
        added leaves cannot be encoded; a returned root is the key of a tree over exactly the added leaves, in
        order, all of whose index nodes were emitted, each after its children and the root
        last. */
    method Finish(sink: Sink) returns (r: FinishResult, ghost root: Tree)
      requires Valid(sink)
      modifies this`levels, this`trees, sink
      ensures r.NoChildren? <==> LeavesOf(old(Items())) == []
      ensures sink.refused == (old(sink.refused) || r.FinishEmitError?)
      ensures r.FinishEncodeError? ==> NodeRefused(cfg, isDir, LeavesOf(old(Items())))
      ensures !sink.refused && !NodeRefused(cfg, isDir, LeavesOf(old(Items()))) ==>
                (r.Root? <==> LeavesOf(old(Items())) != [])
      ensures r.Root? ==> root.key == r.key && Leaves(root) == LeavesOf(old(Items())) != []
      ensures r.Root? ==> root == RootOf(cfg, isDir, LeavesOf(old(Items())))
      ensures r.Root? ==> Built(cfg, isDir, root) && Stored(isDir, root, sink.emitted)
      ensures r.Root? ==> ChildrenFirst(sink.emitted, given) && Encoded(cfg, sink.emitted)
      ensures r.Root? ==> old(sink.emitted) <= sink.emitted
      ensures r.Root? ==> sink.emitted == [] || sink.emitted[|sink.emitted| - 1].key == r.key
      ensures r.Root? ==> Reads(cfg, sink.emitted, root)
    {
      hide State, Reads, LastIsNewest, Flatten, LeavesOf, LevelIs, ChildrenFirst, Built, Stored, Known, Encoded,
        NodeRefused, Shaped, RootOf, Up, ItemOk, NodeOf, OpenItems, ClosedNodes;
      ghost var all := LeavesOf(Items());
      ghost var items := all;
      root := Leaf([], []);
      var l := 0;
      while l < |levels|
        invariant 0 <= l && Steady(sink) && EmptyBelow(trees, l)
        invariant Shaped(cfg, isDir, trees, l, items) && (items == [] <==> all == [])
        invariant all != [] ==> RootOf(cfg, isDir, items) == RootOf(cfg, isDir, all)
        invariant LeavesOf(Items()) == all && old(sink.emitted) <= sink.emitted
        invariant sink.refused == old(sink.refused)
        decreases |Items()|, |levels| - l
      {
        LevelOf(this, sink, l);
        LevelLeaves(this, sink, l);
        LevelCount(this, sink);
        LevelShape(cfg, isDir, trees, l, items);
        var isTop := l == |levels| - 1;
        if levels[l].runLen == 1 {
          if isTop {
            var key;
            key, root := TakeRoot(sink, l);
            return Root(key), root;
          }
        }
        var collapsed := Collapse(sink, l, items);
        if !collapsed.Done? {
          return if collapsed.EncodeError? then FinishEncodeError else FinishEmitError, root;
        }
        items := Up(cfg, isDir, items);
        l := l + 1;
      }
      LevelsAll(this, sink);
      FlattenEmpty(trees);
      r := NoChildren;
    }
  }

  lemma RunRefused(cfg: Config, isDir: bool, level: Level, run: seq<Tree>, before: seq<Tree>)
    requires LevelIs(isDir, level, run) && cfg.encode(BuildNode(isDir, level).0).None?
    requires 2 <= |run| <= cfg.ic.maxRun && forall i :: 0 <= i < |run| ==> Built(cfg, isDir, run[i])
    ensures NodeRefused(cfg, isDir, before + LeavesOf(run))
  {
    hide LeavesOf, Built;
    BuildNodeIs(isDir, level, run, []);
    var all := before + LeavesOf(run);
    assert LeavesOf(run) == all[|before|..|all|];
    assert RefusedNode(cfg, isDir, all, run);
  }

  lemma KidsBuilt(cfg: Config, isDir: bool, kids: seq<Tree>, objs: seq<Object>, given: set<Key>)
    requires forall i :: 0 <= i < |kids| ==> ItemOk(cfg, isDir, kids[i], objs, given)
    ensures forall i :: 0 <= i < |kids| ==> Built(cfg, isDir, kids[i])
  {
  }

  lemma RunFits(trees: seq<seq<Tree>>, l: nat, maxRun: nat)
    requires l < |trees| && Open(trees, maxRun) && maxRun > 0
    ensures |trees[l]| <= maxRun && Open(trees[l := []], maxRun)
  {
  }

  lemma LevelCount(b: IndexBuilder, sink: Sink)
    requires b.Consistent(sink)
    ensures |b.levels| == |b.trees|
  {
  }

  /** The rule on a run, and the boundary test of the code. */
  lemma RuleOf(cfg: Config, isDir: bool, run: seq<Tree>)
    requires cfg.Valid() && run != []
    ensures TreeRule(cfg, isDir)(run)
       <==> IsBoundary(cfg.ic, cfg.digest(ItemOf(isDir, run[|run| - 1])), |run|)
  {
    BoundaryIs(cfg.ic, cfg.digest(ItemOf(isDir, run[|run| - 1])), |run|);
  }

  /** A reference arrives at a level: if its run goes on, the levels are shaped as they should be; if
      not, those above still are as before. */
  lemma Arrives(cfg: Config, isDir: bool, before: seq<seq<Tree>>, after: seq<seq<Tree>>, l: nat, items: seq<Tree>, t: Tree)
    requires cfg.Valid() && l <= |before| && Shaped(cfg, isDir, before, l, items)
    requires var grown := if l == |before| then before + [[]] else before; after == grown[l := grown[l] + [t]]
    ensures after[l] == OpenItems(cfg, isDir, items) + [t]
    ensures Shaped(cfg, isDir, after, l + 1, ClosedNodes(cfg, isDir, items))
    ensures !TreeRule(cfg, isDir)(after[l]) ==> Shaped(cfg, isDir, after, l, items + [t])
  {
    hide TreeRule, OpenItems, ClosedNodes, NodeOf;
    LevelNext(cfg, isDir, items, t);
    if l == |before| {
      LevelNone(cfg, isDir);
    } else {
      ShapedBelow(cfg, isDir, before, after, l + 1, ClosedNodes(cfg, isDir, items));
    }
  }

  /** After the run at a level was closed, the levels are shaped as they should be. */
  lemma ClosedAt(cfg: Config, isDir: bool, trees: seq<seq<Tree>>, l: nat, items: seq<Tree>, t: Tree)
    requires EmptyBelow(trees, l + 1) && TreeRule(cfg, isDir)(OpenItems(cfg, isDir, items) + [t])
    requires Shaped(cfg, isDir, trees, l + 1,
                    ClosedNodes(cfg, isDir, items) + [NodeOf(cfg, isDir, OpenItems(cfg, isDir, items) + [t])])
    ensures Shaped(cfg, isDir, trees, l, items + [t])
  {
    hide TreeRule, OpenItems, ClosedNodes, NodeOf;
    LevelNext(cfg, isDir, items, t);
  }

  /** What the shape says about one level while the levels are collapsed. */
  lemma LevelShape(cfg: Config, isDir: bool, trees: seq<seq<Tree>>, l: nat, items: seq<Tree>)
    requires cfg.Valid() && l < |trees| && Shaped(cfg, isDir, trees, l, items)
    ensures items != [] && trees[l] == OpenItems(cfg, isDir, items)
    ensures Shaped(cfg, isDir, trees, l + 1, ClosedNodes(cfg, isDir, items))
    ensures l == |trees| - 1 ==> ClosedNodes(cfg, isDir, items) == [] && trees[l] == items
    ensures l < |trees| - 1 ==> ClosedNodes(cfg, isDir, items) != []
    ensures |trees[l]| == 1 && l == |trees| - 1 ==> RootOf(cfg, isDir, items) == trees[l][0]
    ensures |trees[l]| != 1 || l < |trees| - 1 ==>
              Up(cfg, isDir, items) != [] && RootOf(cfg, isDir, items) == RootOf(cfg, isDir, Up(cfg, isDir, items))
    ensures Up(cfg, isDir, items) == ClosedNodes(cfg, isDir, items) +
              if trees[l] == [] then [] else if |trees[l]| == 1 then trees[l] else [NodeOf(cfg, isDir, trees[l])]
  {
    hide OpenItems, ClosedNodes, NodeOf;
    LevelShrinks(cfg, isDir, items);
    if |items| >= 2 {
      UpShrinks(cfg, isDir, items);
    }
  }

  lemma LevelOf(b: IndexBuilder, sink: Sink, l: nat)
    requires b.Consistent(sink) && l < |b.levels|
    ensures |b.levels| == |b.trees| && LevelIs(b.isDir, b.levels[l], b.trees[l])
    ensures b.levels[l].runLen == |b.trees[l]|
    ensures forall i :: 0 <= i < |b.trees[l]| ==> ItemOk(b.cfg, b.isDir, b.trees[l][i], sink.emitted, b.given)
  {
  }

  lemma LevelsAll(b: IndexBuilder, sink: Sink)
    requires b.Consistent(sink)
    ensures |b.levels| == |b.trees| && LeavesOf([]) == []
  {
  }

  lemma SingleLevel(isDir: bool, level: Level, t: Tree)
    requires LevelIs(isDir, level, [t])
    ensures level.keys == [t.key] && (isDir ==> level.seps == [Sep(t)])
  {
  }

  lemma StateGiven(cfg: Config, isDir: bool, levels: seq<Level>, trees: seq<seq<Tree>>,
                   objs: seq<Object>, given: set<Key>, k: Key)
    requires State(cfg, isDir, levels, trees, objs, given)
    ensures State(cfg, isDir, levels, trees, objs, given + {k})
  {
    forall l, i | 0 <= l < |trees| && 0 <= i < |trees[l]|
      ensures ItemOk(cfg, isDir, trees[l][i], objs, given + {k})
    {
      assert ItemOk(cfg, isDir, trees[l][i], objs, given);
    }
    forall i, c | 0 <= i < |objs| && c in ChildKeys(objs[i].node)
      ensures Known(c, objs[..i], given + {k})
    {
      assert Known(c, objs[..i], given);
    }
  }

  lemma NewestGiven(items: seq<Tree>, objs: seq<Object>, given: set<Key>, t: Tree)
    requires LastIsNewest(items, objs, given) && t.Leaf?
    ensures LastIsNewest(items + [t], objs, given + {t.key})
  {
    if |objs| > 0 {
      var i :| 0 <= i < |items| && items[i].key == objs[|objs| - 1].key
               && forall j :: i < j < |items| ==> items[j].Leaf? && items[j].key in given;
      assert (items + [t])[i].key == objs[|objs| - 1].key;
    }
  }

  lemma {:induction false} HasLeaf(cfg: Config, isDir: bool, t: Tree)
    requires cfg.Valid() && Built(cfg, isDir, t)
    ensures Leaves(t) != []
  {
    match t
    case Leaf(_, _) =>
    case Branch(_, kids) => HasLeaf(cfg, isDir, kids[0]);
  }

  /** A level with an open run contributes leaves; a consistent trace has children first. */
  lemma LevelLeaves(b: IndexBuilder, sink: Sink, l: nat)
    requires b.Consistent(sink) && l < |b.levels| && EmptyBelow(b.trees, l)
    ensures ChildrenFirst(sink.emitted, b.given) && Encoded(b.cfg, sink.emitted)
    ensures b.levels[l].runLen > 0 ==> LeavesOf(b.Items()) != []
  {
    hide Flatten;
    var run := b.trees[l];
    FlattenAt(b.trees, l, []);
    LeavesOfConcat(Flatten(b.trees[l := []]), run);
    if b.levels[l].runLen > 0 {
      assert ItemOk(b.cfg, b.isDir, b.trees[l][0], sink.emitted, b.given);
      HasLeaf(b.cfg, b.isDir, run[0]);
    }
  }

  lemma RootNewest(t: Tree, objs: seq<Object>, given: set<Key>)
    requires LastIsNewest([t], objs, given)
    ensures objs == [] || objs[|objs| - 1].key == t.key
  {
  }

  /** Expanding the root through the emitted objects, deep enough, gives exactly its leaves,
      provided keys identify contents and no leaf is the key of an emitted index node. */
  ghost predicate Reads(cfg: Config, objs: seq<Object>, root: Tree)
  {
    Injective(cfg) && LeavesAreLeaves(Leaves(root), objs) ==>
      forall depth: nat :: depth >= Height(root) ==> Expand(objs, root.key, depth) == Keys(Leaves(root))
  }

  lemma RootReads(cfg: Config, isDir: bool, root: Tree, objs: seq<Object>)
    requires Encoded(cfg, objs) && Stored(isDir, root, objs)
    ensures Reads(cfg, objs, root)
  {
    hide Encoded, Stored, Injective, LeavesAreLeaves, Height, Expand, Leaves;
    if Injective(cfg) && LeavesAreLeaves(Leaves(root), objs) {
      forall depth: nat | depth >= Height(root)
        ensures Expand(objs, root.key, depth) == Keys(Leaves(root))
      {
        ExpandTree(cfg, isDir, root, objs, depth);
      }
    }
  }
}
