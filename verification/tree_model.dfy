/** Tree objects, their encoders and the trees that a builder's open runs stand for. */
module TreeModel {
  import opened Bits
  import opened Endian

  type Key = Bytes
  type Name = Bytes

  /** A directory entry: its name and everything else it carries. */
  datatype Entry = Entry(name: Name, payload: Bytes)

  datatype Pair = Pair(sep: Name, child: Key)

  /** The content of an index or leaf object. */
  datatype Node =
    | FileNode(children: seq<Key>)
    | DirNode(pairs: seq<Pair>)
    | DirLeaf(entries: seq<Entry>)

  datatype Object = Object(key: Key, node: Node)

  /** What the boundary decision hashes. */
  datatype Item = KeyItem(key: Key) | PairItem(pair: Pair) | EntryItem(entry: Entry)

  /** `ItemChunker`. */
  datatype ItemChunker = ItemChunker(minRun: nat, maxRun: nat, mask: nat)
  {
    /** What construction guarantees; the mask has all bits of the average run but the top one. */
    ghost predicate Valid() {
      2 <= minRun <= maxRun && exists k: nat :: mask + 1 == Pow2(k)
    }
  }

  /** `ItemChunker::new`: average run `2^bits`. */
  function NewChunker(bits: nat): (ic: ItemChunker)
    ensures 2 <= ic.minRun <= ic.maxRun && ic.Valid()
  {
    assert Pow2(0) == 1;
    var avg := Pow2(bits);
    ItemChunker(if avg / 4 < 2 then 2 else avg / 4, avg * 4, if bits > 0 then avg - 1 else 0)
  }

  /** `is_boundary`, given the first word of the item's digest. */
  predicate IsBoundary(ic: ItemChunker, first8: nat, runLen: nat)
  {
    if runLen >= ic.maxRun then true
    else if runLen < ic.minRun then false
    else And(first8, ic.mask) == 0
  }

  /** The hash and the object encoders, which may refuse a node. */
  datatype Config = Config(
    ic: ItemChunker,
    digest: Item -> u64,
    encode: Node -> Option<Key>,
    marshals: Entry -> bool)
  {
    ghost predicate Valid() {
      ic.Valid()
    }
  }

  /** What an index builder's child reference stands for: a child that was added, or an index
      node over earlier references. */
  datatype Tree = Leaf(key: Key, sep: Name) | Branch(key: Key, kids: seq<Tree>)

  /** The separator: the greatest name of a subtree is that of its last leaf. */
  function Sep(t: Tree): Name
  {
    match t
    case Leaf(_, sep) => sep
    case Branch(_, kids) => if |kids| == 0 then [] else Sep(kids[|kids| - 1])
  }

  function Keys(ts: seq<Tree>): (r: seq<Key>)
    ensures |r| == |ts| && forall i :: 0 <= i < |ts| ==> r[i] == ts[i].key
  {
    seq(|ts|, i requires 0 <= i < |ts| => ts[i].key)
  }

  function Seps(ts: seq<Tree>): (r: seq<Name>)
    ensures |r| == |ts| && forall i :: 0 <= i < |ts| ==> r[i] == Sep(ts[i])
  {
    seq(|ts|, i requires 0 <= i < |ts| => Sep(ts[i]))
  }

  function Pairs(ts: seq<Tree>): (r: seq<Pair>)
    ensures |r| == |ts| && forall i :: 0 <= i < |ts| ==> r[i] == Pair(Sep(ts[i]), ts[i].key)
  {
    seq(|ts|, i requires 0 <= i < |ts| => Pair(Sep(ts[i]), ts[i].key))
  }

  function NodeOver(isDir: bool, kids: seq<Tree>): Node
  {
    if isDir then DirNode(Pairs(kids)) else FileNode(Keys(kids))
  }

  /** The leaves of a tree, in order. */
  function Leaves(t: Tree): seq<Tree>
    decreases t, 0
  {
    match t
    case Leaf(_, _) => [t]
    case Branch(_, kids) => LeavesOf(kids)
  }

  function LeavesOf(ts: seq<Tree>): seq<Tree>
    decreases ts, 1
  {
    if |ts| == 0 then [] else Leaves(ts[0]) + LeavesOf(ts[1..])
  }

  lemma {:induction false} LeavesOfConcat(a: seq<Tree>, b: seq<Tree>)
    ensures LeavesOf(a + b) == LeavesOf(a) + LeavesOf(b)
  {
    hide Leaves;
    if |a| == 0 {
      assert a + b == b;
    } else {
      LeavesOfConcat(a[1..], b);
      assert (a + b)[1..] == a[1..] + b;
    }
  }

  lemma LeavesOfOne(t: Tree)
    ensures LeavesOf([t]) == Leaves(t)
  {
    assert LeavesOf([t]) == Leaves(t) + LeavesOf([t][1..]);
  }

  /** A leaf that could have been added, or a node that was encoded over two to `maxRun` such
      trees. */
  ghost predicate Built(cfg: Config, isDir: bool, t: Tree)
  {
    match t
    case Leaf(_, sep) => isDir || sep == []
    case Branch(key, kids) =>
      && 2 <= |kids| <= cfg.ic.maxRun
      && cfg.encode(NodeOver(isDir, kids)) == Some(key)
      && forall i :: 0 <= i < |kids| ==> Built(cfg, isDir, kids[i])
  }

  /** Every index node of the tree has been emitted. */
  ghost predicate Stored(isDir: bool, t: Tree, objs: seq<Object>)
  {
    match t
    case Leaf(_, _) => true
    case Branch(key, kids) =>
      && Object(key, NodeOver(isDir, kids)) in objs
      && forall i :: 0 <= i < |kids| ==> Stored(isDir, kids[i], objs)
  }

  lemma {:induction false} StoredMore(isDir: bool, t: Tree, objs: seq<Object>, o: Object)
    requires Stored(isDir, t, objs)
    ensures Stored(isDir, t, objs + [o])
  {
    match t
    case Leaf(_, _) =>
    case Branch(_, kids) =>
      forall i | 0 <= i < |kids| ensures Stored(isDir, kids[i], objs + [o]) {
        StoredMore(isDir, kids[i], objs, o);
      }
  }

  /** The key was given from outside or is that of an emitted object. */
  ghost predicate Known(k: Key, objs: seq<Object>, given: set<Key>)
  {
    k in given || exists j :: 0 <= j < |objs| && objs[j].key == k
  }

  function ChildKeys(n: Node): seq<Key>
  {
    match n
    case FileNode(children) => children
    case DirNode(pairs) => seq(|pairs|, i requires 0 <= i < |pairs| => pairs[i].child)
    case DirLeaf(_) => []
  }

  /** Every child of an emitted object was given, or emitted before it. */
  ghost predicate ChildrenFirst(objs: seq<Object>, given: set<Key>)
  {
    forall i, k :: 0 <= i < |objs| && k in ChildKeys(objs[i].node) ==> Known(k, objs[..i], given)
  }

  lemma ChildrenFirstAppend(objs: seq<Object>, given: set<Key>, o: Object)
    requires ChildrenFirst(objs, given) && forall k :: k in ChildKeys(o.node) ==> Known(k, objs, given)
    ensures ChildrenFirst(objs + [o], given)
  {
    var objs' := objs + [o];
    forall i, k | 0 <= i < |objs'| && k in ChildKeys(objs'[i].node)
      ensures Known(k, objs'[..i], given)
    {
      if i < |objs| {
        assert objs'[..i] == objs[..i];
      } else {
        assert objs'[..i] == objs;
      }
    }
  }

  /** The last emitted object, if any, is the last reference that is not a given leaf. */
  ghost predicate LastIsNewest(items: seq<Tree>, objs: seq<Object>, given: set<Key>)
  {
    |objs| > 0 ==>
      exists i :: 0 <= i < |items| && items[i].key == objs[|objs| - 1].key
                  && forall j :: i < j < |items| ==> items[j].Leaf? && items[j].key in given
  }

  /** Every emitted object carries the key of its content. */
  ghost predicate Encoded(cfg: Config, objs: seq<Object>)
  {
    forall i :: 0 <= i < |objs| ==> cfg.encode(objs[i].node) == Some(objs[i].key)
  }

  /** Different contents have different keys. */
  ghost predicate Injective(cfg: Config)
  {
    forall n: Node, m: Node :: cfg.encode(n).Some? && cfg.encode(n) == cfg.encode(m) ==> n == m
  }

  /** Reads the object stored under a key. */
  function Find(objs: seq<Object>, k: Key): Option<Node>
  {
    if |objs| == 0 then None else if objs[0].key == k then Some(objs[0].node) else Find(objs[1..], k)
  }

  lemma {:induction false} FindStored(cfg: Config, objs: seq<Object>, o: Object)
    requires Injective(cfg) && Encoded(cfg, objs) && o in objs
    ensures Find(objs, o.key) == Some(o.node)
  {
    var i :| 0 <= i < |objs| && objs[i] == o;
    if objs[0].key != o.key {
      assert objs[1..][i - 1] == o;
      FindStored(cfg, objs[1..], o);
    }
  }

  lemma {:induction false} FindNoNode(objs: seq<Object>, k: Key)
    requires forall i :: 0 <= i < |objs| && objs[i].key == k ==> objs[i].node.DirLeaf?
    ensures Find(objs, k).Some? ==> Find(objs, k).value.DirLeaf?
  {
    if |objs| > 0 {
      FindNoNode(objs[1..], k);
    }
  }

  /** Follows index nodes from a key, `depth` levels down, to the leaf keys. */
  function Expand(objs: seq<Object>, k: Key, depth: nat): seq<Key>
    decreases depth, 0
  {
    if depth == 0 then [k]
    else
      match Find(objs, k)
      case None => [k]
      case Some(DirLeaf(_)) => [k]
      case Some(n) => ExpandAll(objs, ChildKeys(n), depth - 1)
  }

  function ExpandAll(objs: seq<Object>, ks: seq<Key>, depth: nat): seq<Key>
    decreases depth, 1, |ks|
  {
    if |ks| == 0 then [] else Expand(objs, ks[0], depth) + ExpandAll(objs, ks[1..], depth)
  }

  function Height(t: Tree): nat
    decreases t, 0
  {
    match t
    case Leaf(_, _) => 0
    case Branch(_, kids) => 1 + HeightOf(kids)
  }

  function HeightOf(ts: seq<Tree>): (h: nat)
    ensures forall i :: 0 <= i < |ts| ==> Height(ts[i]) <= h
    decreases ts, 1
  {
    if |ts| == 0 then 0
    else
      var a, b := Height(ts[0]), HeightOf(ts[1..]);
      if a > b then a else b
  }

  /** No leaf of the tree is itself the key of an emitted index node. */
  ghost predicate LeavesAreLeaves(ts: seq<Tree>, objs: seq<Object>)
  {
    forall i, j :: 0 <= i < |ts| && 0 <= j < |objs| && objs[j].key == ts[i].key ==> objs[j].node.DirLeaf?
  }

  /** Expanding a stored tree's key through the emitted objects yields exactly its leaves. */
  lemma {:induction false} ExpandTree(cfg: Config, isDir: bool, t: Tree, objs: seq<Object>, depth: nat)
    requires Injective(cfg) && Encoded(cfg, objs) && Stored(isDir, t, objs)
    requires LeavesAreLeaves(Leaves(t), objs) && depth >= Height(t)
    ensures Expand(objs, t.key, depth) == Keys(Leaves(t))
    decreases t, 0
  {
    match t
    case Leaf(key, _) =>
      assert Leaves(t)[0] == t;
      FindNoNode(objs, key);
    case Branch(key, kids) =>
      FindStored(cfg, objs, Object(key, NodeOver(isDir, kids)));
      assert ChildKeys(NodeOver(isDir, kids)) == Keys(kids);
      ExpandTrees(cfg, isDir, kids, objs, depth - 1);
  }

  lemma {:induction false} ExpandTrees(cfg: Config, isDir: bool, ts: seq<Tree>, objs: seq<Object>, depth: nat)
    requires Injective(cfg) && Encoded(cfg, objs)
    requires forall i :: 0 <= i < |ts| ==> Stored(isDir, ts[i], objs) && Height(ts[i]) <= depth
    requires LeavesAreLeaves(LeavesOf(ts), objs)
    ensures ExpandAll(objs, Keys(ts), depth) == Keys(LeavesOf(ts))
    decreases ts, 1
  {
    if |ts| > 0 {
      hide Expand, Stored, Encoded, Injective, Leaves, Find, LeavesAreLeaves, Height;
      var head, rest := Leaves(ts[0]), LeavesOf(ts[1..]);
      LeavesAreLeavesSplit(head, rest, objs);
      ExpandTree(cfg, isDir, ts[0], objs, depth);
      ExpandTrees(cfg, isDir, ts[1..], objs, depth);
      KeysConcat([ts[0]], ts[1..]);
      assert [ts[0]] + ts[1..] == ts;
      KeysConcat(head, rest);
    }
  }

  lemma KeysConcat(a: seq<Tree>, b: seq<Tree>)
    ensures Keys(a + b) == Keys(a) + Keys(b)
    ensures |a| == 1 ==> Keys(a + b)[1..] == Keys(b)
  {
  }

  lemma LeavesAreLeavesSplit(a: seq<Tree>, b: seq<Tree>, objs: seq<Object>)
    requires LeavesAreLeaves(a + b, objs)
    ensures LeavesAreLeaves(a, objs) && LeavesAreLeaves(b, objs)
  {
    assert forall i :: 0 <= i < |a| ==> (a + b)[i] == a[i];
    assert forall i :: 0 <= i < |b| ==> (a + b)[|a| + i] == b[i];
  }
}
