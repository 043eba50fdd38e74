/** The load that a list of retained hashes puts on each cell of the table: how many live
    hashes touch it, the exclusive or of their roles there, and of the hashes themselves.
    Filling adds to this load, peeling removes from it. */
module FuseLoad {
  import opened Bits
  import opened FuseGeometry

  type Index = u64 -> Triple

  /** The index function of a geometry. */
  ghost function IndexOf(g: Geometry): (ix: Index)
    ensures g.Valid() ==> forall h: u64 :: ix(h) == Cells(g, h)
  {
    (h: u64) => if g.Valid() then Cells(g, h) else Triple(0, 0, 0)
  }

  /** The role in which a cell appears in a triple; 3 when it does not. */
  function Role(t: Triple, c: nat): (r: nat)
    ensures r <= 3
  {
    if c == t.c0 then 0 else if c == t.c1 then 1 else if c == t.c2 then 2 else 3
  }

  predicate Touches(t: Triple, c: nat)
  {
    Role(t, c) < 3
  }

  datatype Load = Load(count: nat, role: nat, hash: nat)

  const EMPTY: Load := Load(0, 0, 0)

  function Add(l: Load, role: nat, h: nat): Load
  {
    Load(l.count + 1, Xor(l.role, role), Xor(l.hash, h))
  }

  /** Load on cell `c` from those of the first `n` hashes whose positions are live. */
  function LoadOn(ix: Index, hashes: seq<u64>, live: set<nat>, c: nat, n: nat): (l: Load)
    requires n <= |hashes|
  {
    if n == 0 then EMPTY
    else
      var rest := LoadOn(ix, hashes, live, c, n - 1);
      var t := ix(hashes[n - 1]);
      if n - 1 in live && Touches(t, c) then Add(rest, Role(t, c), hashes[n - 1]) else rest
  }

  lemma {:induction false} LoadPrefix(ix: Index, hashes: seq<u64>, h: u64, live: set<nat>, c: nat, n: nat)
    requires n <= |hashes|
    ensures LoadOn(ix, hashes + [h], live + {|hashes|}, c, n) == LoadOn(ix, hashes, live, c, n)
  {
    if n > 0 {
      LoadPrefix(ix, hashes, h, live, c, n - 1);
    }
  }

  /** Load after one more retained hash. */
  lemma LoadAppend(ix: Index, hashes: seq<u64>, h: u64, c: nat)
    ensures LoadOn(ix, hashes + [h], Below(|hashes| + 1), c, |hashes| + 1) ==
            var l := LoadOn(ix, hashes, Below(|hashes|), c, |hashes|);
            if Touches(ix(h), c) then Add(l, Role(ix(h), c), h) else l
  {
    LoadPrefix(ix, hashes, h, Below(|hashes|), c, |hashes|);
    assert Below(|hashes| + 1) == Below(|hashes|) + {|hashes|};
  }

  lemma RoleBound(a: nat, b: nat)
    requires a < 4 && b < 4
    ensures Xor(a, b) < 4
  {
    Pow2Values();
    XorBound(2, a, b);
  }

  lemma {:induction false} LoadRoleBound(ix: Index, hashes: seq<u64>, live: set<nat>, c: nat, n: nat)
    requires n <= |hashes|
    ensures LoadOn(ix, hashes, live, c, n).role < 4
  {
    if n > 0 {
      LoadRoleBound(ix, hashes, live, c, n - 1);
      hide Xor;
      RoleBound(LoadOn(ix, hashes, live, c, n - 1).role, Role(ix(hashes[n - 1]), c));
    }
  }

  lemma {:induction false} LoadIgnoresDead(ix: Index, hashes: seq<u64>, live: set<nat>, i: nat, c: nat, n: nat)
    requires n <= |hashes| && (i >= n || i !in live || !Touches(ix(hashes[i]), c))
    ensures LoadOn(ix, hashes, live - {i}, c, n) == LoadOn(ix, hashes, live, c, n)
  {
    if n > 0 {
      LoadIgnoresDead(ix, hashes, live, i, c, n - 1);
    }
  }

  lemma AddSwap(l: Load, r: nat, h: nat, r': nat, h': nat)
    ensures Add(Add(l, r, h), r', h') == Add(Add(l, r', h'), r, h)
  {
    hide Xor;
    XorSwapLast(l.role, r, r');
    XorSwapLast(l.hash, h, h');
  }

  /** Taking one live hash away: the full load is the reduced one plus that hash. */
  lemma {:induction false} LoadRemove(ix: Index, hashes: seq<u64>, live: set<nat>, i: nat, c: nat, n: nat)
    requires i < n <= |hashes| && i in live && Touches(ix(hashes[i]), c)
    ensures LoadOn(ix, hashes, live, c, n) ==
            Add(LoadOn(ix, hashes, live - {i}, c, n), Role(ix(hashes[i]), c), hashes[i])
    decreases n
  {
    hide Xor, Add;
    var h, r := hashes[i], Role(ix(hashes[i]), c);
    if i == n - 1 {
      LoadIgnoresDead(ix, hashes, live, i, c, n - 1);
    } else {
      LoadRemove(ix, hashes, live, i, c, n - 1);
      var t := ix(hashes[n - 1]);
      if n - 1 in live && Touches(t, c) {
        AddSwap(LoadOn(ix, hashes, live - {i}, c, n - 1), r, h, Role(t, c), hashes[n - 1]);
      }
    }
  }

  /** No live hash touches a cell of count zero. */
  lemma {:induction false} LoadZero(ix: Index, hashes: seq<u64>, live: set<nat>, c: nat, n: nat, i: nat)
    requires i < n <= |hashes| && i in live && LoadOn(ix, hashes, live, c, n).count == 0
    ensures !Touches(ix(hashes[i]), c)
    decreases n
  {
    if i < n - 1 {
      LoadZero(ix, hashes, live, c, n - 1, i);
    }
  }

  lemma {:induction false} LoadEmpty(ix: Index, hashes: seq<u64>, live: set<nat>, c: nat, n: nat)
    requires n <= |hashes| && LoadOn(ix, hashes, live, c, n).count == 0
    ensures LoadOn(ix, hashes, live, c, n) == EMPTY
  {
    if n > 0 {
      LoadEmpty(ix, hashes, live, c, n - 1);
    }
  }

  /** A cell that no live hash touches has count zero. */
  lemma {:induction false} LoadUntouched(ix: Index, hashes: seq<u64>, live: set<nat>, c: nat, n: nat)
    requires n <= |hashes| && forall i :: 0 <= i < n && i in live ==> !Touches(ix(hashes[i]), c)
    ensures LoadOn(ix, hashes, live, c, n).count == 0
  {
    if n > 0 {
      LoadUntouched(ix, hashes, live, c, n - 1);
    }
  }

  /** A cell of count one names its only live hash and that hash's role. */
  lemma {:induction false} LoadOne(ix: Index, hashes: seq<u64>, live: set<nat>, c: nat, n: nat) returns (i: nat)
    requires n <= |hashes| && LoadOn(ix, hashes, live, c, n).count == 1
    ensures i < n && i in live && Touches(ix(hashes[i]), c)
    ensures LoadOn(ix, hashes, live, c, n) == Load(1, Role(ix(hashes[i]), c), hashes[i])
    decreases n
  {
    hide Xor;
    var t := ix(hashes[n - 1]);
    if n - 1 in live && Touches(t, c) {
      i := n - 1;
      LoadEmpty(ix, hashes, live, c, n - 1);
      XorZero(Role(t, c));
      XorZero(hashes[i]);
    } else {
      i := LoadOne(ix, hashes, live, c, n - 1);
    }
  }

  /** Once the only live hash of a cell is taken away nothing touches the cell. */
  lemma LoadOneAlone(ix: Index, hashes: seq<u64>, live: set<nat>, c: nat, i: nat, j: nat)
    requires i < |hashes| && i in live && Touches(ix(hashes[i]), c)
    requires LoadOn(ix, hashes, live, c, |hashes|).count == 1
    requires j < |hashes| && j in live && j != i
    ensures !Touches(ix(hashes[j]), c)
  {
    LoadRemove(ix, hashes, live, i, c, |hashes|);
    LoadZero(ix, hashes, live - {i}, c, |hashes|, j);
  }
}
