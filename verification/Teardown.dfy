// Tearing an address space's page tables down (paging_free_* in mm/paging.c): every table
// and every mapped page gives up exactly the one reference the space held.
module Teardown {
  import opened Words
  import opened PageTree
  import opened FlatMap
  import opened Pmem
  import opened Paging
  import Bitmap

  function SpaceNodes(t: Tree, s: nat): set<Node> { set n | n in t && n.space == s }

  /** The nodes of p that name frame f. */
  function Named(t: Tree, p: set<Node>, f: nat): set<Node> { set n | n in p && n in t && t[n] == f }

  /** held, and on top of it the references of the nodes in p. */
  function HoldSet(held: seq<nat>, t: Tree, p: set<Node>): (r: seq<nat>)
    ensures |r| == |held|
  {
    seq(|held|, f requires 0 <= f < |held| => held[f] + |Named(t, p, f)|)
  }

  /** The nodes strictly below n. */
  function Below(t: Tree, n: Node): set<Node> {
    set k | k in t && k.space == n.space && |n.path| < |k.path| && k.path[..|n.path|] == n.path
  }

  /** The nodes below n whose path leaves n through one of its first i entries. */
  function BelowFirst(t: Tree, n: Node, i: nat): set<Node> {
    set k | k in Below(t, n) && |n.path| < |k.path| && k.path[|n.path|] < i
  }

  /** The nodes reached through entry i of n. */
  function Branch(t: Tree, n: Node, i: nat): set<Node> {
    if Child(n, i) in t then {Child(n, i)} + Below(t, Child(n, i)) else {}
  }

  lemma {:induction false} AncestorsIn(t: Tree, size: nat, k: Node, d: nat)
    requires Shaped(t, size) && k in t && d <= |k.path|
    ensures Node(k.space, k.path[..d]) in t
    decreases |k.path|
  {
    assert NodeOk(t, k, size);
    if d == |k.path| {
      assert k.path[..d] == k.path;
    } else {
      AncestorsIn(t, size, Parent(k), d);
      assert Parent(k).path[..d] == k.path[..d];
    }
  }

  lemma BranchIsNext(t: Tree, size: nat, n: Node, i: nat)
    requires Shaped(t, size)
    ensures BelowFirst(t, n, i + 1) == BelowFirst(t, n, i) + Branch(t, n, i)
    ensures BelowFirst(t, n, i) !! Branch(t, n, i)
  {
    var c, d := Child(n, i), |n.path|;
    forall k | k in Below(t, n) && k.path[d] == i
      ensures c in t && k in Branch(t, n, i)
    {
      AncestorsIn(t, size, k, d + 1);
      assert k.path[..d + 1] == k.path[..d] + [i] == c.path;
      if |k.path| == d + 1 { assert k.path == c.path; }
    }
    forall k | k in Branch(t, n, i)
      ensures k in Below(t, n) && k.path[d] == i
    {
      assert c.path[..d] == n.path && c.path[d] == i;
      if k != c {
        assert k.path[..d] == k.path[..d + 1][..d];
        assert k.path[d] == k.path[..d + 1][d];
      }
    }
  }

  lemma AllBelow(t: Tree, size: nat, n: Node)
    requires Shaped(t, size)
    ensures BelowFirst(t, n, ENTRIES) == Below(t, n) && BelowFirst(t, n, 0) == {}
  {
    forall k | k in Below(t, n) ensures k.path[|n.path|] < ENTRIES {
      assert NodeOk(t, k, size);
    }
  }

  // ----- handing a space's references over to the code that tears it down -----

  lemma DropFromSet(held: seq<nat>, t: Tree, p: set<Node>, n: Node)
    requires n in p && n in t && t[n] < |held|
    ensures HoldSet(held, t, p)[t[n]] > 0
    ensures Drop(HoldSet(held, t, p), t[n]) == HoldSet(held, t, p - {n})
  {
    var f := t[n];
    assert n in Named(t, p, f);
    forall g | 0 <= g < |held| ensures Drop(HoldSet(held, t, p), f)[g] == HoldSet(held, t, p - {n})[g] {
      assert Named(t, p - {n}, g) == Named(t, p, g) - (if g == f then {n} else {});
    }
  }

  lemma HoldNothing(held: seq<nat>, t: Tree)
    ensures HoldSet(held, t, {}) == held
  {
    forall f | 0 <= f < |held| ensures HoldSet(held, t, {})[f] == held[f] {
      assert Named(t, {}, f) == {};
    }
  }

  lemma DetachCounts(refs: seq<nat>, t: Tree, held: seq<nat>, s: nat)
    requires |refs| == |held| && Counted(refs, t, held)
    ensures Counted(refs, t - SpaceNodes(t, s), HoldSet(held, t, SpaceNodes(t, s)))
  {
    var p := SpaceNodes(t, s);
    forall f | 0 <= f < |refs| ensures |Holders(t, f)| == |Holders(t - p, f)| + |Named(t, p, f)| {
      assert Holders(t, f) == Holders(t - p, f) + Named(t, p, f);
    }
  }

  /** Moving the references of space s out of the tree. */
  lemma DetachSound(m: Mem, t: Tree, held: seq<nat>, reserved: nat, s: nat)
    requires Sound(m, t, held, reserved)
    ensures Sound(m, t - SpaceNodes(t, s), HoldSet(held, t, SpaceNodes(t, s)), reserved)
  {
    var p := SpaceNodes(t, s);
    var t', held' := t - p, HoldSet(held, t, p);
    DetachCounts(m.refs, t, held, s);
    forall n | n in t' ensures NodeOk(t', n, |m.ram|) {
      assert NodeOk(t, n, |m.ram|);
    }
    forall n | n in t' && IsTable(n)
      ensures NodeOk(t', n, |held'|) && held'[t'[n]] == 0 && forall k :: k in t' && t'[k] == t'[n] ==> k == n
    {
      assert NodeOk(t, n, |held|);
      assert Named(t, p, t[n]) == {};
    }
    forall n, i | n in t' && IsTable(n) && 0 <= i < ENTRIES ensures NodeOk(t', n, |m.ram|) && EntryOk(m.ram, t', n, i) {
      assert EntryOk(m.ram, t, n, i);
    }
  }

  // ----- releasing them -----

  /** Tables are only read: what is left to release are the references of the nodes in p. */
  ghost predicate Freeing(m: Mem, held: seq<nat>, m0: Mem, t0: Tree, h0: seq<nat>, reserved: nat, p: set<Node>) {
    Sound(m0, t0, h0, reserved) && m.ram == m0.ram && |m.refs| == |h0| && held == HoldSet(h0, t0, p)
  }

  /** The entry at index i of table n, while its subtree is still to be released. */
  lemma EntryToFree(m: Mem, held: seq<nat>, m0: Mem, t0: Tree, h0: seq<nat>, reserved: nat, p: set<Node>, n: Node,
          i: nat)
    requires Freeing(m, held, m0, t0, h0, reserved, p) && n in t0 && IsTable(n) && i < ENTRIES
    ensures t0[n] < |m.ram| && Shaped(t0, |m0.ram|)
    ensures var e := ReadWord(m.ram[t0[n]], i);
      && (Present(e) ==> Child(n, i) in t0 && FrameOf(e) == t0[Child(n, i)] < |h0|)
      && (!Present(e) ==> Child(n, i) !in t0)
    ensures |n.path| == DEPTH - 1 ==> Below(t0, Child(n, i)) == {}
  {
    PresentEntry(m0, t0, h0, reserved, n, i);
    SoundSizes(m0, t0, h0, reserved);
    forall k | k in Below(t0, Child(n, i)) ensures |n.path| < DEPTH - 1 {
      assert NodeOk(t0, k, |m0.ram|);
    }
  }

  lemma ReleaseNode(m: Mem, t: Tree, held: seq<nat>, m0: Mem, t0: Tree, h0: seq<nat>, reserved: nat, p: set<Node>,
          c: Node)
    requires Freeing(m, held, m0, t0, h0, reserved, p) && Sound(m, t, held, reserved) && c in p && c in t0
    requires t0[c] < |h0|
    ensures t0[c] < |held| == |m.refs| == |m.used| && held[t0[c]] > 0 && m.refs[t0[c]] > 0
    ensures Freeing(Release(m, t0[c]), Drop(held, t0[c]), m0, t0, h0, reserved, p - {c})
  {
    DropFromSet(h0, t0, p, c);
    FreeNeverFails(m, t, held, reserved, t0[c]);
  }

  lemma NextIndex(t: Tree, size: nat, n: Node, i: nat, p: set<Node>)
    requires Shaped(t, size) && Below(t, n) <= p && i < ENTRIES
    ensures Branch(t, n, i) <= p - BelowFirst(t, n, i)
    ensures p - BelowFirst(t, n, i) - Branch(t, n, i) == p - BelowFirst(t, n, i + 1)
    ensures Child(n, i) in t ==> Below(t, Child(n, i)) <= p - BelowFirst(t, n, i)
    ensures Child(n, i) in t ==> Child(n, i) in p - BelowFirst(t, n, i) - Below(t, Child(n, i))
    ensures Child(n, i) !in t ==> p - BelowFirst(t, n, i) == p - BelowFirst(t, n, i + 1)
    ensures Child(n, i) in t ==>
      p - BelowFirst(t, n, i) - Below(t, Child(n, i)) - {Child(n, i)} == p - BelowFirst(t, n, i + 1)
  {
    BranchIsNext(t, size, n, i);
    assert BelowFirst(t, n, i + 1) <= Below(t, n);
  }

  /** What is left to release once the first i entries of table n are done. */
  ghost predicate FreeProgress(m: Mem, held: seq<nat>, m0: Mem, t0: Tree, h0: seq<nat>, reserved: nat, p: set<Node>,
          n: Node, i: nat) {
    Below(t0, n) <= p && Freeing(m, held, m0, t0, h0, reserved, p - BelowFirst(t0, n, i))
  }

  lemma FreeStart(m: Mem, held: seq<nat>, m0: Mem, t0: Tree, h0: seq<nat>, reserved: nat, p: set<Node>, n: Node)
    requires Freeing(m, held, m0, t0, h0, reserved, p) && Below(t0, n) <= p
    ensures FreeProgress(m, held, m0, t0, h0, reserved, p, n, 0)
  {
    AllBelow(t0, |m0.ram|, n);
    assert p - BelowFirst(t0, n, 0) == p;
  }

  lemma FreeEnd(m: Mem, held: seq<nat>, m0: Mem, t0: Tree, h0: seq<nat>, reserved: nat, p: set<Node>, n: Node)
    requires FreeProgress(m, held, m0, t0, h0, reserved, p, n, ENTRIES)
    ensures Freeing(m, held, m0, t0, h0, reserved, p - Below(t0, n))
  {
    AllBelow(t0, |m0.ram|, n);
  }

  /** One entry of a table: release what it refers to, and first everything below. */
  method FreeEntry(pm: PhysMem, table: nat, i: nat, depth: nat,
                   ghost n: Node, ghost m0: Mem, ghost t0: Tree, ghost h0: seq<nat>, ghost p: set<Node>)
    requires pm.Valid() && n in t0 && t0[n] == table && |n.path| == depth < DEPTH && i < ENTRIES
    requires FreeProgress(pm.Abs(), pm.held, m0, t0, h0, pm.reserved, p, n, i)
    modifies pm`held, pm.bitmap, pm.refs
    ensures pm.Valid() && FreeProgress(pm.Abs(), pm.held, m0, t0, h0, pm.reserved, p, n, i + 1)
    decreases DEPTH - depth, 0
  {
    hide Sound, Sized, Bitmapped, Counted, Shaped, Exclusive, Linked, Holders, Below, BelowFirst, HoldSet, Freeing,
      PhysMem.Valid, PhysMem.Abs, Bitmap.Bits, FrameOf, FlagsOf, Present, Drop, Release;
    ghost var c, q := Child(n, i), p - BelowFirst(t0, n, i);
    pm.Soundness();
    EntryToFree(pm.Abs(), pm.held, m0, t0, h0, pm.reserved, q, n, i);
    NextIndex(t0, |m0.ram|, n, i, p);
    var e := ReadWord(pm.ram[table], i);
    if Present(e) {
      if depth < DEPTH - 1 {
        FreeTable(pm, FrameOf(e), depth + 1, c, m0, t0, h0, q);
      } else {
        assert q - Below(t0, c) == q;
      }
      pm.Soundness();
      ReleaseNode(pm.Abs(), pm.tree, pm.held, m0, t0, h0, pm.reserved, q - Below(t0, c), c);
      var ok := pm.FreeBlock(FrameOf(e));
    }
  }

  /** paging_free_page_tab, _page_dir and _leaf_table: release everything below the table n. */
  method FreeTable(pm: PhysMem, table: nat, depth: nat,
                   ghost n: Node, ghost m0: Mem, ghost t0: Tree, ghost h0: seq<nat>, ghost p: set<Node>)
    requires pm.Valid() && n in t0 && t0[n] == table && |n.path| == depth < DEPTH && Below(t0, n) <= p
    requires Freeing(pm.Abs(), pm.held, m0, t0, h0, pm.reserved, p)
    modifies pm`held, pm.bitmap, pm.refs
    ensures pm.Valid() && Freeing(pm.Abs(), pm.held, m0, t0, h0, pm.reserved, p - Below(t0, n))
    decreases DEPTH - depth, 2
  {
    FreeStart(pm.Abs(), pm.held, m0, t0, h0, pm.reserved, p, n);
    FreeEntries(pm, table, depth, n, m0, t0, h0, p);
    FreeEnd(pm.Abs(), pm.held, m0, t0, h0, pm.reserved, p, n);
  }

  method FreeEntries(pm: PhysMem, table: nat, depth: nat,
                     ghost n: Node, ghost m0: Mem, ghost t0: Tree, ghost h0: seq<nat>, ghost p: set<Node>)
    requires pm.Valid() && n in t0 && t0[n] == table && |n.path| == depth < DEPTH
    requires FreeProgress(pm.Abs(), pm.held, m0, t0, h0, pm.reserved, p, n, 0)
    modifies pm`held, pm.bitmap, pm.refs
    ensures pm.Valid() && FreeProgress(pm.Abs(), pm.held, m0, t0, h0, pm.reserved, p, n, ENTRIES)
    decreases DEPTH - depth, 1
  {
    hide *;
    var i := 0;
    while i < ENTRIES
      invariant i <= ENTRIES && pm.Valid()
      invariant FreeProgress(pm.Abs(), pm.held, m0, t0, h0, pm.reserved, p, n, i)
    {
      FreeEntry(pm, table, i, depth, n, m0, t0, h0, p);
      i := i + 1;
    }
  }

  /** The whole space is its root and what is below it. */
  lemma RootIsAll(t: Tree, s: nat)
    requires TableNode(s, 0, 0) in t
    ensures SpaceNodes(t, s) == {TableNode(s, 0, 0)} + Below(t, TableNode(s, 0, 0))
  {
    var root := TableNode(s, 0, 0);
    assert root.path == [];
    forall k | k in SpaceNodes(t, s) ensures k == root || k in Below(t, root) {
      assert k.path[..0] == [];
    }
  }

  /** paging_free_pg_tbl: every reference of space s is released, once, and nothing else. */
  method FreePgTbl(pm: PhysMem, root: nat, ghost s: nat)
    requires pm.Valid() && Rooted(pm.tree, s, root)
    modifies pm`tree, pm`held, pm.bitmap, pm.refs
    ensures pm.Valid() && pm.held == old(pm.held)
    ensures pm.tree == old(pm.tree) - SpaceNodes(old(pm.tree), s)
    ensures pm.Abs().ram == old(pm.Abs().ram)
  {
    ghost var m0, t0, h0, n := pm.Abs(), pm.tree, pm.held, TableNode(s, 0, 0);
    ghost var p := SpaceNodes(t0, s);
    DetachSound(m0, t0, h0, pm.reserved, s);
    pm.Own(t0 - p, HoldSet(h0, t0, p));
    RootIsAll(t0, s);
    SoundSizes(m0, t0, h0, pm.reserved);
    FreeTable(pm, root, 0, n, m0, t0, h0, p);
    assert p - Below(t0, n) == {n};
    ReleaseNode(pm.Abs(), pm.tree, pm.held, m0, t0, h0, pm.reserved, {n}, n);
    var ok := pm.FreeBlock(root);
    HoldNothing(h0, t0);
    assert {n} - {n} == {};
  }
}
