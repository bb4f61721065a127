// Four-level user page tables (mm/paging.c), changed in place in physical memory.
// Each method names the address space it works on by a ghost number; the tree of
// PageTree.dfy records which frames that space's tables and pages occupy.
module Paging {
  import opened Words
  import opened PageTree
  import opened FlatMap
  import opened Pmem
  import Bitmap

  function FreeFrames(used: seq<bool>): set<nat> { set f | 0 <= f < |used| && !used[f] }

  function Tables(t: Tree): set<Node> { set n | n in t && IsTable(n) }

  /** Free frames and page tables together: mapping pages moves frames between the two. */
  ghost function Room(m: Mem, t: Tree): nat { |FreeFrames(m.used)| + |Tables(t)| }

  /** Only the translation and contents of the pages in `except` may differ,
      and no frame is lost between the free list and the tables. */
  ghost predicate Keeps(m: Mem, t: Tree, m': Mem, t': Tree, except: set<Node>) {
    && Undisturbed(m.ram, t, m'.ram, t', except)
    && Room(m', t') == Room(m, t)
  }

  /** Frames somebody outside the trees holds keep their contents. */
  ghost predicate HeldKept(held: seq<nat>, ram: seq<Page>, ram': seq<Page>) {
    |held| == |ram| == |ram'| && forall f :: 0 <= f < |held| && held[f] > 0 ==> ram'[f] == ram[f]
  }

  lemma KeepsTrans(m: Mem, t: Tree, m1: Mem, t1: Tree, m2: Mem, t2: Tree, x: set<Node>, y: set<Node>)
    requires Keeps(m, t, m1, t1, x) && Keeps(m1, t1, m2, t2, y) && x <= y
    ensures Keeps(m, t, m2, t2, y)
  {
    assert x + y == y;
    UndisturbedTrans(m.ram, t, m1.ram, t1, m2.ram, t2, x, y);
  }

  lemma KeepsRefl(m: Mem, t: Tree)
    ensures Keeps(m, t, m, t, {})
  {
  }

  /** t' is t with some of the nodes on the way to page v of space s added. */
  ghost predicate Grown(t: Tree, t': Tree, s: nat, v: nat, depth: nat)
    requires depth <= DEPTH
  {
    && (forall n :: n in t ==> n in t' && t'[n] == t[n])
    && (forall n :: n in t' && n !in t ==> |n.path| <= depth && n == TableNode(s, v, |n.path|))
  }

  lemma RoomOnLink(m: Mem, t: Tree, n: Node, f: nat)
    requires f < |m.used| == |m.refs| && !m.used[f] && n !in t && IsTable(n)
    ensures Room(Alloc(m, f), t[n := f]) == Room(m, t)
  {
    assert FreeFrames(m.used) == FreeFrames(Alloc(m, f).used) + {f};
    assert Tables(t[n := f]) == Tables(t) + {n};
  }

  lemma RoomOnLeaf(m: Mem, t: Tree, n: Node, f: nat)
    requires !IsTable(n)
    ensures Room(m, t[n := f]) == Room(m, t)
  {
    assert Tables(t[n := f]) == Tables(t);
  }

  /** Allocating and zeroing frame f for a table. */
  lemma NewFrame(m: Mem, t: Tree, h: seq<nat>, reserved: nat, f: nat, m1: Mem)
    requires Sound(m, t, h, reserved) && f < |m.used| && !m.used[f]
    requires m1 == Fill(Alloc(m, f), f, ZeroPage())
    ensures Sound(m1, t, Hold(h, f), reserved)
    ensures Undisturbed(m.ram, t, m1.ram, t, {})
  {
    FreeIsUnnamed(m, t, h, reserved, f);
    AllocSound(m, t, h, reserved, f);
    hide Linked, Exclusive, Counted, Bitmapped, Holders, Undisturbed;
    FillSound(Alloc(m, f), t, Hold(h, f), reserved, f, ZeroPage());
    FillUndisturbed(Alloc(m, f), t, Hold(h, f), reserved, f, ZeroPage(), m1.ram);
  }

  /** Allocating, zeroing and linking frame f as a new table under n. */
  lemma NewTable(m: Mem, t: Tree, h: seq<nat>, reserved: nat, n: Node, i: nat, f: nat, m1: Mem, ram': seq<Page>,
          t': Tree)
    requires Sound(m, t, h, reserved) && n in t && |n.path| < DEPTH - 1 && i < ENTRIES && Child(n, i) !in t
    requires f < |m.used| && !m.used[f] && t[n] < |m.ram|
    requires m1 == Fill(Alloc(m, f), f, ZeroPage()) && ram' == SetEntry(m1.ram, t[n], i, TableEntry(f))
    requires t' == t[Child(n, i) := f]
    ensures Sound(m1.(ram := ram'), t', h, reserved) && Keeps(m, t, m1.(ram := ram'), t', {})
    ensures HeldKept(h, m.ram, ram')
  {
    SoundSizes(m, t, h, reserved);
    assert h[t[n]] == 0;
    hide Exhausted, Sound, Undisturbed, FreeFrames, Tables;
    NewFrame(m, t, h, reserved, f, m1);
    assert m1.refs[f] == 1 && m1.ram[f] == ZeroPage();
    LinkTableSound(m1, t, Hold(h, f), reserved, n, i, f);
    LinkTableFlat(m1, t, Hold(h, f), reserved, n, i, f, ram', t');
    UndisturbedTrans(m.ram, t, m1.ram, t, ram', t', {}, {});
    RoomOnLink(m, t, Child(n, i), f);
  }

  /** A table entry that is present is an edge of the tree, and names no reserved frame. */
  lemma PresentEntry(m: Mem, t: Tree, h: seq<nat>, reserved: nat, n: Node, i: nat)
    requires Sound(m, t, h, reserved) && n in t && IsTable(n) && i < ENTRIES
    ensures t[n] < |m.ram| && (Present(ReadWord(m.ram[t[n]], i)) <==> Child(n, i) in t)
    ensures Child(n, i) in t ==> FrameOf(ReadWord(m.ram[t[n]], i)) == t[Child(n, i)] && t[Child(n, i)] > 0
  {
    SoundSizes(m, t, h, reserved);
    assert EntryOk(m.ram, t, n, i);
    if Child(n, i) in t { NamedIsCounted(t, Child(n, i)); }
  }

  /** Allocate a zeroed table and store it at `offset` of a table; 0 when memory is exhausted. */
  method AllocTable(pm: PhysMem, table: nat, offset: nat, ghost n: Node) returns (child: nat)
    requires pm.Valid() && n in pm.tree && pm.tree[n] == table < pm.ram.Length && |n.path| < DEPTH - 1
    requires offset < ENTRIES && Child(n, offset) !in pm.tree
    modifies pm`tree, pm`held, pm.bitmap, pm.refs, pm.ram
    ensures pm.Valid() && pm.held == old(pm.held)
    ensures child == 0 ==> Exhausted(pm.Abs().used) && pm.tree == old(pm.tree)
    ensures child > 0 ==> pm.tree == old(pm.tree)[Child(n, offset) := child]
    ensures Keeps(old(pm.Abs()), old(pm.tree), pm.Abs(), pm.tree, {})
    ensures HeldKept(old(pm.held), old(pm.Abs().ram), pm.Abs().ram)
  {
    hide Sound, Sized, Bitmapped, Counted, Shaped, Exclusive, Linked, Holders, Keeps, HeldKept, Exhausted,
      PhysMem.Valid, PhysMem.Abs, Bitmap.Bits, FrameOf, FlagsOf, Present, TableEntry, SetEntry, Drop, Hold;
    ghost var m, t, h := pm.Abs(), pm.tree, pm.held;
    pm.Soundness();
    KeepsRefl(m, t);
    HeldKeptRefl(h, m.ram);
    child := pm.TryAllocZeroPage();
    if child == 0 { return; }
    ghost var m1 := pm.Abs();
    SoundSizes(m1, t, pm.held, pm.reserved);
    pm.WriteEntry(table, offset, TableEntry(child));
    NewTable(m, t, h, pm.reserved, n, offset, child, m1, pm.Abs().ram, t[Child(n, offset) := child]);
    pm.Own(t[Child(n, offset) := child], h);
  }

  /** The table the entry at `offset` of a table refers to, allocated when absent; 0 when memory is exhausted. */
  method NextTable(pm: PhysMem, table: nat, offset: nat, ghost n: Node) returns (child: nat)
    requires pm.Valid() && n in pm.tree && pm.tree[n] == table && |n.path| < DEPTH - 1 && offset < ENTRIES
    modifies pm`tree, pm`held, pm.bitmap, pm.refs, pm.ram
    ensures pm.Valid() && pm.held == old(pm.held)
    ensures child == 0 ==> Exhausted(pm.Abs().used) && pm.tree == old(pm.tree) && Child(n, offset) !in pm.tree
    ensures child > 0 ==> Child(n, offset) in pm.tree && pm.tree[Child(n, offset)] == child
    ensures child > 0 ==> pm.tree == old(pm.tree) || (Child(n, offset) !in old(pm.tree) && pm.tree == old(pm.tree)[Child(n, offset) := child])
    ensures Keeps(old(pm.Abs()), old(pm.tree), pm.Abs(), pm.tree, {})
    ensures HeldKept(old(pm.held), old(pm.Abs().ram), pm.Abs().ram)
  {
    hide Sound, Sized, Bitmapped, Counted, Shaped, Exclusive, Linked, Holders, Keeps, HeldKept, Exhausted,
      PhysMem.Valid, PhysMem.Abs, Bitmap.Bits, FrameOf, FlagsOf, Present, TableEntry, SetEntry, Drop, Hold;
    ghost var m, t, h := pm.Abs(), pm.tree, pm.held;
    pm.Soundness();
    PresentEntry(m, t, h, pm.reserved, n, offset);
    KeepsRefl(m, t);
    HeldKeptRefl(h, m.ram);
    var e := ReadWord(pm.ram[table], offset);
    if Present(e) {
      child := FrameOf(e);
    } else {
      child := AllocTable(pm, table, offset, n);
    }
  }

  lemma HeldKeptRefl(h: seq<nat>, r: seq<Page>)
    requires |h| == |r|
    ensures HeldKept(h, r, r)
  {
  }

  ghost predicate Rooted(t: Tree, s: nat, root: nat) {
    TableNode(s, 0, 0) in t && t[TableNode(s, 0, 0)] == root
  }

  lemma TableNodes(s: nat, v: nat)
    ensures TableNode(s, v, 0) == TableNode(s, 0, 0)
    ensures forall d :: 0 <= d < DEPTH ==>
      Path(v)[d] < ENTRIES && |TableNode(s, v, d).path| == d && TableNode(s, v, d + 1) == Child(TableNode(s, v, d),
          Path(v)[d])
  {
    assert Path(v)[..1] == Path(v)[..0] + [Path(v)[0]];
    assert Path(v)[..2] == Path(v)[..1] + [Path(v)[1]];
    assert Path(v)[..3] == Path(v)[..2] + [Path(v)[2]];
    assert Path(v)[..4] == Path(v)[..3] + [Path(v)[3]];
  }

  /** A table that is missing hides everything below it. */
  lemma MissingBelow(t: Tree, size: nat, s: nat, v: nat, d: nat)
    requires Shaped(t, size) && d < 3 && TableNode(s, v, d) !in t
    ensures TableNode(s, v, 3) !in t
    decreases 3 - d
  {
    TableNodes(s, v);
    NoOrphans(t, size, TableNode(s, v, d), Path(v)[d]);
    if d < 2 { MissingBelow(t, size, s, v, d + 1); }
  }

  lemma GrownStep(t: Tree, t1: Tree, t2: Tree, s: nat, v: nat, d: nat, f: nat)
    requires d < DEPTH && Grown(t, t1, s, v, d)
    requires t2 == t1 || (TableNode(s, v, d + 1) !in t1 && t2 == t1[TableNode(s, v, d + 1) := f])
    ensures Grown(t, t2, s, v, d + 1)
  {
  }

  lemma GrownRefl(t: Tree, s: nat, v: nat)
    ensures Grown(t, t, s, v, 0)
  {
  }

  lemma Missing(pm: PhysMem, s: nat, v: nat, d: nat)
    requires pm.Valid() && d < 3 && TableNode(s, v, d) !in pm.tree
    ensures TableNode(s, v, 3) !in pm.tree
  {
    MissingBelow(pm.tree, pm.ram.Length, s, v, d);
  }

  lemma GrownDeeper(t: Tree, t': Tree, s: nat, v: nat, d: nat, d': nat)
    requires d <= d' <= DEPTH && Grown(t, t', s, v, d)
    ensures Grown(t, t', s, v, d')
  {
  }

  /** The leaf table of page v, with the missing tables on the way allocated; 0 when memory is exhausted. */
  method Descend(pm: PhysMem, root: nat, v: nat, ghost s: nat) returns (table: nat)
    requires pm.Valid() && Rooted(pm.tree, s, root)
    modifies pm`tree, pm`held, pm.bitmap, pm.refs, pm.ram
    ensures pm.Valid() && pm.held == old(pm.held)
    ensures Grown(old(pm.tree), pm.tree, s, v, 3)
    ensures table == 0 ==> Exhausted(pm.Abs().used) && TableNode(s, v, 3) !in pm.tree
    ensures table > 0 ==> TableNode(s, v, 3) in pm.tree && pm.tree[TableNode(s, v, 3)] == table
    ensures Keeps(old(pm.Abs()), old(pm.tree), pm.Abs(), pm.tree, {})
    ensures HeldKept(old(pm.held), old(pm.Abs().ram), pm.Abs().ram)
  {
    hide Exhausted, Sound, Keeps, Bitmap.Bits, Grown, TableNode;
    ghost var m0, t0 := pm.Abs(), pm.tree;
    TableNodes(s, v);
    GrownRefl(t0, s, v);
    table := NextTable(pm, root, Path(v)[0], TableNode(s, v, 0));
    GrownStep(t0, t0, pm.tree, s, v, 0, table);
    if table == 0 {
      GrownDeeper(t0, pm.tree, s, v, 1, 3);
      Missing(pm, s, v, 1);
      return;
    }
    ghost var m1, t1 := pm.Abs(), pm.tree;
    table := NextTable(pm, table, Path(v)[1], TableNode(s, v, 1));
    KeepsTrans(m0, t0, m1, t1, pm.Abs(), pm.tree, {}, {});
    GrownStep(t0, t1, pm.tree, s, v, 1, table);
    if table == 0 {
      GrownDeeper(t0, pm.tree, s, v, 2, 3);
      Missing(pm, s, v, 2);
      return;
    }
    ghost var m2, t2 := pm.Abs(), pm.tree;
    table := NextTable(pm, table, Path(v)[2], TableNode(s, v, 2));
    KeepsTrans(m0, t0, m2, t2, pm.Abs(), pm.tree, {}, {});
    GrownStep(t0, t2, pm.tree, s, v, 2, table);
  }

  /** Linking the held frame f as page v: one iteration of paging_map_range once the leaf table is there. */
  lemma NewLeaf(m: Mem, t: Tree, h: seq<nat>, reserved: nat, s: nat, v: nat, f: nat, e: Word, ram': seq<Page>, t': Tree)
    requires Sound(m, t, h, reserved) && TableNode(s, v, 3) in t && LeafNode(s, v) !in t
    requires f < |m.ram| == |h| && h[f] > 0 && Present(e) && FrameOf(e) == f && t[TableNode(s, v, 3)] < |m.ram|
    requires ram' == SetEntry(m.ram, t[TableNode(s, v, 3)], v % 512, e) && t' == t[LeafNode(s, v) := f]
    ensures Sound(m.(ram := ram'), t', Drop(h, f), reserved)
    ensures Keeps(m, t, m.(ram := ram'), t', {LeafNode(s, v)}) && HeldKept(h, m.ram, ram')
    ensures Pte(ram', t', s, v) == e
  {
    assert h[t[TableNode(s, v, 3)]] == 0;
    LeafFlat(m, t, h, reserved, TableNode(s, v, 3), v % 512, f, e, ram', t');
    LinkLeafSound(m, t, h, reserved, TableNode(s, v, 3), v % 512, f, e);
    RoomOnLeaf(m, t, LeafNode(s, v), f);
  }

  /** Store the entry of page v, until now absent, into its leaf table. */
  method StoreLeaf(pm: PhysMem, table: nat, v: nat, f: nat, e: Word, ghost s: nat)
    requires pm.Valid() && LeafNode(s, v) !in pm.tree && TableNode(s, v, 3) in pm.tree
    requires pm.tree[TableNode(s, v, 3)] == table
    requires f < |pm.held| && pm.held[f] > 0 && Present(e) && FrameOf(e) == f
    modifies pm`tree, pm`held, pm.ram
    ensures pm.Valid() && pm.tree == old(pm.tree)[LeafNode(s, v) := f] && pm.held == Drop(old(pm.held), f)
    ensures Keeps(old(pm.Abs()), old(pm.tree), pm.Abs(), pm.tree, {LeafNode(s, v)})
    ensures HeldKept(old(pm.held), old(pm.Abs().ram), pm.Abs().ram)
    ensures Pte(pm.ram[..], pm.tree, s, v) == e
  {
    ghost var m, t, h := pm.Abs(), pm.tree, pm.held;
    SoundSizes(m, t, h, pm.reserved);
    hide Exhausted, Sound, Keeps, HeldKept, Bitmap.Bits, Drop;
    pm.ram[table] := WriteWord(pm.ram[table], v % 512, e);
    pm.tree := pm.tree[LeafNode(s, v) := f];
    pm.held := Drop(pm.held, f);
    NewLeaf(m, t, h, pm.reserved, s, v, f, e, pm.ram[..], pm.tree);
    SoundSizes(pm.Abs(), pm.tree, pm.held, pm.reserved);
  }

  /** One iteration of paging_map_range: map the held frame f at page v. */
  method MapPage(pm: PhysMem, root: nat, f: nat, v: nat, ops: nat, ghost s: nat) returns (ok: bool)
    requires pm.Valid() && Rooted(pm.tree, s, root) && LeafNode(s, v) !in pm.tree
    requires f < |pm.held| && pm.held[f] > 0 && f < MAX_FRAME && ops < 4096 && Present(ops)
    modifies pm`tree, pm`held, pm.bitmap, pm.refs, pm.ram
    ensures pm.Valid() && Grown(old(pm.tree), pm.tree, s, v, 4)
    ensures !ok ==> Exhausted(pm.Abs().used) && LeafNode(s, v) !in pm.tree && TableNode(s, v, 3) !in pm.tree && pm.held == old(pm.held)
    ensures ok ==> LeafNode(s, v) in pm.tree && pm.tree[LeafNode(s, v)] == f && pm.held == Drop(old(pm.held), f)
    ensures Keeps(old(pm.Abs()), old(pm.tree), pm.Abs(), pm.tree, {LeafNode(s, v)})
    ensures HeldKept(old(pm.held), old(pm.Abs().ram), pm.Abs().ram)
    ensures ok ==> Pte(pm.Abs().ram, pm.tree, s, v) == MakeEntry(f, ops)
  {
    ghost var m0, t0, h0, r0 := pm.Abs(), pm.tree, pm.held, pm.Abs().ram;
    hide Exhausted, Sound, Keeps, HeldKept, Bitmap.Bits, Grown, LeafNode, TableNode, Pte, MakeEntry, FrameOf, FlagsOf,
      Present, Writable, Cow, Drop;
    LeafPath(s, v);
    var table := Descend(pm, root, v, s);
    ghost var m1, t1, r1 := pm.Abs(), pm.tree, pm.Abs().ram;
    KeepsMore(m0, t0, m1, t1, {}, {LeafNode(s, v)});
    GrownDeeper(t0, t1, s, v, 3, 4);
    GrownLeaf(t0, t1, s, v);
    if table == 0 { return false; }
    StoreLeaf(pm, table, v, f, MakeEntry(f, ops), s);
    KeepsTrans(m0, t0, m1, t1, pm.Abs(), pm.tree, {}, {LeafNode(s, v)});
    HeldKeptTrans(h0, r0, r1, pm.Abs().ram);
    GrownStep(t0, t1, pm.tree, s, v, 3, f);
    ok := true;
  }

  lemma HeldKeptTrans(h: seq<nat>, r: seq<Page>, r': seq<Page>, r'': seq<Page>)
    requires HeldKept(h, r, r') && HeldKept(h, r', r'')
    ensures HeldKept(h, r, r'')
  {
  }

  lemma KeepsMore(m: Mem, t: Tree, m': Mem, t': Tree, x: set<Node>, y: set<Node>)
    requires Keeps(m, t, m', t', x) && x <= y
    ensures Keeps(m, t, m', t', y)
  {
  }

  lemma GrownLeaf(t: Tree, t': Tree, s: nat, v: nat)
    requires Grown(t, t', s, v, 3) && LeafNode(s, v) !in t
    ensures LeafNode(s, v) !in t'
  {
  }

  /** The leaves of pages [v, v + len) of space s. */
  ghost function LeafRange(s: nat, v: nat, len: nat): set<Node> { set w | v <= w < v + len :: LeafNode(s, w) }

  /** Pages [v, v + len) of space s translate to the frames from `start` on, with the flags ops. */
  ghost predicate MappedRun(ram: seq<Page>, t: Tree, s: nat, v: nat, len: nat, start: nat, ops: nat)
    requires start + len <= MAX_FRAME && ops < 4096
  {
    forall w :: v <= w < v + len ==> Pte(ram, t, s, w) == MakeEntry(start + (w - v), ops)
  }

  ghost predicate AbsentRun(t: Tree, s: nat, lo: nat, hi: nat) { forall w :: lo <= w < hi ==> LeafNode(s, w) !in t }

  ghost predicate HeldRun(held: seq<nat>, start: nat, len: nat) {
    start + len <= |held| && forall k :: start <= k < start + len ==> held[k] > 0
  }

  function DropRun(held: seq<nat>, start: nat, len: nat): seq<nat> {
    seq(|held|, k requires 0 <= k < |held| => if start <= k < start + len && held[k] > 0 then held[k] - 1 else held[k])
  }

  /** The progress of paging_map_range after `done` pages. */
  ghost predicate MapProgress(m0: Mem, t0: Tree, h0: seq<nat>, m: Mem, t: Tree, h: seq<nat>,
                              s: nat, root: nat, start: nat, v: nat, len: nat, ops: nat, done: nat)
    requires start + len <= MAX_FRAME && ops < 4096
  {
    && done <= len && Rooted(t, s, root)
    && MappedRun(m.ram, t, s, v, done, start, ops) && AbsentRun(t, s, v + done, v + len)
    && Keeps(m0, t0, m, t, LeafRange(s, v, len))
    && h == DropRun(h0, start, done)
  }

  lemma MapStart(m: Mem, t: Tree, h: seq<nat>, s: nat, root: nat, start: nat, v: nat, len: nat, ops: nat)
    requires start + len <= MAX_FRAME && ops < 4096 && Rooted(t, s, root) && AbsentRun(t, s, v, v + len)
    ensures MapProgress(m, t, h, m, t, h, s, root, start, v, len, ops, 0)
  {
    KeepsRefl(m, t);
    KeepsMore(m, t, m, t, {}, LeafRange(s, v, len));
    assert h == DropRun(h, start, 0);
  }

  lemma MapStep(m0: Mem, t0: Tree, h0: seq<nat>, m1: Mem, t1: Tree, h1: seq<nat>, m2: Mem, t2: Tree, h2: seq<nat>,
                s: nat, root: nat, start: nat, v: nat, len: nat, ops: nat, i: nat, ok: bool)
    requires start + len <= MAX_FRAME && ops < 4096 && v + len <= VPNS && i < len && HeldRun(h0, start, len)
    requires MapProgress(m0, t0, h0, m1, t1, h1, s, root, start, v, len, ops, i)
    requires Keeps(m1, t1, m2, t2, {LeafNode(s, v + i)}) && Grown(t1, t2, s, v + i, 4)
    requires ok ==> start + i < |h1| && h1[start + i] > 0 && h2 == Drop(h1, start + i) && Pte(m2.ram, t2, s, v + i) == MakeEntry(start + i, ops)
    requires !ok ==> h2 == h1 && LeafNode(s, v + i) !in t2
    ensures MapProgress(m0, t0, h0, m2, t2, h2, s, root, start, v, len, ops, if ok then i + 1 else i)
  {
    KeepsMore(m1, t1, m2, t2, {LeafNode(s, v + i)}, LeafRange(s, v, len));
    KeepsTrans(m0, t0, m1, t1, m2, t2, LeafRange(s, v, len), LeafRange(s, v, len));
    MapsStay(m1, t1, m2, t2, s, v, len, i, start, ops, root);
    if ok {
      assert Drop(DropRun(h0, start, i), start + i) == DropRun(h0, start, i + 1);
    }
  }

  /** Map page v + i of the range once the pages before it are mapped. */
  method MapNext(pm: PhysMem, root: nat, start: nat, v: nat, len: nat, ops: nat, i: nat,
                 ghost s: nat, ghost m0: Mem, ghost t0: Tree, ghost h0: seq<nat>) returns (ok: bool)
    requires pm.Valid() && i < len && v + len <= VPNS && start + len <= MAX_FRAME && ops < 4096 && Present(ops)
    requires HeldRun(h0, start, len)
    requires MapProgress(m0, t0, h0, pm.Abs(), pm.tree, pm.held, s, root, start, v, len, ops, i)
    modifies pm`tree, pm`held, pm.bitmap, pm.refs, pm.ram
    ensures pm.Valid() && (!ok ==> Exhausted(pm.Abs().used))
    ensures MapProgress(m0, t0, h0, pm.Abs(), pm.tree, pm.held, s, root, start, v, len, ops, if ok then i + 1 else i)
  {
    hide *;
    ghost var m1, t1, h1 := pm.Abs(), pm.tree, pm.held;
    MapReady(m0, t0, h0, m1, t1, h1, s, root, start, v, len, ops, i);
    ok := MapPage(pm, root, start + i, v + i, ops, s);
    MapStep(m0, t0, h0, m1, t1, h1, pm.Abs(), pm.tree, pm.held, s, root, start, v, len, ops, i, ok);
  }

  /** paging_map_range: map the held frames from `start` at the pages from v on; `done` pages were mapped. */
  method MapRange(pm: PhysMem, root: nat, start: nat, v: nat, len: nat, ops: nat, ghost s: nat) returns (ok: bool,
          ghost done: nat)
    requires pm.Valid() && Rooted(pm.tree, s, root) && AbsentRun(pm.tree, s, v, v + len) && HeldRun(pm.held, start, len)
    requires v + len <= VPNS && start + len <= MAX_FRAME && ops < 4096 && Present(ops)
    modifies pm`tree, pm`held, pm.bitmap, pm.refs, pm.ram
    ensures pm.Valid()
    ensures if ok then done == len else done < len && Exhausted(pm.Abs().used)
    ensures MapProgress(old(pm.Abs()), old(pm.tree), old(pm.held), pm.Abs(), pm.tree, pm.held, s, root, start, v, len,
        ops, done)
  {
    hide *;
    ghost var m0, t0, h0 := pm.Abs(), pm.tree, pm.held;
    MapStart(m0, t0, h0, s, root, start, v, len, ops);
    var i := 0;
    done := 0;
    while i < len
      invariant i == done <= len && pm.Valid()
      invariant MapProgress(m0, t0, h0, pm.Abs(), pm.tree, pm.held, s, root, start, v, len, ops, done)
    {
      ok := MapNext(pm, root, start, v, len, ops, i, s, m0, t0, h0);
      if !ok { return; }
      i, done := i + 1, done + 1;
    }
    ok := true;
  }

  lemma MapReady(m0: Mem, t0: Tree, h0: seq<nat>, m: Mem, t: Tree, h: seq<nat>,
                 s: nat, root: nat, start: nat, v: nat, len: nat, ops: nat, i: nat)
    requires start + len <= MAX_FRAME && ops < 4096 && i < len && HeldRun(h0, start, len)
    requires MapProgress(m0, t0, h0, m, t, h, s, root, start, v, len, ops, i)
    ensures Rooted(t, s, root) && LeafNode(s, v + i) !in t && start + i < |h| && h[start + i] > 0
  {
  }

  /** Mapping page v + i changes neither the translation nor the presence of the other pages of the range. */
  lemma MapsStay(m: Mem, t: Tree, m': Mem, t': Tree, s: nat, v: nat, len: nat, i: nat, start: nat, ops: nat, root: nat)
    requires i < len && v + len <= VPNS && start + i <= MAX_FRAME && ops < 4096
    requires Keeps(m, t, m', t', {LeafNode(s, v + i)}) && Grown(t, t', s, v + i, 4)
    requires MappedRun(m.ram, t, s, v, i, start, ops) && AbsentRun(t, s, v + i, v + len) && Rooted(t, s, root)
    ensures MappedRun(m'.ram, t', s, v, i, start, ops) && AbsentRun(t', s, v + i + 1, v + len) && Rooted(t', s, root)
    ensures LeafNode(s, v + i) !in t' ==> AbsentRun(t', s, v + i, v + len)
  {
    forall w | v <= w < v + len && w != v + i
      ensures Pte(m'.ram, t', s, w) == Pte(m.ram, t, s, w)
      ensures LeafNode(s, w) !in t ==> LeafNode(s, w) !in t'
    {
      if LeafNode(s, w) == LeafNode(s, v + i) { LeafInjective(s, w, s, v + i); }
      LeafPath(s, v + i);
      assert SamePage(m.ram, t, m'.ram, t', s, w);
    }
  }

  /** paging_walk: the leaf table whose entry translates page v, if every table on the way is present. */
  method Walk(pm: PhysMem, root: nat, v: nat, ghost s: nat) returns (found: bool, table: nat)
    requires pm.Valid() && Rooted(pm.tree, s, root)
    ensures found <==> TableNode(s, v, 3) in pm.tree
    ensures found ==> table < pm.ram.Length && table == pm.tree[TableNode(s, v, 3)]
    ensures found ==> ReadWord(pm.ram[table], v % 512) == Pte(pm.ram[..], pm.tree, s, v)
    ensures !found ==> Pte(pm.ram[..], pm.tree, s, v) == 0
  {
    ghost var m, t, h, r := pm.Abs(), pm.tree, pm.held, pm.reserved;
    SoundSizes(m, t, h, r);
    hide Sound, Bitmap.Bits, FrameOf, FlagsOf;
    found, table := false, 0;
    TableNodes(s, v);
    WalkStep(m, t, h, r, s, v, 0);
    var e := ReadWord(pm.ram[root], Path(v)[0]);
    if !Present(e) { return; }
    WalkStep(m, t, h, r, s, v, 1);
    e := ReadWord(pm.ram[FrameOf(e)], Path(v)[1]);
    if !Present(e) { return; }
    WalkStep(m, t, h, r, s, v, 2);
    e := ReadWord(pm.ram[FrameOf(e)], Path(v)[2]);
    if !Present(e) { return; }
    found, table := true, FrameOf(e);
  }

  /** Reading the entry at depth d on the way to page v tells whether the next table exists. */
  lemma WalkStep(m: Mem, t: Tree, h: seq<nat>, reserved: nat, s: nat, v: nat, d: nat)
    requires Sound(m, t, h, reserved) && d < 3 && TableNode(s, v, d) in t
    ensures t[TableNode(s, v, d)] < |m.ram| && Path(v)[d] < ENTRIES
    ensures var e := ReadWord(m.ram[t[TableNode(s, v, d)]], Path(v)[d]);
      && (Present(e) <==> TableNode(s, v, d + 1) in t)
      && (Present(e) ==> FrameOf(e) == t[TableNode(s, v, d + 1)])
      && (!Present(e) ==> TableNode(s, v, 3) !in t)
  {
    TableNodes(s, v);
    PresentEntry(m, t, h, reserved, TableNode(s, v, d), Path(v)[d]);
    if TableNode(s, v, d + 1) !in t && d < 2 { MissingBelow(t, |m.ram|, s, v, d + 1); }
  }

  // ----- copy-on-write faults -----

  /** Page v of space s now has a frame of its own, writable, holding what it held; nothing else changed. */
  ghost predicate CowResolved(m: Mem, t: Tree, m': Mem, t': Tree, held: seq<nat>, s: nat, v: nat) {
    var e, e' := Pte(m.ram, t, s, v), Pte(m'.ram, t', s, v);
    && Cow(e) && Present(e) && LeafNode(s, v) in t
    && e' == ClearCow(e, FrameOf(e'))
    && Content(m'.ram, e') == Content(m.ram, e)
    && t' == t[LeafNode(s, v) := FrameOf(e')]
    && (forall k :: k in t' && t'[k] == FrameOf(e') ==> k == LeafNode(s, v))
    && FrameOf(e') < |held| && held[FrameOf(e')] == 0
    && Undisturbed(m.ram, t, m'.ram, t', {LeafNode(s, v)})
  }

  /** The only reference to f is node n's. */
  lemma SoleHolder(m: Mem, t: Tree, h: seq<nat>, reserved: nat, n: Node)
    requires Sound(m, t, h, reserved) && n in t && t[n] < |m.refs| && m.refs[t[n]] <= 1
    ensures t[n] < |h| && h[t[n]] == 0 && forall k :: k in t && t[k] == t[n] ==> k == n
  {
    var f := t[n];
    RefsBound(m, t, h, reserved, f);
    NamedIsCounted(t, n);
    forall k | k in t && t[k] == f ensures k == n {
      if k != n {
        assert {k, n} <= Holders(t, f);
        SubsetSize({k, n}, Holders(t, f));
      }
    }
  }

  lemma {:induction false} SubsetSize<T>(a: set<T>, b: set<T>)
    requires a <= b
    ensures |a| <= |b|
  {
    assert b == a + (b - a);
  }

  lemma CowInPlace(m: Mem, t: Tree, h: seq<nat>, reserved: nat, s: nat, v: nat, e: Word, ram': seq<Page>)
    requires Sound(m, t, h, reserved) && TableNode(s, v, 3) in t && t[TableNode(s, v, 3)] < |m.ram|
    requires e == Pte(m.ram, t, s, v) && Cow(e)
    requires FrameOf(e) < |m.refs| ==> m.refs[FrameOf(e)] <= 1
    requires ram' == SetEntry(m.ram, t[TableNode(s, v, 3)], v % 512, ClearCow(e, FrameOf(e)))
    ensures Sound(m.(ram := ram'), t, h, reserved) && CowResolved(m, t, m.(ram := ram'), t, h, s, v)
  {
    PteMeaning(m, t, h, reserved, s, v);
    SoundSizes(m, t, h, reserved);
    var n, f, e' := TableNode(s, v, 3), FrameOf(e), ClearCow(e, FrameOf(e));
    CowIsPresent(e);
    SoleHolder(m, t, h, reserved, LeafNode(s, v));
    RewriteLeafSound(m, t, h, reserved, n, v % 512, e');
    assert t == t[LeafNode(s, v) := f];
    LeafFlat(m, t, h, reserved, n, v % 512, f, e', ram', t);
    assert t[n] != f;
  }

  lemma CowCopy(m: Mem, t: Tree, h: seq<nat>, reserved: nat, s: nat, v: nat, e: Word, g: nat, m1: Mem, ram': seq<Page>,
          t': Tree)
    requires Sound(m, t, h, reserved) && TableNode(s, v, 3) in t && t[TableNode(s, v, 3)] < |m.ram|
    requires e == Pte(m.ram, t, s, v) && Cow(e) && FrameOf(e) < |m.ram| && g < |m.used| && !m.used[g] && g < MAX_FRAME
    requires m1 == Fill(Alloc(m, g), g, m.ram[FrameOf(e)])
    requires ram' == SetEntry(m1.ram, t[TableNode(s, v, 3)], v % 512, ClearCow(e, g)) && t' == t[LeafNode(s, v) := g]
    ensures FrameOf(e) < |h| && Sound(m1.(ram := ram'), t', Hold(h, FrameOf(e)), reserved)
    ensures CowResolved(m, t, m1.(ram := ram'), t', h, s, v)
  {
    PteMeaning(m, t, h, reserved, s, v);
    SoundSizes(m, t, h, reserved);
    FreeIsUnnamed(m, t, h, reserved, g);
    var n, f, e', h1 := TableNode(s, v, 3), FrameOf(e), ClearCow(e, g), Hold(h, g);
    CowIsPresent(e);
    AllocSound(m, t, h, reserved, g);
    FillSound(Alloc(m, g), t, h1, reserved, g, m.ram[f]);
    FillUndisturbed(Alloc(m, g), t, h1, reserved, g, m.ram[f], m1.ram);
    SwapLeafSound(m1, t, h1, reserved, n, v % 512, g, e');
    LeafFlat(m1, t, h1, reserved, n, v % 512, g, e', ram', t');
    UndisturbedTrans(m.ram, t, m1.ram, t, ram', t', {}, {LeafNode(s, v)});
    assert {} + {LeafNode(s, v)} == {LeafNode(s, v)};
    assert Exchange(h1, g, f) == Hold(h, f);
  }

  /** The shared branch: copy the page to a frame of its own.  The old frame is released after the
      entry has stopped naming it. */
  method CopyShared(pm: PhysMem, table: nat, v: nat, e: Word, ghost s: nat) returns (ok: bool)
    requires pm.Valid() && TableNode(s, v, 3) in pm.tree && pm.tree[TableNode(s, v, 3)] == table < pm.ram.Length
    requires e == Pte(pm.ram[..], pm.tree, s, v) && Cow(e) && FrameOf(e) < pm.ram.Length
    modifies pm`tree, pm`held, pm.bitmap, pm.refs, pm.ram
    ensures pm.Valid() && pm.held == old(pm.held)
    ensures ok ==> CowResolved(old(pm.Abs()), old(pm.tree), pm.Abs(), pm.tree, pm.held, s, v)
    ensures !ok ==> pm.Abs() == old(pm.Abs()) && pm.tree == old(pm.tree) && Exhausted(pm.Abs().used)
  {
    hide Sound, Sized, Bitmapped, Counted, Shaped, Exclusive, Linked, Holders, CowResolved, Exhausted, Pte, ClearCow,
      FrameOf, FlagsOf, Cow, PhysMem.Valid, PhysMem.Abs, Bitmap.Bits, SetEntry;
    ghost var m, t, h, r := pm.Abs(), pm.tree, pm.held, pm.reserved;
    pm.Soundness();
    SoundSizes(m, t, h, r);
    var old_phys := FrameOf(e);
    var new_phys := pm.TryAllocPage();
    if new_phys == 0 { return false; }
    pm.CopyPage(new_phys, old_phys);
    ghost var m1 := pm.Abs();
    pm.WriteEntry(table, v % 512, ClearCow(e, new_phys));
    CowCopy(m, t, h, r, s, v, e, new_phys, m1, pm.Abs().ram, t[LeafNode(s, v) := new_phys]);
    pm.Own(t[LeafNode(s, v) := new_phys], Hold(h, old_phys));
    FreeNeverFails(pm.Abs(), pm.tree, pm.held, r, old_phys);
    ReleasedAfterCow(m, t, pm.Abs(), pm.tree, h, s, v, old_phys);
    pm.Soundness();
    ok := pm.FreeBlock(old_phys);
  }

  lemma ReleasedAfterCow(m: Mem, t: Tree, m': Mem, t': Tree, held: seq<nat>, s: nat, v: nat, f: nat)
    requires CowResolved(m, t, m', t', held, s, v) && f < |m'.used| == |m'.refs| && m'.refs[f] > 0
    ensures CowResolved(m, t, Release(m', f), t', held, s, v)
  {
  }

  lemma FreeNeverFails(m: Mem, t: Tree, h: seq<nat>, reserved: nat, f: nat)
    requires Sound(m, t, h, reserved) && f < |h| && h[f] > 0
    ensures f < |m.refs| == |m.used| && m.refs[f] > 0
  {
    RefsBound(m, t, h, reserved, f);
  }

  /** paging_resolve_cow_fault. */
  method ResolveCow(pm: PhysMem, root: nat, v: nat, ghost s: nat) returns (ok: bool)
    requires pm.Valid() && Rooted(pm.tree, s, root)
    modifies pm`tree, pm`held, pm.bitmap, pm.refs, pm.ram
    ensures pm.Valid() && pm.held == old(pm.held)
    ensures ok ==> CowResolved(old(pm.Abs()), old(pm.tree), pm.Abs(), pm.tree, pm.held, s, v)
    ensures !ok ==> pm.Abs() == old(pm.Abs()) && pm.tree == old(pm.tree)
    ensures !ok && Cow(Pte(pm.Abs().ram, pm.tree, s, v)) ==> Exhausted(pm.Abs().used)
  {
    ghost var m, t, h, r := pm.Abs(), pm.tree, pm.held, pm.reserved;
    SoundSizes(m, t, h, r);
    PteMeaning(m, t, h, r, s, v);
    CowIsPresent(Pte(m.ram, t, s, v));
    CowIsPresent(0);
    hide Sound, Sized, Bitmapped, Shaped, Exclusive, Linked, CowResolved, Exhausted, Pte, ClearCow, FrameOf, Cow,
      Hold, Drop;
    ok := false;
    var found, table := Walk(pm, root, v, s);
    if !found { return; }
    var e := ReadWord(pm.ram[table], v % 512);
    if !Cow(e) { return; }
    var old_phys := FrameOf(e);
    var count := pm.PageRefcount(old_phys);
    if count > 1 {
      ok := CopyShared(pm, table, v, e, s);
    } else {
      RefsBound(m, t, h, r, old_phys);
      pm.ram[table] := WriteWord(pm.ram[table], v % 512, ClearCow(e, old_phys));
      CowInPlace(m, t, h, r, s, v, e, pm.ram[..]);
      ok := true;
    }
  }

  lemma CowIsPresent(e: Word)
    requires !Present(e) ==> e == 0
    ensures Cow(e) ==> Present(e)
    ensures e == 0 ==> !Cow(e)
  {
  }
}
