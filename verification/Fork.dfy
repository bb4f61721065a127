// Copy-on-write sharing of an address space (vmm_share_block, vmm_share_section).
module Fork {
  import opened Words
  import opened PageTree
  import opened FlatMap
  import opened Pmem
  import opened Paging
  import opened Blocks
  import opened Vmm
  import opened Memory
  import Teardown
  import Bitmap

  /** What sharing leaves of a parent's entry: writable becomes copy-on-write. */
  function SharedEntry(e: Word): Word { if Writable(e) then MarkCow(e) else e }

  /** The child's entry for a parent's entry e. */
  function ChildEntry(e: Word): Word { MakeEntry(FrameOf(e), FlagsOf(SharedEntry(e))) }

  lemma SharedFlags(e: Word)
    requires Present(e) && !(Writable(e) && Cow(e))
    ensures Present(SharedEntry(e)) && FrameOf(SharedEntry(e)) == FrameOf(e) && !Writable(SharedEntry(e))
    ensures Cow(SharedEntry(e)) == (Writable(e) || Cow(e))
    ensures Present(ChildEntry(e)) && FrameOf(ChildEntry(e)) == FrameOf(e) && !Writable(ChildEntry(e))
    ensures Cow(ChildEntry(e)) == (Writable(e) || Cow(e))
  {
  }

  /** Page v of the parent: shared with the child already, or untouched and absent in the child. */
  ghost predicate PageShared(m0: Mem, t0: Tree, m: Mem, t: Tree, src: nat, dst: nat, v: nat, done: bool) {
    var e := Pte(m0.ram, t0, src, v);
    if done && Present(e) then
      && Pte(m.ram, t, src, v) == SharedEntry(e) && Pte(m.ram, t, dst, v) == ChildEntry(e)
      && Content(m.ram, e) == Content(m0.ram, e)
      && LeafNode(src, v) in t0 && LeafNode(dst, v) in t && t[LeafNode(dst, v)] == t0[LeafNode(src, v)]
    else
      && Pte(m.ram, t, src, v) == e && LeafNode(dst, v) !in t
      && (Present(e) ==> Content(m.ram, e) == Content(m0.ram, e))
  }

  /** The tree has grown by a partial copy of the parent's part. */
  ghost predicate Copied(t0: Tree, t: Tree, src: nat, dst: nat) {
    && (forall n :: n in t0 ==> n in t && t[n] == t0[n])
    && (forall n :: n in t && n !in t0 ==> n.space == dst && n.path != [])
    && (forall n :: n in t && n !in t0 ==> Node(src, n.path) in t0 && (!IsTable(n) ==> t[n] == t0[Node(src, n.path)]))
  }

  ghost predicate AllShared(m0: Mem, t0: Tree, m: Mem, t: Tree, src: nat, dst: nat, done: set<nat>) {
    forall v :: 0 <= v < VPNS ==> PageShared(m0, t0, m, t, src, dst, v, v in done)
  }

  ghost predicate OthersSame(m0: Mem, t0: Tree, m: Mem, t: Tree, src: nat, dst: nat) {
    forall s: nat, v: nat :: s != src && s != dst ==> SamePage(m0.ram, t0, m.ram, t, s, v)
  }

  /** The parent's pages in `done` are shared with the child; everything else is as it was. */
  ghost predicate ForkProgress(m0: Mem, t0: Tree, m: Mem, t: Tree, src: nat, dst: nat, done: set<nat>) {
    && AllShared(m0, t0, m, t, src, dst, done)
    && OthersSame(m0, t0, m, t, src, dst)
    && Copied(t0, t, src, dst)
    && Room(m, t) == Room(m0, t0)
  }

  // ----- enough frames, and counts that cannot overflow -----

  /** The tables of space s below its root. */
  function InnerTables(t: Tree, s: nat): set<Node> { set n | n in t && n.space == s && 0 < |n.path| < DEPTH }

  lemma {:induction false} CopiedTables(n: set<Node>, src: nat, base: set<Node>)
    requires forall k :: k in n ==> Node(src, k.path) in base
    requires forall j, k :: j in n && k in n && j.path == k.path ==> j == k
    ensures |n| <= |base|
    decreases |n|
  {
    if n != {} {
      var k :| k in n;
      CopiedTables(n - {k}, src, base - {Node(src, k.path)});
    }
  }

  /** While a table of the child is missing, a frame is free to hold it. */
  lemma FrameLeft(m0: Mem, t0: Tree, m: Mem, t: Tree, src: nat, dst: nat, v: nat)
    requires src != dst && Copied(t0, t, src, dst) && Room(m, t) == Room(m0, t0)
    requires |FreeFrames(m0.used)| >= |InnerTables(t0, src)|
    requires TableNode(src, v, 3) in t0 && TableNode(dst, v, 3) !in t
    ensures !Exhausted(m.used)
  {
    var added := Tables(t) - Tables(t0);
    assert Tables(t) == Tables(t0) + added;
    assert |Tables(t)| == |Tables(t0)| + |added|;
    var missing := TableNode(src, v, 3);
    forall k | k in added ensures Node(src, k.path) in InnerTables(t0, src) - {missing} {
      assert k != TableNode(dst, v, 3);
    }
    CopiedTables(added, src, InnerTables(t0, src) - {missing});
    assert missing in InnerTables(t0, src);
    assert Exhausted(m.used) ==> FreeFrames(m.used) == {};
  }

  lemma {:induction false} OnePerSpace(n: set<Node>, ids: set<nat>)
    requires forall k :: k in n ==> k.space in ids
    requires forall j, k :: j in n && k in n && j.space == k.space ==> j == k
    ensures |n| <= |ids|
    decreases |n|
  {
    if n != {} {
      var k :| k in n;
      OnePerSpace(n - {k}, ids - {k.space});
    }
  }

  /** A frame is referred to at most once by every space. */
  lemma CountBound(m: Mem, t: Tree, held: seq<nat>, reserved: nat, ids: set<nat>, f: nat)
    requires Sound(m, t, held, reserved) && Aligned(t) && Owned(t, ids) && f < |m.refs| && held[f] == 0
    ensures m.refs[f] <= |ids|
  {
    RefsBound(m, t, held, reserved, f);
    forall j, k | j in Holders(t, f) && k in Holders(t, f) && j.space == k.space ensures j == k {
      assert j.path == k.path;
    }
    OnePerSpace(Holders(t, f), ids);
  }

  // ----- sharing one page -----

  /** The parent's entry e, marked if it was writable. */
  function Marked(ram: seq<Page>, table: nat, v: nat, e: Word): (r: seq<Page>)
    requires table < |ram|
    ensures |r| == |ram|
  {
    if Writable(e) then SetEntry(ram, table, v % 512, MarkCow(e)) else ram
  }

  lemma MarkStep(m: Mem, t: Tree, h: seq<nat>, reserved: nat, src: nat, v: nat, e: Word, ram': seq<Page>)
    requires Sound(m, t, h, reserved) && e == Pte(m.ram, t, src, v) && Present(e) && !(Writable(e) && Cow(e))
    requires TableNode(src, v, 3) in t && t[TableNode(src, v, 3)] < |m.ram|
    requires ram' == Marked(m.ram, t[TableNode(src, v, 3)], v, e)
    ensures Sound(m.(ram := ram'), t, h, reserved)
    ensures Undisturbed(m.ram, t, ram', t, {LeafNode(src, v)})
    ensures Pte(ram', t, src, v) == SharedEntry(e) && Content(ram', e) == Content(m.ram, e)
  {
    var n := TableNode(src, v, 3);
    PteMeaning(m, t, h, reserved, src, v);
    if Writable(e) {
      RewriteLeafSound(m, t, h, reserved, n, v % 512, MarkCow(e));
      assert t == t[LeafNode(src, v) := FrameOf(e)];
      LeafFlat(m, t, h, reserved, n, v % 512, FrameOf(e), MarkCow(e), ram', t);
      assert FrameOf(e) != t[n];
    }
  }

  /** The two page tables after one page is shared: the parent's page v is marked, the child's mapped. */
  ghost predicate OneShared(m: Mem, t: Tree, m': Mem, t': Tree, src: nat, dst: nat, v: nat) {
    var e := Pte(m.ram, t, src, v);
    && Undisturbed(m.ram, t, m'.ram, t', {LeafNode(src, v), LeafNode(dst, v)})
    && Pte(m'.ram, t', src, v) == SharedEntry(e) && Pte(m'.ram, t', dst, v) == ChildEntry(e)
    && Content(m'.ram, e) == Content(m.ram, e)
    && Grown(t, t', dst, v, 4) && LeafNode(dst, v) in t' && t'[LeafNode(dst, v)] == FrameOf(e)
    && Room(m', t') == Room(m, t)
  }

  lemma MappedStep(m: Mem, t: Tree, m1: Mem, m2: Mem, t2: Tree, src: nat, dst: nat, v: nat, e: Word)
    requires e == Pte(m.ram, t, src, v) && Present(e) && !(Writable(e) && Cow(e)) && src != dst
    requires Undisturbed(m.ram, t, m1.ram, t, {LeafNode(src, v)}) && m1.used == m.used
    requires Pte(m1.ram, t, src, v) == SharedEntry(e) && Content(m1.ram, e) == Content(m.ram, e)
    requires Keeps(m1, t, m2, t2, {LeafNode(dst, v)}) && Grown(t, t2, dst, v, 4) && LeafNode(dst, v) in t2
    requires t2[LeafNode(dst, v)] == FrameOf(e) && Pte(m2.ram, t2, dst, v) == ChildEntry(e)
    ensures OneShared(m, t, m2, t2, src, dst, v)
  {
    SharedFlags(e);
    UndisturbedTrans(m.ram, t, m1.ram, t, m2.ram, t2, {LeafNode(src, v)}, {LeafNode(dst, v)});
    assert {LeafNode(src, v)} + {LeafNode(dst, v)} == {LeafNode(src, v), LeafNode(dst, v)};
    assert LeafNode(src, v) != LeafNode(dst, v);
    assert SamePage(m1.ram, t, m2.ram, t2, src, v);
  }

  lemma OtherPageShared(m0: Mem, t0: Tree, m: Mem, t: Tree, m': Mem, t': Tree, src: nat, dst: nat, v: nat, w: nat,
          done: bool)
    requires v < VPNS && w < VPNS && v != w && src != dst
    requires OneShared(m, t, m', t', src, dst, v) && PageShared(m0, t0, m, t, src, dst, w, done)
    ensures PageShared(m0, t0, m', t', src, dst, w, done)
  {
    if LeafNode(src, w) == LeafNode(src, v) { LeafInjective(src, w, src, v); }
    if LeafNode(dst, w) == LeafNode(dst, v) { LeafInjective(dst, w, dst, v); }
    assert SamePage(m.ram, t, m'.ram, t', src, w) && SamePage(m.ram, t, m'.ram, t', dst, w);
    LeafPath(dst, v);
    var e := Pte(m0.ram, t0, src, w);
    if Present(e) && Writable(e) { SharedOf(e); }
  }

  lemma SharedOf(e: Word)
    requires Writable(e)
    ensures Content([], SharedEntry(e)) == Content([], e) && FrameOf(SharedEntry(e)) == FrameOf(e)
    ensures Present(SharedEntry(e)) == Present(e)
  {
  }

  lemma CopiedStep(t0: Tree, t: Tree, t': Tree, size: nat, src: nat, dst: nat, v: nat, f: nat)
    requires Copied(t0, t, src, dst) && Grown(t, t', dst, v, 4) && Shaped(t0, size)
    requires LeafNode(src, v) in t0 && t0[LeafNode(src, v)] == f && LeafNode(dst, v) in t' && t'[LeafNode(dst, v)] == f
    requires TableNode(dst, 0, 0) in t && src != dst
    ensures Copied(t0, t', src, dst)
  {
    LeafPath(src, v);
    LeafPath(dst, v);
    TableNodes(dst, v);
    forall n | n in t' && n !in t
      ensures n.space == dst && n.path != [] && Node(src, n.path) in t0
      ensures (!IsTable(n) ==> t'[n] == t0[Node(src, n.path)])
    {
      Teardown.AncestorsIn(t0, size, LeafNode(src, v), |n.path|);
      assert Node(src, n.path) == TableNode(src, v, |n.path|);
    }
  }

  lemma AllSharedStep(m0: Mem, t0: Tree, m: Mem, t: Tree, m': Mem, t': Tree, src: nat, dst: nat, v: nat, done: set<nat>)
    requires src != dst && v < VPNS && v !in done && LeafNode(src, v) in t0
    requires Present(Pte(m0.ram, t0, src, v)) && FrameOf(Pte(m0.ram, t0, src, v)) == t0[LeafNode(src, v)]
    requires AllShared(m0, t0, m, t, src, dst, done) && OneShared(m, t, m', t', src, dst, v)
    ensures AllShared(m0, t0, m', t', src, dst, done + {v})
  {
    assert PageShared(m0, t0, m, t, src, dst, v, false);
    assert PageShared(m0, t0, m', t', src, dst, v, true);
    forall w | 0 <= w < VPNS ensures PageShared(m0, t0, m', t', src, dst, w, w in done + {v}) {
      if w != v {
        OtherPageShared(m0, t0, m, t, m', t', src, dst, v, w, w in done);
      }
    }
  }

  lemma OthersSameStep(m0: Mem, t0: Tree, m: Mem, t: Tree, m': Mem, t': Tree, src: nat, dst: nat, v: nat)
    requires OthersSame(m0, t0, m, t, src, dst) && OneShared(m, t, m', t', src, dst, v)
    ensures OthersSame(m0, t0, m', t', src, dst)
  {
    forall s: nat, w: nat | s != src && s != dst ensures SamePage(m0.ram, t0, m'.ram, t', s, w) {
      assert SamePage(m0.ram, t0, m.ram, t, s, w) && SamePage(m.ram, t, m'.ram, t', s, w);
    }
  }

  lemma SourcePage(m0: Mem, t0: Tree, h0: seq<nat>, reserved: nat, m: Mem, t: Tree, src: nat, dst: nat, v: nat,
          done: set<nat>)
    requires Sound(m0, t0, h0, reserved) && v < VPNS && v !in done && AllShared(m0, t0, m, t, src, dst, done)
    ensures Pte(m.ram, t, src, v) == Pte(m0.ram, t0, src, v) && LeafNode(dst, v) !in t && Shaped(t0, |m0.ram|)
    ensures Present(Pte(m.ram, t, src, v)) ==>
      LeafNode(src, v) in t0 && FrameOf(Pte(m0.ram, t0, src, v)) == t0[LeafNode(src, v)]
  {
    PteMeaning(m0, t0, h0, reserved, src, v);
    assert PageShared(m0, t0, m, t, src, dst, v, false);
  }

  /** Sharing page v extends the progress by v. */
  lemma ShareStep(m0: Mem, t0: Tree, h0: seq<nat>, reserved: nat, m: Mem, t: Tree, m': Mem, t': Tree, src: nat,
          dst: nat, v: nat, done: set<nat>)
    requires Sound(m0, t0, h0, reserved) && src != dst && v < VPNS && v !in done && TableNode(dst, 0, 0) in t
    requires ForkProgress(m0, t0, m, t, src, dst, done) && Present(Pte(m.ram, t, src, v))
    requires OneShared(m, t, m', t', src, dst, v)
    ensures ForkProgress(m0, t0, m', t', src, dst, done + {v})
  {
    hide Sound, Sized, Bitmapped, Counted, Shaped, Exclusive, Linked, Holders, AllShared, OthersSame, Copied, Grown,
      Undisturbed, Pte, Present, FrameOf, LeafNode, TableNode, Content, PageShared;
    SourcePage(m0, t0, h0, reserved, m, t, src, dst, v, done);
    CopiedStep(t0, t, t', |m0.ram|, src, dst, v, FrameOf(Pte(m.ram, t, src, v)));
    AllSharedStep(m0, t0, m, t, m', t', src, dst, v, done);
    OthersSameStep(m0, t0, m, t, m', t', src, dst, v);
  }

  /** An absent page is shared by leaving it absent. */
  lemma AbsentStep(m0: Mem, t0: Tree, m: Mem, t: Tree, src: nat, dst: nat, v: nat, done: set<nat>)
    requires v < VPNS && v !in done && ForkProgress(m0, t0, m, t, src, dst, done) && !Present(Pte(m.ram, t, src, v))
    ensures ForkProgress(m0, t0, m, t, src, dst, done + {v})
  {
    assert PageShared(m0, t0, m, t, src, dst, v, false);
    forall w | 0 <= w < VPNS ensures PageShared(m0, t0, m, t, src, dst, w, w in done + {v}) {
      assert PageShared(m0, t0, m, t, src, dst, w, w in done);
    }
  }

  // ----- vmm_share_block and vmm_share_section -----

  /** What fork starts from: a parent in order, a child with an empty root table, few enough spaces for the
      counts, and a free frame for every table the child may need. */
  ghost predicate ForkReady(m0: Mem, t0: Tree, h0: seq<nat>, reserved: nat, sp: Space, dst: nat, ids: set<nat>) {
    && Sound(m0, t0, h0, reserved) && SpaceOk(m0, t0, h0, sp) && sp.id != dst
    && Aligned(t0) && Owned(t0, ids) && dst in ids && |ids| < MAX_REFS
    && TableNode(dst, 0, 0) in t0 && (forall n :: n in t0 && n.space == dst ==> n == TableNode(dst, 0, 0))
    && |FreeFrames(m0.used)| >= |InnerTables(t0, sp.id)|
  }

  lemma CopiedAligned(m: Mem, t0: Tree, t: Tree, held: seq<nat>, reserved: nat, src: nat, dst: nat, ids: set<nat>)
    requires Copied(t0, t, src, dst) && Aligned(t0) && Owned(t0, ids) && dst in ids && Sound(m, t, held, reserved)
    ensures Aligned(t) && Owned(t, ids)
  {
    forall k, n | k in t && n in t && t[k] == t[n] ensures k.path == n.path {
      if IsTable(k) || IsTable(n) {
        assert NodeOk(t, k, |held|) && NodeOk(t, n, |held|);
        assert k == n;
      } else {
        var k0, n0 := if k in t0 then k else Node(src, k.path), if n in t0 then n else Node(src, n.path);
        assert t0[k0] == t0[n0];
      }
    }
  }

  /** The parent's present page v can be retained and mapped: nothing on the way can fail. */
  lemma ShareCannotFail(m0: Mem, t0: Tree, h0: seq<nat>, reserved: nat, sp: Space, dst: nat, ids: set<nat>, m: Mem,
          t: Tree, v: nat, done: set<nat>)
    requires ForkReady(m0, t0, h0, reserved, sp, dst, ids) && Sound(m, t, h0, reserved) && v < VPNS && v !in done
    requires ForkProgress(m0, t0, m, t, sp.id, dst, done) && Present(Pte(m.ram, t, sp.id, v))
    ensures var e := Pte(m.ram, t, sp.id, v);
      && !(Writable(e) && Cow(e)) && FrameOf(e) < |m.refs| == |h0| && 0 < m.refs[FrameOf(e)] < MAX_REFS
      && (forall n :: n in t && IsTable(n) ==> t[n] != FrameOf(e))
    ensures LeafNode(dst, v) !in t && TableNode(sp.id, v, 3) in t0 && TableNode(sp.id, v, 3) in t
  {
    var e := Pte(m.ram, t, sp.id, v);
    SourcePage(m0, t0, h0, reserved, m, t, sp.id, dst, v, done);
    assert PageOk(m0, t0, h0, sp, v);
    PteMeaning(m, t, h0, reserved, sp.id, v);
    PteMeaning(m0, t0, h0, reserved, sp.id, v);
    CopiedAligned(m, t0, t, h0, reserved, sp.id, dst, ids);
    CountBound(m, t, h0, reserved, ids, FrameOf(e));
    NamedIsCounted(t, LeafNode(sp.id, v));
    RefsBound(m, t, h0, reserved, FrameOf(e));
  }

  /** Mark the parent's entry copy-on-write if it is writable, and take a reference for the child. */
  method MarkAndRetain(pm: PhysMem, table: nat, v: nat, e: Word, ghost src: nat) returns (ok: bool)
    requires pm.Valid() && TableNode(src, v, 3) in pm.tree && pm.tree[TableNode(src, v, 3)] == table < pm.ram.Length
    requires e == Pte(pm.Abs().ram, pm.tree, src, v) && Present(e) && !(Writable(e) && Cow(e))
    requires FrameOf(e) < |pm.held| == |pm.Abs().refs| && 0 < pm.Abs().refs[FrameOf(e)] < MAX_REFS
    requires forall n :: n in pm.tree && IsTable(n) ==> pm.tree[n] != FrameOf(e)
    modifies pm`tree, pm`held, pm.refs, pm.ram
    ensures pm.Valid() && ok && pm.tree == old(pm.tree) && pm.held == Hold(old(pm.held), FrameOf(e))
    ensures pm.Abs().used == old(pm.Abs().used)
    ensures Undisturbed(old(pm.Abs().ram), pm.tree, pm.Abs().ram, pm.tree, {LeafNode(src, v)})
    ensures Pte(pm.Abs().ram, pm.tree, src, v) == SharedEntry(e)
    ensures Content(pm.Abs().ram, e) == Content(old(pm.Abs().ram), e)
  {
    hide Sound, Sized, Bitmapped, Counted, Shaped, Exclusive, Linked, Holders, Undisturbed, Pte, Present, FrameOf,
      LeafNode, TableNode, Content, Cow, Writable, FlagsOf, MarkCow, SharedEntry, SetEntry, PhysMem.Valid, PhysMem.Abs,
      Bitmap.Bits, Hold, Drop;
    ghost var m, t, h, r := pm.Abs(), pm.tree, pm.held, pm.reserved;
    pm.Soundness();
    if Writable(e) {
      pm.WriteEntry(table, v % 512, MarkCow(e));
    }
    MarkStep(m, t, h, r, src, v, e, Marked(m.ram, table, v, e));
    pm.Own(t, h);
    pm.Soundness();
    ok := pm.RetainPage(FrameOf(e));
  }

  /** The state of a fork between two pages. */
  ghost predicate Forking(m0: Mem, t0: Tree, h0: seq<nat>, m: Mem, t: Tree, h: seq<nat>, reserved: nat,
                          sp: Space, dst: nat, ids: set<nat>, done: set<nat>) {
    && ForkReady(m0, t0, h0, reserved, sp, dst, ids) && ForkProgress(m0, t0, m, t, sp.id, dst, done)
    && Sound(m, t, h, reserved) && h == h0
  }

  lemma ForkRoots(m0: Mem, t0: Tree, h0: seq<nat>, m: Mem, t: Tree, h: seq<nat>, reserved: nat, sp: Space, dst: nat,
          ids: set<nat>, done: set<nat>)
    requires Forking(m0, t0, h0, m, t, h, reserved, sp, dst, ids, done)
    ensures Rooted(t, sp.id, sp.root) && Rooted(t, dst, t0[TableNode(dst, 0, 0)]) && TableNode(dst, 0, 0) in t0
  {
  }

  /** A mapping that stopped half-way has copied tables only. */
  lemma PartialCopy(t0: Tree, size: nat, t: Tree, t2: Tree, src: nat, dst: nat, v: nat)
    requires Shaped(t0, size) && Copied(t0, t, src, dst) && LeafNode(src, v) in t0 && TableNode(dst, 0, 0) in t
    requires Grown(t, t2, dst, v, 4) && LeafNode(dst, v) !in t2
    ensures Copied(t0, t2, src, dst)
  {
    LeafPath(dst, v);
    LeafPath(src, v);
    TableNodes(dst, v);
    forall n | n in t2 && n !in t
      ensures n.space == dst && n.path != [] && Node(src, n.path) in t0 && IsTable(n)
    {
      Teardown.AncestorsIn(t0, size, LeafNode(src, v), |n.path|);
      assert Node(src, n.path) == TableNode(src, v, |n.path|);
    }
  }

  /** Mapping the child's page cannot run out of frames. */
  lemma MapCannotFail(m0: Mem, t0: Tree, h0: seq<nat>, reserved: nat, sp: Space, dst: nat, ids: set<nat>, m: Mem,
          t: Tree, v: nat, done: set<nat>,
                      m1: Mem, m2: Mem, t2: Tree)
    requires ForkReady(m0, t0, h0, reserved, sp, dst, ids) && ForkProgress(m0, t0, m, t, sp.id, dst, done)
    requires TableNode(sp.id, v, 3) in t0 && LeafNode(sp.id, v) in t0 && m1.used == m.used
    requires Keeps(m1, t, m2, t2, {LeafNode(dst, v)}) && Grown(t, t2, dst, v, 4) && LeafNode(dst, v) !in t2
    requires TableNode(dst, v, 3) !in t2
    ensures !Exhausted(m2.used)
  {
    assert TableNode(dst, 0, 0) in t;
    hide Sized, Bitmapped, Counted, Shaped, Exclusive, Linked, Holders, SpaceOk, Aligned, Owned, AllShared,
      OthersSame, Copied, Grown, Undisturbed;
    PartialCopy(t0, |m0.ram|, t, t2, sp.id, dst, v);
    FrameLeft(m0, t0, m2, t2, sp.id, dst, v);
  }

  /** One page of vmm_share_block: true when the page was present and is shared now. */
  method SharePage(pm: PhysMem, srcRoot: nat, dstRoot: nat, v: nat, ghost m0: Mem, ghost t0: Tree, ghost h0: seq<nat>,
                   ghost sp: Space, ghost dst: nat, ghost ids: set<nat>, ghost done: set<nat>) returns (ok: bool, shared: bool)
    requires pm.Valid() && Forking(m0, t0, h0, pm.Abs(), pm.tree, pm.held, pm.reserved, sp, dst, ids, done)
    requires v < VPNS && v !in done && srcRoot == sp.root && Rooted(pm.tree, dst, dstRoot)
    modifies pm`tree, pm`held, pm.bitmap, pm.refs, pm.ram
    ensures pm.Valid() && ok && Forking(m0, t0, h0, pm.Abs(), pm.tree, pm.held, pm.reserved, sp, dst, ids, done + {v})
    ensures Leaves(pm.tree, dst) == Leaves(old(pm.tree), dst) + (if shared then {LeafNode(dst, v)} else {})
    ensures LeafNode(dst, v) !in old(pm.tree) && Rooted(pm.tree, dst, dstRoot)
  {
    hide Sound, Sized, Bitmapped, Counted, Shaped, Exclusive, Linked, Holders, Undisturbed, Pte, Present, FrameOf,
      LeafNode, TableNode, Content, Cow, Writable, FlagsOf, MarkCow, SetEntry, PhysMem.Valid, PhysMem.Abs, Bitmap.Bits,
      Hold, Drop, ForkReady, ForkProgress, OneShared, Keeps, HeldKept, Grown, Exhausted, Leaves, MakeEntry;
    ghost var m, t, h, r := pm.Abs(), pm.tree, pm.held, pm.reserved;
    pm.Soundness();
    ForkRoots(m0, t0, h0, m, t, h, r, sp, dst, ids, done);
    SourceAbsent(m0, t0, h0, m, t, h, r, sp, dst, ids, v, done);
    ok, shared := true, false;
    var found, table := Walk(pm, srcRoot, v, sp.id);
    NotPresent(Pte(m.ram, t, sp.id, v));
    assert Leaves(t, dst) + {} == Leaves(t, dst);
    if !found || !Present(ReadWord(pm.ram[table], v % 512)) {
      ForkingAbsent(m0, t0, h0, m, t, h, r, sp, dst, ids, v, done);
      return;
    }
    var e := ReadWord(pm.ram[table], v % 512);
    ShareCannotFail(m0, t0, h0, r, sp, dst, ids, m, t, v, done);
    ok := MarkAndRetain(pm, table, v, e, sp.id);
    ghost var m1 := pm.Abs();
    var flags := if Writable(e) then FlagsOf(MarkCow(e)) else FlagsOf(e);
    SharedFlags(e);
    FlagsPresent(SharedEntry(e));
    assert flags == FlagsOf(SharedEntry(e));
    ok := MapPage(pm, dstRoot, FrameOf(e), v, flags, dst);
    pm.Soundness();
    if !ok {
      MapCannotFail(m0, t0, h0, r, sp, dst, ids, m, t, v, done, m1, pm.Abs(), pm.tree);
      assert false;
    }
    shared := true;
    MappedStep(m, t, m1, pm.Abs(), pm.tree, sp.id, dst, v, e);
    ForkingShared(m0, t0, h0, m, t, r, sp, dst, ids, v, done, pm.Abs(), pm.tree, pm.held);
    SharedLeaves(t, pm.tree, dst, v);
  }

  lemma ForkingAbsent(m0: Mem, t0: Tree, h0: seq<nat>, m: Mem, t: Tree, h: seq<nat>, reserved: nat,
                      sp: Space, dst: nat, ids: set<nat>, v: nat, done: set<nat>)
    requires Forking(m0, t0, h0, m, t, h, reserved, sp, dst, ids, done) && v < VPNS && v !in done
    requires !Present(Pte(m.ram, t, sp.id, v))
    ensures Forking(m0, t0, h0, m, t, h, reserved, sp, dst, ids, done + {v})
  {
    AbsentStep(m0, t0, m, t, sp.id, dst, v, done);
  }

  lemma ForkingShared(m0: Mem, t0: Tree, h0: seq<nat>, m: Mem, t: Tree, reserved: nat, sp: Space, dst: nat,
          ids: set<nat>, v: nat, done: set<nat>,
                      m': Mem, t': Tree, h': seq<nat>)
    requires Forking(m0, t0, h0, m, t, h0, reserved, sp, dst, ids, done) && v < VPNS && v !in done
    requires Present(Pte(m.ram, t, sp.id, v)) && OneShared(m, t, m', t', sp.id, dst, v) && Sound(m', t', h', reserved)
    requires h' == h0
    ensures Forking(m0, t0, h0, m', t', h', reserved, sp, dst, ids, done + {v})
    ensures Rooted(t', dst, t0[TableNode(dst, 0, 0)])
  {
    hide Sound, Sized, Bitmapped, Counted, Shaped, Exclusive, Linked, Holders;
    ShareStep(m0, t0, h0, reserved, m, t, m', t', sp.id, dst, v, done);
  }

  lemma SharedLeaves(t: Tree, t': Tree, dst: nat, v: nat)
    requires Grown(t, t', dst, v, 4) && LeafNode(dst, v) in t'
    ensures Leaves(t', dst) == Leaves(t, dst) + {LeafNode(dst, v)}
  {
    LeafPath(dst, v);
  }

  lemma FlagsPresent(e: Word)
    ensures FlagsOf(e) < 4096 && Present(FlagsOf(e)) == Present(e)
  {
  }

  lemma NotPresent(e: Word)
    ensures e == 0 ==> !Present(e)
  {
  }

  lemma SourceAbsent(m0: Mem, t0: Tree, h0: seq<nat>, m: Mem, t: Tree, h: seq<nat>, reserved: nat,
                     sp: Space, dst: nat, ids: set<nat>, v: nat, done: set<nat>)
    requires Forking(m0, t0, h0, m, t, h, reserved, sp, dst, ids, done) && v < VPNS && v !in done
    ensures LeafNode(dst, v) !in t && Sound(m0, t0, h0, reserved) && sp.id != dst
    ensures Present(Pte(m.ram, t, sp.id, v)) ==> LeafNode(sp.id, v) in t0
  {
    SourcePage(m0, t0, h0, reserved, m, t, sp.id, dst, v, done);
  }

  // ----- whole blocks -----

  function First(b: Block): nat { b.vaddr / PAGE_SIZE }

  /** The page numbers [lo, lo + n). */
  function Pages(lo: nat, n: nat): set<nat> { if n == 0 then {} else Pages(lo, n - 1) + {lo + n - 1} }

  lemma {:induction false} InPages(lo: nat, n: nat, v: nat)
    ensures v in Pages(lo, n) <==> lo <= v < lo + n
  {
    if n > 0 { InPages(lo, n - 1, v); }
  }

  function PagesOf(b: Block): set<nat> { Pages(First(b), b.size) }

  function PagesOfAll(bs: seq<Block>): set<nat> {
    if bs == [] then {} else PagesOfAll(bs[..|bs| - 1]) + PagesOf(bs[|bs| - 1])
  }

  lemma {:induction false} InPagesOfAll(bs: seq<Block>, v: nat)
    ensures v in PagesOfAll(bs) <==> exists b :: b in bs && v in PagesOf(b)
  {
    if bs != [] {
      InPagesOfAll(bs[..|bs| - 1], v);
      assert bs == bs[..|bs| - 1] + [bs[|bs| - 1]];
    }
  }

  lemma InBlock(b: Block, file: Option<seq<Byte>>, v: nat)
    requires BlockFits(b, file)
    ensures v in PagesOf(b) <==> Contains(b, v * PAGE_SIZE)
    ensures BlockOk(b, file) && v in PagesOf(b) ==> v < VPNS
  {
    InPages(First(b), b.size, v);
    assert b.vaddr == First(b) * PAGE_SIZE;
    assert End(b) == (First(b) + b.size) * PAGE_SIZE;
  }

  /** The next block of the list meets none of the blocks before it. */
  lemma NextIsApart(bs: seq<Block>, file: Option<seq<Byte>>, i: nat)
    requires BlocksOk(bs, file) && i < |bs|
    ensures PagesOf(bs[i]) !! PagesOfAll(bs[..i])
  {
    forall v | v in PagesOf(bs[i]) ensures v !in PagesOfAll(bs[..i]) {
      InPagesOfAll(bs[..i], v);
      InBlock(bs[i], file, v);
      if b :| b in bs[..i] && v in PagesOf(b) {
        var j :| 0 <= j < i && bs[j] == b;
        InBlock(b, file, v);
        assert false;
      }
    }
  }

  /** Pages of b up to its i-th are shared, after those in `done`. */
  ghost predicate InBlockShared(m0: Mem, t0: Tree, h0: seq<nat>, m: Mem, t: Tree, h: seq<nat>, reserved: nat,
                                sp: Space, dst: nat, ids: set<nat>, done: set<nat>, b: Block, i: nat) {
    && PagesOf(b) !! done && BlockOk(b, sp.file) && i <= b.size
    && Forking(m0, t0, h0, m, t, h, reserved, sp, dst, ids, done + Pages(First(b), i))
  }

  lemma BlockStart(m: Mem, t: Tree, m0: Mem, t0: Tree, h0: seq<nat>, h: seq<nat>, reserved: nat,
                   sp: Space, dst: nat, ids: set<nat>, done: set<nat>, b: Block)
    requires Forking(m0, t0, h0, m, t, h, reserved, sp, dst, ids, done) && PagesOf(b) !! done && BlockOk(b, sp.file)
    ensures InBlockShared(m0, t0, h0, m, t, h, reserved, sp, dst, ids, done, b, 0)
  {
    assert done + Pages(First(b), 0) == done;
  }

  lemma BlockEnd(m: Mem, t: Tree, m0: Mem, t0: Tree, h0: seq<nat>, h: seq<nat>, reserved: nat,
                 sp: Space, dst: nat, ids: set<nat>, done: set<nat>, b: Block)
    requires InBlockShared(m0, t0, h0, m, t, h, reserved, sp, dst, ids, done, b, b.size)
    ensures Forking(m0, t0, h0, m, t, h, reserved, sp, dst, ids, done + PagesOf(b))
  {
  }

  lemma BlockNext(done: set<nat>, b: Block, file: Option<seq<Byte>>, i: nat)
    requires PagesOf(b) !! done && BlockOk(b, file) && i < b.size
    ensures First(b) + i < VPNS && First(b) + i !in done + Pages(First(b), i)
    ensures done + Pages(First(b), i) + {First(b) + i} == done + Pages(First(b), i + 1)
  {
    InPages(First(b), b.size, First(b) + i);
    InPages(First(b), i, First(b) + i);
    InBlock(b, file, First(b) + i);
  }

  lemma OneMoreLeaf(t: Tree, t': Tree, dst: nat, v: nat, shared: bool)
    requires Leaves(t', dst) == Leaves(t, dst) + (if shared then {LeafNode(dst, v)} else {}) && LeafNode(dst, v) !in t
    ensures |Leaves(t', dst)| == |Leaves(t, dst)| + (if shared then 1 else 0)
  {
    if !shared { assert Leaves(t', dst) == Leaves(t, dst); }
  }

  /** One turn of vmm_share_block's loop. */
  method ShareNext(pm: PhysMem, srcRoot: nat, dstRoot: nat, b: Block, i: nat, ghost m0: Mem, ghost t0: Tree,
          ghost h0: seq<nat>,
                   ghost sp: Space, ghost dst: nat, ghost ids: set<nat>, ghost done: set<nat>) returns (shared: bool)
    requires pm.Valid() && i < b.size && srcRoot == sp.root && Rooted(pm.tree, dst, dstRoot)
    requires InBlockShared(m0, t0, h0, pm.Abs(), pm.tree, pm.held, pm.reserved, sp, dst, ids, done, b, i)
    modifies pm`tree, pm`held, pm.bitmap, pm.refs, pm.ram
    ensures pm.Valid() && Rooted(pm.tree, dst, dstRoot)
    ensures InBlockShared(m0, t0, h0, pm.Abs(), pm.tree, pm.held, pm.reserved, sp, dst, ids, done, b, i + 1)
    ensures |Leaves(pm.tree, dst)| == |Leaves(old(pm.tree), dst)| + (if shared then 1 else 0)
  {
    hide PhysMem.Valid, PhysMem.Abs, Forking, Rooted, Leaves, BlockOk, PagesOf;
    ghost var t, d := pm.tree, done + Pages(First(b), i);
    BlockNext(done, b, sp.file, i);
    var ok;
    ok, shared := SharePage(pm, srcRoot, dstRoot, First(b) + i, m0, t0, h0, sp, dst, ids, d);
    OneMoreLeaf(t, pm.tree, dst, First(b) + i, shared);
  }

  /** vmm_share_block's loop; false where a block without demand filling lacks a page. */
  method SharePages(pm: PhysMem, srcRoot: nat, dstRoot: nat, b: Block, ghost m0: Mem, ghost t0: Tree,
          ghost h0: seq<nat>,
                    ghost sp: Space, ghost dst: nat, ghost ids: set<nat>, ghost done: set<nat>) returns (ok: bool, shared_pages: nat)
    requires pm.Valid() && srcRoot == sp.root && Rooted(pm.tree, dst, dstRoot) && b.demand
    requires InBlockShared(m0, t0, h0, pm.Abs(), pm.tree, pm.held, pm.reserved, sp, dst, ids, done, b, 0)
    modifies pm`tree, pm`held, pm.bitmap, pm.refs, pm.ram
    ensures pm.Valid() && ok && Rooted(pm.tree, dst, dstRoot)
    ensures InBlockShared(m0, t0, h0, pm.Abs(), pm.tree, pm.held, pm.reserved, sp, dst, ids, done, b, b.size)
    ensures |Leaves(pm.tree, dst)| == |Leaves(old(pm.tree), dst)| + shared_pages
  {
    hide *;
    var i := 0;
    shared_pages := 0;
    while i < b.size
      invariant i <= b.size && pm.Valid() && Rooted(pm.tree, dst, dstRoot)
      invariant InBlockShared(m0, t0, h0, pm.Abs(), pm.tree, pm.held, pm.reserved, sp, dst, ids, done, b, i)
      invariant |Leaves(pm.tree, dst)| == |Leaves(old(pm.tree), dst)| + shared_pages
    {
      var shared := ShareNext(pm, srcRoot, dstRoot, b, i, m0, t0, h0, sp, dst, ids, done);
      if !shared && !b.demand { return false, shared_pages; }
      if shared { shared_pages := shared_pages + 1; }
      i := i + 1;
    }
    ok := true;
  }

  /** vmm_share_block: None stands for the NULL a block without demand filling can give. */
  method ShareBlock(pm: PhysMem, src: VmmMap, dst: VmmMap, b: Block, ghost m0: Mem, ghost t0: Tree, ghost h0: seq<nat>,
                    ghost ids: set<nat>, ghost done: set<nat>) returns (copy: Option<Block>)
    requires pm.Valid() && src != dst && Rooted(pm.tree, dst.id, dst.root) && PagesOf(b) !! done && BlockOk(b, src.file)
    requires Forking(m0, t0, h0, pm.Abs(), pm.tree, pm.held, pm.reserved, src.Value(), dst.id, ids, done)
    requires dst.total == |Leaves(pm.tree, dst.id)|
    modifies pm`tree, pm`held, pm.bitmap, pm.refs, pm.ram, dst`total
    ensures pm.Valid() && copy == Some(b) && Rooted(pm.tree, dst.id, dst.root)
    ensures Forking(m0, t0, h0, pm.Abs(), pm.tree, pm.held, pm.reserved, src.Value(), dst.id, ids, done + PagesOf(b))
    ensures dst.total == |Leaves(pm.tree, dst.id)|
  {
    assert b.demand;
    hide PhysMem.Valid, PhysMem.Abs, Forking, Rooted, Leaves, BlockOk, PagesOf, InBlockShared;
    BlockStart(pm.Abs(), pm.tree, m0, t0, h0, pm.held, pm.reserved, src.Value(), dst.id, ids, done, b);
    var ok, shared_pages := SharePages(pm, src.root, dst.root, b, m0, t0, h0, src.Value(), dst.id, ids, done);
    if !ok { return None; }
    dst.total := dst.total + shared_pages;
    BlockEnd(pm.Abs(), pm.tree, m0, t0, h0, pm.held, pm.reserved, src.Value(), dst.id, ids, done, b);
    copy := Some(b);
  }

  lemma NextDone(bs: seq<Block>, file: Option<seq<Byte>>, prefix: seq<Block>, list: seq<Block>, i: nat)
    requires BlocksOk(bs, file) && prefix + list <= bs && i < |list|
    ensures BlockOk(list[i], file) && PagesOf(list[i]) !! PagesOfAll(prefix + list[..i])
    ensures PagesOfAll(prefix + list[..i]) + PagesOf(list[i]) == PagesOfAll(prefix + list[..i + 1])
  {
    var n := |prefix| + i;
    assert bs[n] == (prefix + list)[n] == list[i];
    assert bs[..n] == (prefix + list)[..n] == prefix + list[..i];
    NextIsApart(bs, file, n);
    var s := prefix + list[..i + 1];
    assert s[..|s| - 1] == prefix + list[..i];
  }

  /** One node of the list llist_copy walks. */
  method ShareNode(pm: PhysMem, src: VmmMap, dst: VmmMap, section: nat, i: nat, ghost m0: Mem, ghost t0: Tree,
          ghost h0: seq<nat>,
                   ghost ids: set<nat>, ghost prefix: seq<Block>)
    requires pm.Valid() && src != dst && Rooted(pm.tree, dst.id, dst.root) && section < SECTIONS
    requires i < |src.areas[section]|
    requires BlocksOk(Flat(src.areas), src.file) && prefix + src.areas[section] <= Flat(src.areas)
    requires Forking(m0, t0, h0, pm.Abs(), pm.tree, pm.held, pm.reserved, src.Value(), dst.id, ids,
        PagesOfAll(prefix + src.areas[section][..i]))
    requires dst.total == |Leaves(pm.tree, dst.id)|
    modifies pm`tree, pm`held, pm.bitmap, pm.refs, pm.ram, dst`total, dst`areas
    ensures pm.Valid() && Rooted(pm.tree, dst.id, dst.root) && dst.total == |Leaves(pm.tree, dst.id)|
    ensures Forking(m0, t0, h0, pm.Abs(), pm.tree, pm.held, pm.reserved, src.Value(), dst.id, ids,
        PagesOfAll(prefix + src.areas[section][..i + 1]))
    ensures dst.areas == old(dst.areas)[section := old(dst.areas)[section] + [src.areas[section][i]]]
  {
    hide PhysMem.Valid, PhysMem.Abs, Forking, Rooted, Leaves, BlockOk, BlocksOk, PagesOf, PagesOfAll, Flat;
    NextDone(Flat(src.areas), src.file, prefix, src.areas[section], i);
    var copy := ShareBlock(pm, src, dst, src.areas[section][i], m0, t0, h0, ids,
        PagesOfAll(prefix + src.areas[section][..i]));
    dst.areas := dst.areas[section := dst.areas[section] + [copy.value]];
  }

  /** vmm_share_section, into a list the child has not filled yet. */
  method ShareSection(pm: PhysMem, src: VmmMap, dst: VmmMap, section: nat, ghost m0: Mem, ghost t0: Tree,
          ghost h0: seq<nat>,
                      ghost ids: set<nat>, ghost prefix: seq<Block>)
    requires pm.Valid() && src != dst && Rooted(pm.tree, dst.id, dst.root) && section < SECTIONS
    requires dst.areas[section] == []
    requires BlocksOk(Flat(src.areas), src.file) && prefix + src.areas[section] <= Flat(src.areas)
    requires Forking(m0, t0, h0, pm.Abs(), pm.tree, pm.held, pm.reserved, src.Value(), dst.id, ids, PagesOfAll(prefix))
    requires dst.total == |Leaves(pm.tree, dst.id)|
    modifies pm`tree, pm`held, pm.bitmap, pm.refs, pm.ram, dst`total, dst`areas, dst`file
    ensures pm.Valid() && Rooted(pm.tree, dst.id, dst.root) && dst.total == |Leaves(pm.tree, dst.id)|
    ensures Forking(m0, t0, h0, pm.Abs(), pm.tree, pm.held, pm.reserved, src.Value(), dst.id, ids,
        PagesOfAll(prefix + src.areas[section]))
    ensures dst.areas == old(dst.areas)[section := src.areas[section]]
    ensures dst.file == if old(dst.file).None? then src.file else old(dst.file)
  {
    hide PhysMem.Valid, PhysMem.Abs, Forking, Rooted, Leaves, BlockOk, BlocksOk, PagesOf, PagesOfAll, Flat;
    if src.file.Some? && dst.file.None? { dst.file := src.file; }
    ghost var areas, sp, file := dst.areas, src.Value(), dst.file;
    var i, list := 0, src.areas[section];
    assert prefix + list[..0] == prefix;
    while i < |list|
      invariant i <= |list| && pm.Valid() && Rooted(pm.tree, dst.id, dst.root) && dst.total == |Leaves(pm.tree, dst.id)|
      invariant src.Value() == sp && dst.file == file && dst.areas == areas[section := list[..i]]
      invariant Forking(m0, t0, h0, pm.Abs(), pm.tree, pm.held, pm.reserved, sp, dst.id, ids,
          PagesOfAll(prefix + list[..i]))
    {
      ShareNode(pm, src, dst, section, i, m0, t0, h0, ids, prefix);
      assert list[..i + 1] == list[..i] + [list[i]];
      i := i + 1;
    }
    assert list[..i] == list;
  }

  /** A space as vmm_map_new makes it. */
  predicate Empty(sp: Space) { sp.areas == [[], [], []] && sp.total == 0 && sp.file == None }

  lemma SearchOrder(a: Areas)
    ensures [] + a[STACK] <= Flat(a) && [] + a[STACK] + a[TEXT] <= Flat(a)
    ensures [] + a[STACK] + a[TEXT] + a[DATA] == Flat(a)
  {
    assert [] + a[STACK] == a[STACK];
  }

  lemma AllThree(a: Areas, b: Areas, c: Areas)
    requires b == [[], [], []] && c == b[STACK := a[STACK]][TEXT := a[TEXT]][DATA := a[DATA]]
    ensures c == a
  {
  }

  /** The three vmm_share_section calls of user_process_fork. */
  method ShareAll(pm: PhysMem, src: VmmMap, dst: VmmMap, ghost ids: set<nat>)
    requires pm.Valid() && src != dst && Rooted(pm.tree, dst.id, dst.root) && Empty(dst.Value())
    requires ForkReady(pm.Abs(), pm.tree, pm.held, pm.reserved, src.Value(), dst.id, ids)
    modifies pm`tree, pm`held, pm.bitmap, pm.refs, pm.ram, dst`total, dst`areas, dst`file
    ensures pm.Valid() && Rooted(pm.tree, dst.id, dst.root)
    ensures Forking(old(pm.Abs()), old(pm.tree), old(pm.held), pm.Abs(), pm.tree, pm.held, pm.reserved, src.Value(),
        dst.id, ids,
                    PagesOfAll(Flat(src.areas)))
    ensures dst.areas == src.areas && dst.total == |Leaves(pm.tree, dst.id)| && dst.file == src.file
  {
    hide PhysMem.Valid, PhysMem.Abs, ForkReady, Forking, Rooted, Leaves, BlockOk, BlocksOk, PagesOf, PagesOfAll, Flat;
    ghost var m0, t0, h0, a, b := pm.Abs(), pm.tree, pm.held, src.areas, dst.areas;
    ForkStart(m0, t0, h0, pm.reserved, src.Value(), dst.id, ids);
    SearchOrder(a);
    ShareSection(pm, src, dst, STACK, m0, t0, h0, ids, []);
    ShareSection(pm, src, dst, TEXT, m0, t0, h0, ids, [] + a[STACK]);
    ShareSection(pm, src, dst, DATA, m0, t0, h0, ids, [] + a[STACK] + a[TEXT]);
    AllThree(a, b, dst.areas);
  }

  lemma ForkStart(m0: Mem, t0: Tree, h0: seq<nat>, reserved: nat, sp: Space, dst: nat, ids: set<nat>)
    requires ForkReady(m0, t0, h0, reserved, sp, dst, ids)
    ensures Forking(m0, t0, h0, m0, t0, h0, reserved, sp, dst, ids, PagesOfAll([]))
    ensures |Leaves(t0, dst)| == 0 && BlocksOk(Flat(sp.areas), sp.file)
  {
    assert Leaves(t0, dst) == {};
    forall v | 0 <= v < VPNS ensures PageShared(m0, t0, m0, t0, sp.id, dst, v, false) {
      assert |LeafNode(dst, v).path| == 4;
    }
  }

  // ----- what fork has done once every block is shared -----

  /** Every page of the parent, present or not, has been dealt with. */
  lemma PageForked(m0: Mem, t0: Tree, h0: seq<nat>, m: Mem, t: Tree, reserved: nat, sp: Space, dst: nat, ids: set<nat>,
          v: nat)
    requires Forking(m0, t0, h0, m, t, h0, reserved, sp, dst, ids, PagesOfAll(Flat(sp.areas))) && v < VPNS
    ensures PageOk(m0, t0, h0, sp, v)
    ensures PageShared(m0, t0, m, t, sp.id, dst, v, Present(Pte(m0.ram, t0, sp.id, v)))
  {
    var e, bs := Pte(m0.ram, t0, sp.id, v), Flat(sp.areas);
    assert PageOk(m0, t0, h0, sp, v);
    assert PageShared(m0, t0, m, t, sp.id, dst, v, v in PagesOfAll(bs));
    if Present(e) {
      FindSpec(bs, v * PAGE_SIZE);
      var b := BlockOf(sp, v).value;
      InBlock(b, sp.file, v);
      InPagesOfAll(bs, v);
    }
  }

  /** What the parent and the child find at page v after the fork. */
  lemma ForkedPage(m0: Mem, t0: Tree, h0: seq<nat>, m: Mem, t: Tree, sp: Space, child: Space, dst: nat, v: nat)
    requires PageOk(m0, t0, h0, sp, v) && PageShared(m0, t0, m, t, sp.id, dst, v, Present(Pte(m0.ram, t0, sp.id, v)))
    requires child.id == dst && child.areas == sp.areas && child.file == sp.file
    requires !Present(Pte(m.ram, t, dst, v)) <== LeafNode(dst, v) !in t
    ensures PageOk(m, t, h0, sp, v) && PageOk(m, t, h0, child, v)
    ensures BlockOf(sp, v).Some? ==>
      PageView(m, t, sp, v) == PageView(m0, t0, sp, v) && PageView(m, t, child, v) == PageView(m0, t0, sp, v)
  {
    var e := Pte(m0.ram, t0, sp.id, v);
    SameBlocks(sp, child);
    if Present(e) {
      SharedFlags(e);
      assert Content(m.ram, SharedEntry(e)) == Content(m.ram, e) == Content(m.ram, ChildEntry(e));
    }
  }

  lemma ForkedPages(m0: Mem, t0: Tree, h0: seq<nat>, m: Mem, t: Tree, reserved: nat, sp: Space, child: Space, dst: nat,
          ids: set<nat>)
    requires Forking(m0, t0, h0, m, t, h0, reserved, sp, dst, ids, PagesOfAll(Flat(sp.areas)))
    requires child.id == dst && child.areas == sp.areas && child.file == sp.file
    ensures forall v :: 0 <= v < VPNS ==> PageOk(m, t, h0, sp, v)
    ensures forall v :: 0 <= v < VPNS ==> PageOk(m, t, h0, child, v)
    ensures forall v :: 0 <= v < VPNS && BlockOf(sp, v).Some? ==> PageView(m, t, sp, v) == PageView(m0, t0, sp, v)
    ensures forall v :: 0 <= v < VPNS && BlockOf(sp, v).Some? ==>
      BlockOf(child, v).Some? && PageView(m, t, child, v) == PageView(m0, t0, sp, v)
  {
    hide PageOk, PageView, Forking, PagesOfAll, Pte;
    SameBlocks(sp, child);
    forall v | 0 <= v < VPNS
      ensures PageOk(m, t, h0, sp, v) && PageOk(m, t, h0, child, v)
      ensures BlockOf(sp, v).Some? ==>
        BlockOf(child, v).Some? && PageView(m, t, sp, v) == PageView(m0, t0, sp, v) && PageView(m, t, child,
            v) == PageView(m0, t0, sp, v)
    {
      PageForked(m0, t0, h0, m, t, reserved, sp, dst, ids, v);
      ChildAbsent(m0, t0, h0, m, t, reserved, sp, dst, ids, PagesOfAll(Flat(sp.areas)), v);
      ForkedPage(m0, t0, h0, m, t, sp, child, dst, v);
    }
  }

  lemma ChildAbsent(m0: Mem, t0: Tree, h0: seq<nat>, m: Mem, t: Tree, reserved: nat, sp: Space, dst: nat,
          ids: set<nat>, done: set<nat>, v: nat)
    requires Forking(m0, t0, h0, m, t, h0, reserved, sp, dst, ids, done)
    ensures LeafNode(dst, v) !in t ==> !Present(Pte(m.ram, t, dst, v))
  {
    PteMeaning(m, t, h0, reserved, dst, v);
  }

  lemma ForkAccount(m0: Mem, t0: Tree, h0: seq<nat>, m: Mem, t: Tree, reserved: nat, sp: Space, child: Space, dst: nat,
          ids: set<nat>, done: set<nat>)
    requires Forking(m0, t0, h0, m, t, h0, reserved, sp, dst, ids, done)
    requires child == Space(dst, child.root, sp.areas, |Leaves(t, dst)|, sp.file)
    ensures Rooted(t, sp.id, sp.root) && sp.total == |Leaves(t, sp.id)| && BlocksOk(Flat(sp.areas), sp.file)
    ensures child.total == |Leaves(t, child.id)| && BlocksOk(Flat(child.areas), child.file)
  {
    assert Leaves(t, sp.id) == Leaves(t0, sp.id);
  }

  /** The parent keeps its memory and the child gets the same. */
  lemma ForkPreserves(m0: Mem, t0: Tree, h0: seq<nat>, m: Mem, t: Tree, reserved: nat, sp: Space, child: Space,
          dst: nat, ids: set<nat>)
    requires Forking(m0, t0, h0, m, t, h0, reserved, sp, dst, ids, PagesOfAll(Flat(sp.areas)))
    requires Rooted(t, dst, child.root)
    requires child == Space(dst, child.root, sp.areas, |Leaves(t, dst)|, sp.file)
    ensures SpaceOk(m, t, h0, sp) && ImageOf(m, t, sp) == ImageOf(m0, t0, sp)
    ensures SpaceOk(m, t, h0, child) && ImageOf(m, t, child) == ImageOf(m0, t0, sp)
  {
    ForkedPages(m0, t0, h0, m, t, reserved, sp, child, dst, ids);
    ForkAccount(m0, t0, h0, m, t, reserved, sp, child, dst, ids, PagesOfAll(Flat(sp.areas)));
    hide PageOk, PageView, Forking, PagesOfAll, Pte, Rooted, Leaves, BlocksOk, ImageOf, BlockOf;
    ImageSame(m0, t0, sp, m, t, sp);
    ImageSame(m0, t0, sp, m, t, child);
  }

  lemma OtherForkedPage(m0: Mem, t0: Tree, h0: seq<nat>, m: Mem, t: Tree, reserved: nat, sp: Space, dst: nat,
          ids: set<nat>, done: set<nat>, other: Space, v: nat)
    requires Forking(m0, t0, h0, m, t, h0, reserved, sp, dst, ids, done) && v < VPNS
    requires PageOk(m0, t0, h0, other, v) && other.id != sp.id && other.id != dst
    ensures PageOk(m, t, h0, other, v)
    ensures BlockOf(other, v).Some? ==> PageView(m, t, other, v) == PageView(m0, t0, other, v)
  {
    assert SamePage(m0.ram, t0, m.ram, t, other.id, v);
    if Present(Pte(m0.ram, t0, other.id, v)) && Writable(Pte(m0.ram, t0, other.id, v)) {
      SoleAfterFork(m, t0, t, h0, reserved, sp.id, dst, LeafNode(other.id, v));
    }
  }

  lemma OtherAccount(m0: Mem, t0: Tree, h0: seq<nat>, m: Mem, t: Tree, reserved: nat, sp: Space, dst: nat,
          ids: set<nat>, done: set<nat>, other: Space)
    requires Forking(m0, t0, h0, m, t, h0, reserved, sp, dst, ids, done)
    requires SpaceOk(m0, t0, h0, other) && other.id != sp.id && other.id != dst
    ensures Rooted(t, other.id, other.root) && other.total == |Leaves(t, other.id)|
    ensures BlocksOk(Flat(other.areas), other.file)
    ensures forall v :: 0 <= v < VPNS ==> PageOk(m0, t0, h0, other, v)
  {
    assert Leaves(t, other.id) == Leaves(t0, other.id);
  }

  /** No third process notices. */
  lemma ForkOther(m0: Mem, t0: Tree, h0: seq<nat>, m: Mem, t: Tree, reserved: nat, sp: Space, dst: nat, ids: set<nat>,
          done: set<nat>, other: Space)
    requires Forking(m0, t0, h0, m, t, h0, reserved, sp, dst, ids, done)
    requires SpaceOk(m0, t0, h0, other) && other.id != sp.id && other.id != dst
    ensures SpaceOk(m, t, h0, other) && ImageOf(m, t, other) == ImageOf(m0, t0, other)
  {
    OtherAccount(m0, t0, h0, m, t, reserved, sp, dst, ids, done, other);
    hide PageOk, PageView, Forking, Pte, Rooted, Leaves, BlocksOk, ImageOf, BlockOf;
    forall v | 0 <= v < VPNS
      ensures PageOk(m, t, h0, other, v)
      ensures BlockOf(other, v).Some? ==> PageView(m, t, other, v) == PageView(m0, t0, other, v)
    {
      OtherForkedPage(m0, t0, h0, m, t, reserved, sp, dst, ids, done, other, v);
    }
    ImageSame(m0, t0, other, m, t, other);
  }

  lemma SoleAfterFork(m: Mem, t0: Tree, t: Tree, h: seq<nat>, reserved: nat, src: nat, dst: nat, n: Node)
    requires Copied(t0, t, src, dst) && Sound(m, t, h, reserved) && n in t0 && Sole(t0, n) && n.space != src
    requires !IsTable(n)
    ensures n in t && Sole(t, n)
  {
    assert forall k :: k in t && IsTable(k) && t[k] == t[n] ==> k == n;
  }
}
