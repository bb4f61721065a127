// All processes' memory together: creating, forking, faulting, storing and exiting keep every
// process's memory what it would be with eager copying and eager loading.
module KernelMemory {
  import opened Words
  import opened PageTree
  import opened FlatMap
  import opened Paging
  import opened Teardown
  import opened Blocks
  import opened Vmm
  import opened Memory
  import opened Fork

  type Spaces = map<nat, Space>
  type Images = map<nat, Image>

  function PutSpace(spaces: Spaces, id: nat, sp: Space): Spaces { spaces[id := sp] }

  function PutImage(images: Images, id: nat, image: Image): Images { images[id := image] }

  ghost predicate SpacesOk(m: Mem, t: Tree, held: seq<nat>, spaces: Spaces) {
    forall i :: i in spaces ==> spaces[i].id == i && SpaceOk(m, t, held, spaces[i])
  }

  /** The invariant between any two kernel operations.  `held` is what the kernel itself holds. */
  ghost predicate KernelOk(m: Mem, t: Tree, held: seq<nat>, reserved: nat, spaces: Spaces) {
    Sound(m, t, held, reserved) && Owned(t, spaces.Keys) && Aligned(t) && SpacesOk(m, t, held, spaces)
  }

  /** Every process's memory. */
  ghost function ImagesOf(m: Mem, t: Tree, spaces: Spaces): Images {
    map i | i in spaces :: ImageOf(m, t, spaces[i])
  }

  // ----- what the invariant says about reference counts -----

  lemma PageParts(m: Mem, t: Tree, held: seq<nat>, reserved: nat, sp: Space, v: nat)
    requires Sound(m, t, held, reserved) && PageOk(m, t, held, sp, v) && Present(Pte(m.ram, t, sp.id, v))
    ensures var e := Pte(m.ram, t, sp.id, v);
      && LeafNode(sp.id, v) in t && t[LeafNode(sp.id, v)] == FrameOf(e) < |m.refs| == |held| && held[FrameOf(e)] == 0
      && (Writable(e) ==> Sole(t, LeafNode(sp.id, v)))
  {
    PteMeaning(m, t, held, reserved, sp.id, v);
  }

  lemma SoleIsOne(t: Tree, n: Node)
    requires n in t && Sole(t, n)
    ensures Holders(t, t[n]) == {n}
  {
  }

  /** A mapped frame is counted at most once for every process, and just once if some entry can write it. */
  lemma MappedFrame(m: Mem, t: Tree, held: seq<nat>, reserved: nat, spaces: Spaces, i: nat, v: nat)
    requires KernelOk(m, t, held, reserved, spaces) && i in spaces && v < VPNS && Present(Pte(m.ram, t, i, v))
    ensures var e := Pte(m.ram, t, i, v);
      && FrameOf(e) < |m.refs| && 1 <= m.refs[FrameOf(e)] <= |spaces.Keys|
      && (Writable(e) ==> m.refs[FrameOf(e)] == 1)
  {
    hide *;
    var e, n := Pte(m.ram, t, i, v), LeafNode(i, v);
    Parts(m, t, held, reserved, spaces);
    PageOfSpace(m, t, held, spaces[i], v);
    PageParts(m, t, held, reserved, spaces[i], v);
    NamedIsCounted(t, n);
    RefsBound(m, t, held, reserved, FrameOf(e));
    CountBound(m, t, held, reserved, spaces.Keys, FrameOf(e));
    if Writable(e) { SoleIsOne(t, n); }
  }

  lemma PageOfSpace(m: Mem, t: Tree, held: seq<nat>, sp: Space, v: nat)
    requires SpaceOk(m, t, held, sp) && v < VPNS
    ensures PageOk(m, t, held, sp, v)
  {
  }

  /** In every state, a frame's count is the number of present entries naming it, plus one if it is a page table,
      plus what the kernel holds, and it is free exactly when that is zero. */
  lemma FrameConservation(m: Mem, t: Tree, held: seq<nat>, reserved: nat, spaces: Spaces, f: nat)
    requires KernelOk(m, t, held, reserved, spaces) && f < |m.refs|
    ensures |m.used| == |m.refs| == |held|
    ensures m.refs[f] == |NamingPages(m, t, f)| + |NamingTables(t, f)| + held[f] && |NamingTables(t, f)| <= 1
    ensures f >= reserved ==> (m.used[f] <==> m.refs[f] > 0)
  {
    hide *;
    Parts(m, t, held, reserved, spaces);
    OneTable(m, t, held, reserved, f);
    FreeIsZero(m, t, held, reserved, f);
    RefsBound(m, t, held, reserved, f);
    HoldersSplit(m, t, held, reserved, f);
  }

  lemma HoldersSplit(m: Mem, t: Tree, held: seq<nat>, reserved: nat, f: nat)
    requires Sound(m, t, held, reserved)
    ensures |Holders(t, f)| == |NamingPages(m, t, f)| + |NamingTables(t, f)|
  {
    hide Sound, Sized, Bitmapped, Counted, Shaped, Exclusive, Linked, Names, Present, FrameOf;
    forall n ensures n in NamingPages(m, t, f) <==> n in t && !IsTable(n) && t[n] == f {
      NamingLeaf(m, t, held, reserved, f, n);
    }
    assert Holders(t, f) == NamingPages(m, t, f) + NamingTables(t, f);
  }

  lemma FreeIsZero(m: Mem, t: Tree, held: seq<nat>, reserved: nat, f: nat)
    requires Sound(m, t, held, reserved) && f < |m.refs|
    ensures |m.used| == |m.refs| == |held| && (f >= reserved ==> (m.used[f] <==> m.refs[f] > 0))
  {
  }

  lemma OneTable(m: Mem, t: Tree, held: seq<nat>, reserved: nat, f: nat)
    requires Sound(m, t, held, reserved)
    ensures |NamingTables(t, f)| <= 1
  {
    if n :| n in NamingTables(t, f) {
      assert NamingTables(t, f) == {n};
    }
  }

  /** The present entries that name frame f, as (space, indices). */
  ghost function NamingPages(m: Mem, t: Tree, f: nat): set<Node> {
    set n | n in t && |n.path| == DEPTH && Names(m, t, f, n)
  }

  ghost predicate Names(m: Mem, t: Tree, f: nat, n: Node)
    requires |n.path| == DEPTH
  {
    var p := Node(n.space, n.path[..3]);
    p in t && t[p] < |m.ram| && n.path[3] < ENTRIES
    && Present(ReadWord(m.ram[t[p]], n.path[3])) && FrameOf(ReadWord(m.ram[t[p]], n.path[3])) == f
  }

  function NamingTables(t: Tree, f: nat): set<Node> { set n | n in t && IsTable(n) && t[n] == f }

  lemma NamingLeaf(m: Mem, t: Tree, held: seq<nat>, reserved: nat, f: nat, n: Node)
    requires Sound(m, t, held, reserved)
    ensures n in NamingPages(m, t, f) <==> n in t && !IsTable(n) && t[n] == f
  {
    if n in t {
      assert NodeOk(t, n, |m.ram|);
      if |n.path| == DEPTH {
        var p := Parent(n);
        assert Child(p, n.path[3]) == n by { assert n.path == n.path[..3] + [n.path[3]]; }
        assert NodeOk(t, p, |m.ram|) && EntryOk(m.ram, t, p, n.path[3]);
      }
    }
  }

  // ----- one process's step leaves the others alone -----

  /** The processes other than id have what they had. */
  ghost predicate OthersKept(m: Mem, t: Tree, m': Mem, t': Tree, held: seq<nat>, spaces: Spaces, id: nat) {
    forall i :: i in spaces && i != id ==>
      SpaceOk(m', t', held, spaces[i]) && ImageOf(m', t', spaces[i]) == ImageOf(m, t, spaces[i])
  }

  lemma StepKeepsOthers(m: Mem, t: Tree, m': Mem, t': Tree, held: seq<nat>, spaces: Spaces, id: nat, leaf: Node)
    requires SpacesOk(m, t, held, spaces)
    requires Step(m, t, m', t', leaf) && leaf.space == id && forall k :: k in t' && k !in t ==> k.space == id
    ensures OthersKept(m, t, m', t', held, spaces, id)
  {
    hide SpaceOk, ImageOf, Step;
    forall i | i in spaces && i != id ensures SpaceOk(m', t', held, spaces[i]) && ImageOf(m', t',
        spaces[i]) == ImageOf(m, t, spaces[i]) {
      OtherSpace(m, t, m', t', held, spaces[i], leaf);
    }
  }

  /** One process changed, or came into being. */
  lemma Assemble(m: Mem, t: Tree, m': Mem, t': Tree, held: seq<nat>, reserved: nat, spaces: Spaces, sp': Space)
    requires KernelOk(m, t, held, reserved, spaces) && Sound(m', t', held, reserved)
    requires Owned(t', spaces.Keys + {sp'.id}) && Aligned(t') && OthersKept(m, t, m', t', held, spaces, sp'.id)
    requires SpaceOk(m', t', held, sp')
    ensures KernelOk(m', t', held, reserved, PutSpace(spaces, sp'.id, sp'))
    ensures ImagesOf(m', t', PutSpace(spaces, sp'.id, sp')) == PutImage(ImagesOf(m, t, spaces), sp'.id,
        ImageOf(m', t', sp'))
  {
    hide Sound, Owned, Aligned, SpaceOk, ImageOf;
    assert PutSpace(spaces, sp'.id, sp').Keys == spaces.Keys + {sp'.id};
  }

  lemma StepOwned(t: Tree, t': Tree, ids: set<nat>, id: nat)
    requires Owned(t, ids) && forall k :: k in t' && k !in t ==> k.space == id
    ensures Owned(t', ids + {id})
  {
  }

  lemma StepAligned(m': Mem, t: Tree, t': Tree, held: seq<nat>, reserved: nat, leaf: Node)
    requires Aligned(t) && Extends(t, t', leaf) && Sound(m', t', held, reserved)
    ensures Aligned(t')
  {
    AlignedStays(t, t', leaf, |m'.ram|, held);
  }

  lemma StepExtends(m: Mem, t: Tree, m': Mem, t': Tree, leaf: Node)
    requires Step(m, t, m', t', leaf)
    ensures Extends(t, t', leaf)
  {
  }

  lemma Parts(m: Mem, t: Tree, held: seq<nat>, reserved: nat, spaces: Spaces)
    requires KernelOk(m, t, held, reserved, spaces)
    ensures Sound(m, t, held, reserved) && Owned(t, spaces.Keys) && Aligned(t) && SpacesOk(m, t, held, spaces)
    ensures forall i :: i in spaces ==> spaces[i].id == i && SpaceOk(m, t, held, spaces[i])
  {
  }

  /** A step on one page of one space. */
  lemma StepKernel(m: Mem, t: Tree, m': Mem, t': Tree, held: seq<nat>, reserved: nat, spaces: Spaces, sp': Space,
          leaf: Node)
    requires KernelOk(m, t, held, reserved, spaces) && Sound(m', t', held, reserved) && SpaceOk(m', t', held, sp')
    requires Step(m, t, m', t', leaf) && leaf.space == sp'.id && forall k :: k in t' && k !in t ==> k.space == sp'.id
    ensures KernelOk(m', t', held, reserved, PutSpace(spaces, sp'.id, sp'))
    ensures ImagesOf(m', t', PutSpace(spaces, sp'.id, sp')) == PutImage(ImagesOf(m, t, spaces), sp'.id,
        ImageOf(m', t', sp'))
  {
    hide *;
    Parts(m, t, held, reserved, spaces);
    StepExtends(m, t, m', t', leaf);
    StepAligned(m', t, t', held, reserved, leaf);
    StepOwned(t, t', spaces.Keys, sp'.id);
    StepKeepsOthers(m, t, m', t', held, spaces, sp'.id, leaf);
    Assemble(m, t, m', t', held, reserved, spaces, sp');
  }

  lemma SameImage(m: Mem, t: Tree, spaces: Spaces, id: nat)
    requires id in spaces
    ensures PutImage(ImagesOf(m, t, spaces), id, ImageOf(m, t, spaces[id])) == ImagesOf(m, t, spaces)
    ensures PutSpace(spaces, id, spaces[id]) == spaces
    ensures ImagesOf(m, t, spaces)[id] == ImageOf(m, t, spaces[id])
  {
    hide ImageOf;
  }

  function OneMorePage(sp: Space): Space { sp.(total := sp.total + 1) }

  lemma OnePage(sp: Space)
    ensures OneMorePage(sp) == sp.(total := sp.total + 1) && OneMorePage(sp).id == sp.id
  {
  }

  lemma LeafIn(s: nat, v: nat)
    ensures LeafNode(s, v).space == s
  {
  }

  /** A demand fault is invisible. */
  lemma KernelFault(m: Mem, t: Tree, m': Mem, t': Tree, held: seq<nat>, reserved: nat, spaces: Spaces, id: nat, v: nat,
          b: Block)
    requires KernelOk(m, t, held, reserved, spaces) && Sound(m', t', held, reserved) && id in spaces && v < VPNS
    requires BlockOf(spaces[id], v) == Some(b) && FaultFilled(m, t, m', t', held, spaces[id], v, b)
    ensures KernelOk(m', t', held, reserved, PutSpace(spaces, id, OneMorePage(spaces[id])))
    ensures ImagesOf(m', t', PutSpace(spaces, id, OneMorePage(spaces[id]))) == ImagesOf(m, t, spaces)
  {
    hide *;
    Parts(m, t, held, reserved, spaces);
    OnePage(spaces[id]);
    LeafIn(id, v);
    FaultPreserves(m, t, m', t', held, reserved, spaces[id], v, b);
    FaultStep(m, t, m', t', held, reserved, spaces[id], v, b);
    StepKernel(m, t, m', t', held, reserved, spaces, OneMorePage(spaces[id]), LeafNode(id, v));
    SameImage(m, t, spaces, id);
  }

  /** So is a refused one. */
  lemma KernelRefused(m: Mem, t: Tree, m': Mem, t': Tree, held: seq<nat>, reserved: nat, spaces: Spaces, id: nat,
          v: nat)
    requires KernelOk(m, t, held, reserved, spaces) && Sound(m', t', held, reserved) && id in spaces
    requires FaultRefused(m, t, m', t', id, v)
    ensures KernelOk(m', t', held, reserved, spaces) && ImagesOf(m', t', spaces) == ImagesOf(m, t, spaces)
  {
    hide *;
    Parts(m, t, held, reserved, spaces);
    LeafIn(id, v);
    RefusalStep(m, t, m', t', held, reserved, id, v);
    RefusedSpace(m, t, m', t', held, spaces[id], v);
    StepKernel(m, t, m', t', held, reserved, spaces, spaces[id], LeafNode(id, v));
    SameImage(m, t, spaces, id);
  }

  lemma RefusedSpace(m: Mem, t: Tree, m': Mem, t': Tree, held: seq<nat>, sp: Space, v: nat)
    requires SpaceOk(m, t, held, sp) && FaultRefused(m, t, m', t', sp.id, v) && Step(m, t, m', t', LeafNode(sp.id, v))
    requires Leaves(t', sp.id) == Leaves(t, sp.id)
    ensures SpaceOk(m', t', held, sp) && ImageOf(m', t', sp) == ImageOf(m, t, sp)
  {
    forall w | 0 <= w < VPNS
      ensures PageOk(m', t', held, sp, w)
      ensures BlockOf(sp, w).Some? ==> PageView(m', t', sp, w) == PageView(m, t, sp, w)
    {
      assert SamePage(m.ram, t, m'.ram, t', sp.id, w);
      PageOkStays(m, t, m', t', held, sp, sp, w, LeafNode(sp.id, v));
    }
    ImageSame(m, t, sp, m', t', sp);
  }

  /** And so is a resolved copy-on-write fault. */
  lemma KernelCow(m: Mem, t: Tree, m': Mem, t': Tree, held: seq<nat>, reserved: nat, spaces: Spaces, id: nat, v: nat)
    requires KernelOk(m, t, held, reserved, spaces) && Sound(m', t', held, reserved) && id in spaces && v < VPNS
    requires CowResolved(m, t, m', t', held, id, v)
    ensures KernelOk(m', t', held, reserved, spaces) && ImagesOf(m', t', spaces) == ImagesOf(m, t, spaces)
    ensures BlockOf(spaces[id], v).Some? && Writable(BlockOf(spaces[id], v).value.ops)
  {
    hide *;
    Parts(m, t, held, reserved, spaces);
    LeafIn(id, v);
    CowPreserves(m, t, m', t', held, spaces[id], v);
    CowStep(m, t, m', t', held, id, v);
    NoNewNodes(t, t');
    StepKernel(m, t, m', t', held, reserved, spaces, spaces[id], LeafNode(id, v));
    SameImage(m, t, spaces, id);
  }

  lemma NoNewNodes(t: Tree, t': Tree)
    requires t'.Keys == t.Keys
    ensures forall k :: k in t' ==> k in t
  {
  }

  /** A store through a writable entry changes one page of one process. */
  lemma KernelStore(m: Mem, t: Tree, held: seq<nat>, reserved: nat, spaces: Spaces, id: nat, v: nat, c: Page, m': Mem)
    requires KernelOk(m, t, held, reserved, spaces) && id in spaces && v < VPNS
    requires Present(Pte(m.ram, t, id, v)) && Writable(Pte(m.ram, t, id, v)) && FrameOf(Pte(m.ram, t, id, v)) < |m.ram|
    requires m' == Fill(m, FrameOf(Pte(m.ram, t, id, v)), c)
    ensures KernelOk(m', t, held, reserved, spaces) && id in ImagesOf(m, t, spaces)
    ensures ImagesOf(m', t, spaces) == PutImage(ImagesOf(m, t, spaces), id,
        SetPage(ImagesOf(m, t, spaces)[id], v, EagerPage(c, true)))
  {
    hide *;
    Parts(m, t, held, reserved, spaces);
    LeafIn(id, v);
    StoreSeen(m, t, held, reserved, spaces[id], v, c, m');
    StepKernel(m, t, m', t, held, reserved, spaces, spaces[id], LeafNode(id, v));
    SameImage(m, t, spaces, id);
    InImages(m, t, spaces, id);
  }

  lemma InImages(m: Mem, t: Tree, spaces: Spaces, id: nat)
    requires id in spaces
    ensures id in ImagesOf(m, t, spaces)
  {
  }

  lemma ForkOthers(m0: Mem, t0: Tree, m: Mem, t: Tree, held: seq<nat>, reserved: nat, spaces: Spaces, id: nat,
          dst: nat, child: Space, ids: set<nat>)
    requires SpacesOk(m0, t0, held, spaces) && id in spaces && id != dst
    requires Forking(m0, t0, held, m, t, held, reserved, spaces[id], dst, ids, PagesOfAll(Flat(spaces[id].areas)))
    requires Rooted(t, dst, child.root)
    requires child == Space(dst, child.root, spaces[id].areas, |Leaves(t, dst)|, spaces[id].file)
    ensures OthersKept(m0, t0, m, t, held, spaces, dst) && SpaceOk(m, t, held, child)
    ensures ImageOf(m, t, child) == ImageOf(m0, t0, spaces[id])
  {
    hide SpaceOk, ImageOf, Forking, PagesOfAll, Flat, Rooted, Leaves;
    ForkPreserves(m0, t0, held, m, t, reserved, spaces[id], child, dst, ids);
    forall i | i in spaces && i != dst ensures SpaceOk(m, t, held, spaces[i]) && ImageOf(m, t,
        spaces[i]) == ImageOf(m0, t0, spaces[i]) {
      if i != id {
        ForkOther(m0, t0, held, m, t, reserved, spaces[id], dst, ids, PagesOfAll(Flat(spaces[id].areas)), spaces[i]);
      }
    }
  }

  lemma ForkingParts(m0: Mem, t0: Tree, m: Mem, t: Tree, held: seq<nat>, reserved: nat, sp: Space, dst: nat,
          ids: set<nat>, done: set<nat>)
    requires Forking(m0, t0, held, m, t, held, reserved, sp, dst, ids, done)
    ensures Sound(m, t, held, reserved) && Aligned(t) && Owned(t, ids)
  {
    CopiedAligned(m, t0, t, held, reserved, sp.id, dst, ids);
  }

  /** Fork gives the child the parent's memory. */
  lemma KernelFork(m0: Mem, t0: Tree, m: Mem, t: Tree, held: seq<nat>, reserved: nat, spaces: Spaces, id: nat,
          dst: nat, child: Space)
    requires KernelOk(m0, t0, held, reserved, spaces) && id in spaces && id != dst
    requires Forking(m0, t0, held, m, t, held, reserved, spaces[id], dst, spaces.Keys + {dst},
        PagesOfAll(Flat(spaces[id].areas)))
    requires Rooted(t, dst, child.root)
    requires child == Space(dst, child.root, spaces[id].areas, |Leaves(t, dst)|, spaces[id].file)
    ensures KernelOk(m, t, held, reserved, PutSpace(spaces, dst, child)) && id in ImagesOf(m0, t0, spaces)
    ensures ImagesOf(m, t, PutSpace(spaces, dst, child)) == PutImage(ImagesOf(m0, t0, spaces), dst,
        ImagesOf(m0, t0, spaces)[id])
  {
    hide *;
    Parts(m0, t0, held, reserved, spaces);
    ForkingParts(m0, t0, m, t, held, reserved, spaces[id], dst, spaces.Keys + {dst},
        PagesOfAll(Flat(spaces[id].areas)));
    ForkOthers(m0, t0, m, t, held, reserved, spaces, id, dst, child, spaces.Keys + {dst});
    Assemble(m0, t0, m, t, held, reserved, spaces, child);
    SameImage(m0, t0, spaces, id);
    InImages(m0, t0, spaces, id);
  }

  // ----- spaces come and go -----

  function EmptySpace(id: nat, root: nat): Space { Space(id, root, [[], [], []], 0, None) }

  lemma KernelNew(m: Mem, t: Tree, held: seq<nat>, reserved: nat, spaces: Spaces, f: nat, id: nat, m': Mem, t': Tree)
    requires KernelOk(m, t, held, reserved, spaces) && id !in spaces && f < |m.used| && !m.used[f]
    requires m' == Fill(Alloc(m, f), f, ZeroPage()) && t' == t[Node(id, []) := f]
    ensures KernelOk(m', t', held, reserved, PutSpace(spaces, id, EmptySpace(id, f)))
    ensures ImagesOf(m', t', PutSpace(spaces, id, EmptySpace(id, f))) == PutImage(ImagesOf(m, t, spaces), id, map[])
  {
    hide *;
    Parts(m, t, held, reserved, spaces);
    NewOwner(t, spaces.Keys, id, f);
    NewRoot(m, t, held, reserved, id, f, m');
    RootStep(m, t, held, reserved, id, f, m', t');
    EmptyImage(m', t', held, reserved, id, f);
    StepKernel(m, t, m', t', held, reserved, spaces, EmptySpace(id, f), Node(id, []));
  }

  lemma NewOwner(t: Tree, ids: set<nat>, id: nat, f: nat)
    requires Owned(t, ids) && id !in ids
    ensures forall n :: n in t ==> n.space != id
    ensures forall n :: n in t[Node(id, []) := f] && n !in t ==> n.space == id
    ensures forall n :: n in t[Node(id, []) := f] && n.space == id ==> n.path == []
    ensures Node(id, []) in t[Node(id, []) := f] && t[Node(id, []) := f][Node(id, [])] == f
    ensures EmptySpace(id, f).id == id
  {
  }

  lemma NewRoot(m: Mem, t: Tree, held: seq<nat>, reserved: nat, id: nat, f: nat, m': Mem)
    requires Sound(m, t, held, reserved) && (forall n :: n in t ==> n.space != id) && f < |m.used| && !m.used[f]
    requires m' == Fill(Alloc(m, f), f, ZeroPage())
    ensures Sound(m', t[Node(id, []) := f], held, reserved)
  {
    AllocSound(m, t, held, reserved, f);
    FreeIsUnnamed(m, t, held, reserved, f);
    FillSound(Alloc(m, f), t, Hold(held, f), reserved, f, ZeroPage());
    LinkRootSound(m', t, Hold(held, f), reserved, id, f);
  }

  lemma RootStep(m: Mem, t: Tree, held: seq<nat>, reserved: nat, id: nat, f: nat, m': Mem, t': Tree)
    requires Sound(m, t, held, reserved) && (forall n :: n in t ==> n.space != id) && f < |m.used| && !m.used[f]
    requires m' == Fill(Alloc(m, f), f, ZeroPage()) && t' == t[Node(id, []) := f]
    ensures Step(m, t, m', t', Node(id, []))
  {
    FreeIsUnnamed(m, t, held, reserved, f);
    forall s: nat, v: nat ensures SamePage(m.ram, t, m'.ram, t', s, v) {
      assert |TableNode(s, v, 3).path| == 3;
      PteMeaning(m, t, held, reserved, s, v);
    }
  }

  lemma EmptyImage(m: Mem, t: Tree, held: seq<nat>, reserved: nat, id: nat, f: nat)
    requires Sound(m, t, held, reserved) && Node(id, []) in t && t[Node(id, [])] == f
    requires forall n :: n in t && n.space == id ==> n.path == []
    ensures SpaceOk(m, t, held, EmptySpace(id, f)) && ImageOf(m, t, EmptySpace(id, f)) == map[]
  {
    assert TableNode(id, 0, 0) == Node(id, []);
    assert Leaves(t, id) == {};
    forall v | 0 <= v < VPNS ensures !Present(Pte(m.ram, t, id, v)) && BlockOf(EmptySpace(id, f), v).None? {
      PteMeaning(m, t, held, reserved, id, v);
    }
  }

  /** Exit removes one process's memory and nothing else. */
  lemma KernelExit(m: Mem, t: Tree, m': Mem, held: seq<nat>, reserved: nat, spaces: Spaces, id: nat)
    requires KernelOk(m, t, held, reserved, spaces) && id in spaces
    requires m'.ram == m.ram && Sound(m', t - SpaceNodes(t, id), held, reserved)
    ensures KernelOk(m', t - SpaceNodes(t, id), held, reserved, spaces - {id})
    ensures ImagesOf(m', t - SpaceNodes(t, id), spaces - {id}) == ImagesOf(m, t, spaces) - {id}
  {
    hide *;
    Parts(m, t, held, reserved, spaces);
    ExitOthers(m, t, m', t - SpaceNodes(t, id), held, spaces, id);
    ExitTree(t, spaces.Keys, id);
    Remove(m, t, m', t - SpaceNodes(t, id), held, reserved, spaces, id);
  }

  lemma Remove(m: Mem, t: Tree, m': Mem, t': Tree, held: seq<nat>, reserved: nat, spaces: Spaces, id: nat)
    requires SpacesOk(m, t, held, spaces) && Sound(m', t', held, reserved)
    requires Owned(t', spaces.Keys - {id}) && Aligned(t') && OthersKept(m, t, m', t', held, spaces, id)
    ensures KernelOk(m', t', held, reserved, spaces - {id})
    ensures ImagesOf(m', t', spaces - {id}) == ImagesOf(m, t, spaces) - {id}
  {
    hide Sound, SpaceOk, ImageOf, Owned, Aligned;
    assert (spaces - {id}).Keys == spaces.Keys - {id};
  }

  /** Every frame gets back exactly the references the space had to it. */
  lemma ExitReturns(m: Mem, t: Tree, m': Mem, held: seq<nat>, reserved: nat, id: nat, f: nat)
    requires Sound(m, t, held, reserved) && Sound(m', t - SpaceNodes(t, id), held, reserved) && f < |m.refs|
    ensures f < |m'.refs| && m'.refs[f] == m.refs[f] - |Named(t, SpaceNodes(t, id), f)|
  {
    hide *;
    SoundSizes(m, t, held, reserved);
    SoundSizes(m', t - SpaceNodes(t, id), held, reserved);
    RefsBound(m, t, held, reserved, f);
    RefsBound(m', t - SpaceNodes(t, id), held, reserved, f);
    HoldersLeft(t, id, f);
  }

  lemma HoldersLeft(t: Tree, id: nat, f: nat)
    ensures |Holders(t, f)| == |Holders(t - SpaceNodes(t, id), f)| + |Named(t, SpaceNodes(t, id), f)|
  {
    assert Holders(t, f) == Holders(t - SpaceNodes(t, id), f) + Named(t, SpaceNodes(t, id), f);
  }

  lemma ExitTree(t: Tree, ids: set<nat>, id: nat)
    requires Owned(t, ids) && Aligned(t)
    ensures Owned(t - SpaceNodes(t, id), ids - {id}) && Aligned(t - SpaceNodes(t, id))
  {
  }

  lemma ExitOthers(m: Mem, t: Tree, m': Mem, t': Tree, held: seq<nat>, spaces: Spaces, id: nat)
    requires SpacesOk(m, t, held, spaces) && m'.ram == m.ram && t' == t - SpaceNodes(t, id)
    ensures OthersKept(m, t, m', t', held, spaces, id)
  {
    hide SpaceOk, ImageOf, SpaceNodes;
    forall i | i in spaces && i != id ensures SpaceOk(m', t', held, spaces[i]) && ImageOf(m', t',
        spaces[i]) == ImageOf(m, t, spaces[i]) {
      SpaceAfterExit(m, t, m', t', held, id, spaces[i]);
    }
  }

  lemma PageAfterExit(m: Mem, t: Tree, m': Mem, t': Tree, held: seq<nat>, id: nat, sp: Space, v: nat)
    requires PageOk(m, t, held, sp, v) && sp.id != id && m'.ram == m.ram && t' == t - SpaceNodes(t, id)
    ensures PageOk(m', t', held, sp, v)
    ensures BlockOf(sp, v).Some? ==> PageView(m', t', sp, v) == PageView(m, t, sp, v)
  {
    assert Pte(m'.ram, t', sp.id, v) == Pte(m.ram, t, sp.id, v);
  }

  lemma SpaceAfterExit(m: Mem, t: Tree, m': Mem, t': Tree, held: seq<nat>, id: nat, sp: Space)
    requires SpaceOk(m, t, held, sp) && sp.id != id && m'.ram == m.ram && t' == t - SpaceNodes(t, id)
    ensures SpaceOk(m', t', held, sp) && ImageOf(m', t', sp) == ImageOf(m, t, sp)
  {
    assert Leaves(t', sp.id) == Leaves(t, sp.id);
    assert Rooted(t', sp.id, sp.root);
    hide PageOk, PageView, Rooted, Leaves, SpaceNodes, BlocksOk, BlockOf;
    forall v | 0 <= v < VPNS
      ensures PageOk(m', t', held, sp, v)
      ensures BlockOf(sp, v).Some? ==> PageView(m', t', sp, v) == PageView(m, t, sp, v)
    {
      PageAfterExit(m, t, m', t', held, id, sp, v);
    }
    ImageSame(m, t, sp, m', t', sp);
  }
}
