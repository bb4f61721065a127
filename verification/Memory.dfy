// What user programs see of their memory, and the invariant that makes shared frames safe.
module Memory {
  import opened Words
  import opened PageTree
  import opened FlatMap
  import opened Paging
  import opened Blocks
  import opened Vmm

  /** A page of a process under eager copying and eager loading: bytes and permission. */
  datatype EagerPage = EagerPage(contents: Page, writable: bool)

  type Image = map<nat, EagerPage>

  /** The image with page v replaced. */
  function SetPage(image: Image, v: nat, page: EagerPage): Image { image[v := page] }

  function BlockOf(sp: Space, v: nat): Option<Block> { Find(Flat(sp.areas), v * PAGE_SIZE) }

  /** The bytes a process reads at page v: its frame if it has one, else what demand filling would bring in. */
  function PageView(m: Mem, t: Tree, sp: Space, v: nat): Page
    requires BlockOf(sp, v).Some?
  {
    var e := Pte(m.ram, t, sp.id, v);
    if Present(e) then Content(m.ram, e) else InitPage(sp.file, BlockOf(sp, v).value.backing, v)
  }

  /** The memory of a process as it would be with nothing shared and nothing left to load. */
  function ImageOf(m: Mem, t: Tree, sp: Space): Image {
    map v | 0 <= v < VPNS && BlockOf(sp, v).Some? :: EagerPage(PageView(m, t, sp, v),
        Writable(BlockOf(sp, v).value.ops))
  }

  lemma ImageSame(m: Mem, t: Tree, sp: Space, m': Mem, t': Tree, sp': Space)
    requires sp'.areas == sp.areas
    requires forall v :: 0 <= v < VPNS && BlockOf(sp, v).Some? ==>
      BlockOf(sp', v).Some? && PageView(m', t', sp', v) == PageView(m, t, sp, v)
    ensures ImageOf(m', t', sp') == ImageOf(m, t, sp)
  {
    var image, image' := ImageOf(m, t, sp), ImageOf(m', t', sp');
    assert forall v :: BlockOf(sp', v) == BlockOf(sp, v);
    assert image.Keys == image'.Keys;
  }

  // ----- the invariant -----

  /** Nobody but n names n's frame. */
  ghost predicate Sole(t: Tree, n: Node)
    requires n in t
  {
    forall k :: k in t && t[k] == t[n] ==> k == n
  }

  /** A present page lies in a block; it is writable now or after one copy-on-write fault exactly when the
      block is; and a frame that can be written through an entry is referred to by that entry alone. */
  ghost predicate PageOk(m: Mem, t: Tree, held: seq<nat>, sp: Space, v: nat) {
    var e := Pte(m.ram, t, sp.id, v);
    Present(e) ==>
      && BlockOf(sp, v).Some?
      && (Writable(e) || Cow(e) <==> Writable(BlockOf(sp, v).value.ops)) && !(Writable(e) && Cow(e))
      && FrameOf(e) < |held| && held[FrameOf(e)] == 0
      && (Writable(e) ==> LeafNode(sp.id, v) in t && Sole(t, LeafNode(sp.id, v)))
  }

  /** The pages mapped by space s. */
  function Leaves(t: Tree, s: nat): set<Node> { set n | n in t && n.space == s && |n.path| == DEPTH }

  ghost predicate SpaceOk(m: Mem, t: Tree, held: seq<nat>, sp: Space) {
    && Rooted(t, sp.id, sp.root)
    && BlocksOk(Flat(sp.areas), sp.file)
    && (forall v :: 0 <= v < VPNS ==> PageOk(m, t, held, sp, v))
    && sp.total == |Leaves(t, sp.id)|
  }

  /** Frames are shared at one page number only, so a count never exceeds the number of spaces. */
  ghost predicate Aligned(t: Tree) {
    forall k, n :: k in t && n in t && t[k] == t[n] ==> k.path == n.path
  }

  ghost predicate Owned(t: Tree, ids: set<nat>) { forall n :: n in t ==> n.space in ids }

  // ----- steps that only add fresh frames -----

  /** Every node of t' is a node of t, or has a frame that t did not name; among the latter, `leaf` is the only page. */
  ghost predicate Extends(t: Tree, t': Tree, leaf: Node) {
    forall k :: k in t' ==>
      (k in t && t[k] == t'[k]) || ((forall j :: j in t ==> t[j] != t'[k]) && (IsTable(k) || k == leaf))
  }

  lemma SoleStays(t: Tree, t': Tree, leaf: Node, n: Node)
    requires Extends(t, t', leaf) && n in t && n in t' && t'[n] == t[n] && Sole(t, n)
    ensures Sole(t', n)
  {
  }

  lemma PageOkStays(m: Mem, t: Tree, m': Mem, t': Tree, held: seq<nat>, sp: Space, sp': Space, v: nat, leaf: Node)
    requires PageOk(m, t, held, sp, v) && SamePage(m.ram, t, m'.ram, t', sp.id, v) && Extends(t, t', leaf)
    requires sp'.id == sp.id && sp'.areas == sp.areas
    requires LeafNode(sp.id, v) in t ==> LeafNode(sp.id, v) in t' && t'[LeafNode(sp.id, v)] == t[LeafNode(sp.id, v)]
    ensures PageOk(m', t', held, sp', v)
  {
    var e := Pte(m.ram, t, sp.id, v);
    if Present(e) && Writable(e) { SoleStays(t, t', leaf, LeafNode(sp.id, v)); }
  }

  lemma ViewStays(m: Mem, t: Tree, m': Mem, t': Tree, sp: Space, sp': Space, v: nat)
    requires SamePage(m.ram, t, m'.ram, t', sp.id, v) && BlockOf(sp, v).Some?
    requires sp'.id == sp.id && sp'.areas == sp.areas && sp'.file == sp.file
    ensures PageView(m', t', sp', v) == PageView(m, t, sp, v)
  {
  }

  lemma GrownExtends(m': Mem, t: Tree, t': Tree, held: seq<nat>, reserved: nat, s: nat, v: nat)
    requires Grown(t, t', s, v, 4) && Sound(m', t', held, reserved)
    requires LeafNode(s, v) in t' && LeafNode(s, v) !in t ==> forall j :: j in t ==> t[j] != t'[LeafNode(s, v)]
    ensures Extends(t, t', LeafNode(s, v))
  {
    LeafPath(s, v);
    forall k | k in t' && k !in t
      ensures (forall j :: j in t ==> t[j] != t'[k]) && (IsTable(k) || k == LeafNode(s, v))
    {
      assert NodeOk(t', k, |m'.ram|);
      if IsTable(k) {
        forall j | j in t ensures t[j] != t'[k] {
          assert t'[j] == t[j];
        }
      }
    }
  }

  lemma AlignedStays(t: Tree, t': Tree, leaf: Node, size: nat, held: seq<nat>)
    requires Aligned(t) && Extends(t, t', leaf) && Shaped(t', |held|) && Exclusive(t', held)
    ensures Aligned(t')
  {
    forall k, n | k in t' && n in t' && t'[k] == t'[n] ensures k.path == n.path {
      if IsTable(k) || IsTable(n) {
        assert k == n;
      }
    }
  }

  /** A step that changes at most the page mapped at `leaf`, and otherwise only adds fresh tables. */
  ghost predicate Step(m: Mem, t: Tree, m': Mem, t': Tree, leaf: Node) {
    && Undisturbed(m.ram, t, m'.ram, t', {leaf})
    && Extends(t, t', leaf)
    && (forall k :: k in t && k != leaf ==> k in t' && t'[k] == t[k])
  }

  lemma OtherPage(m: Mem, t: Tree, m': Mem, t': Tree, held: seq<nat>, sp: Space, sp': Space, v: nat, leaf: Node)
    requires Step(m, t, m', t', leaf) && LeafNode(sp.id, v) != leaf && PageOk(m, t, held, sp, v)
    requires sp'.id == sp.id && sp'.areas == sp.areas && sp'.file == sp.file
    ensures PageOk(m', t', held, sp', v)
    ensures BlockOf(sp, v).Some? ==> PageView(m', t', sp', v) == PageView(m, t, sp, v)
  {
    assert SamePage(m.ram, t, m'.ram, t', sp.id, v);
    PageOkStays(m, t, m', t', held, sp, sp', v, leaf);
    if BlockOf(sp, v).Some? { ViewStays(m, t, m', t', sp, sp', v); }
  }

  /** A step on another space's page leaves this space intact. */
  lemma OtherSpace(m: Mem, t: Tree, m': Mem, t': Tree, held: seq<nat>, sp: Space, leaf: Node)
    requires Step(m, t, m', t', leaf) && SpaceOk(m, t, held, sp) && leaf.space != sp.id
    requires forall k :: k in t' && k !in t && k.space == sp.id ==> IsTable(k)
    ensures SpaceOk(m', t', held, sp) && ImageOf(m', t', sp) == ImageOf(m, t, sp)
  {
    forall v | 0 <= v < VPNS
      ensures PageOk(m', t', held, sp, v)
      ensures BlockOf(sp, v).Some? ==> PageView(m', t', sp, v) == PageView(m, t, sp, v)
    {
      OtherPage(m, t, m', t', held, sp, sp, v, leaf);
    }
    assert Leaves(t', sp.id) == Leaves(t, sp.id);
    assert ImageOf(m', t', sp) == ImageOf(m, t, sp);
  }

  /** A step on this space's page v: only that page's view can change. */
  lemma OwnSpace(m: Mem, t: Tree, m': Mem, t': Tree, held: seq<nat>, sp: Space, sp': Space, v: nat)
    requires v < VPNS && BlockOf(sp, v).Some?
    requires Step(m, t, m', t', LeafNode(sp.id, v)) && SpaceOk(m, t, held, sp)
    requires sp' == sp.(total := sp'.total) && sp'.total == |Leaves(t', sp.id)|
    requires Rooted(t', sp.id, sp.root) && PageOk(m', t', held, sp', v)
    ensures SpaceOk(m', t', held, sp')
    ensures ImageOf(m', t', sp') == ImageOf(m, t, sp)[v := EagerPage(PageView(m', t', sp', v), Writable(BlockOf(sp,
        v).value.ops))]
  {
    forall w | 0 <= w < VPNS
      ensures PageOk(m', t', held, sp', w)
      ensures w != v && BlockOf(sp, w).Some? ==> PageView(m', t', sp', w) == PageView(m, t, sp, w)
    {
      if w != v {
        if LeafNode(sp.id, w) == LeafNode(sp.id, v) { LeafInjective(sp.id, w, sp.id, v); }
        OtherPage(m, t, m', t', held, sp, sp', w, LeafNode(sp.id, v));
      }
    }
    SameBlocks(sp, sp');
    var image, image' := ImageOf(m, t, sp)[v := EagerPage(PageView(m', t', sp', v), Writable(BlockOf(sp,
        v).value.ops))], ImageOf(m', t', sp');
    assert image.Keys == image'.Keys;
  }

  /** When that page reads the same too, the whole image is the same. */
  lemma OwnSpaceSame(m: Mem, t: Tree, m': Mem, t': Tree, held: seq<nat>, sp: Space, sp': Space, v: nat)
    requires v < VPNS && BlockOf(sp, v).Some? && BlockOf(sp', v).Some?
    requires Step(m, t, m', t', LeafNode(sp.id, v)) && SpaceOk(m, t, held, sp)
    requires sp' == sp.(total := sp'.total) && sp'.total == |Leaves(t', sp.id)|
    requires Rooted(t', sp.id, sp.root) && PageOk(m', t', held, sp', v)
    requires PageView(m', t', sp', v) == PageView(m, t, sp, v)
    ensures SpaceOk(m', t', held, sp') && ImageOf(m', t', sp') == ImageOf(m, t, sp)
  {
    hide Step, SpaceOk, PageOk, PageView, Find, Leaves, Rooted;
    OwnSpace(m, t, m', t', held, sp, sp', v);
    var image := ImageOf(m, t, sp);
    assert v in image;
    assert image == image[v := image[v]];
  }

  lemma SameBlocks(sp: Space, sp': Space)
    requires sp'.areas == sp.areas
    ensures forall v :: BlockOf(sp', v) == BlockOf(sp, v)
  {
  }

  // ----- demand faults -----

  lemma FaultStep(m: Mem, t: Tree, m': Mem, t': Tree, held: seq<nat>, reserved: nat, sp: Space, v: nat, b: Block)
    requires FaultFilled(m, t, m', t', held, sp, v, b) && Sound(m', t', held, reserved)
    ensures Step(m, t, m', t', LeafNode(sp.id, v))
    ensures forall k :: k in t' && k !in t ==> k.space == sp.id
    ensures Leaves(t', sp.id) == Leaves(t, sp.id) + {LeafNode(sp.id, v)}
  {
    LeafPath(sp.id, v);
    GrownExtends(m', t, t', held, reserved, sp.id, v);
  }

  lemma FaultSole(m: Mem, t: Tree, m': Mem, t': Tree, held: seq<nat>, reserved: nat, sp: Space, v: nat, b: Block)
    requires Sound(m', t', held, reserved) && FaultFilled(m, t, m', t', held, sp, v, b)
    ensures LeafNode(sp.id, v) in t' && Sole(t', LeafNode(sp.id, v))
  {
    FaultStep(m, t, m', t', held, reserved, sp, v, b);
  }

  lemma FaultFlags(f: nat, ops: Word)
    requires f < MAX_FRAME && (ops == USER || ops == READ_WRITE + USER)
    ensures var e := MakeEntry(f, ops + PRESENT);
      Present(e) && (Writable(e) <==> Writable(ops)) && !Cow(e) && FrameOf(e) == f
  {
    PresentFlags(ops);
  }

  lemma FaultPage(m: Mem, t: Tree, m': Mem, t': Tree, held: seq<nat>, sp: Space, sp': Space, v: nat, b: Block)
    requires FaultFilled(m, t, m', t', held, sp, v, b) && Sole(t', LeafNode(sp.id, v))
    requires !Present(Pte(m.ram, t, sp.id, v))
    requires BlockOf(sp, v) == Some(b) && BlockOk(b, sp.file) && sp' == sp.(total := sp'.total)
    ensures PageOk(m', t', held, sp', v)
    ensures PageView(m', t', sp', v) == PageView(m, t, sp, v)
  {
    FaultFlags(FrameOf(Pte(m'.ram, t', sp.id, v)), b.ops);
    SameBlocks(sp, sp');
    hide Grown, Undisturbed, Pte, Sole, LeafNode, FlagsOf, FrameOf, Present, Writable, Cow, MakeEntry, InitPage,
      Content, Find;
    assert BlockOf(sp', v) == Some(b);
  }

  /** A demand fault gives the page a frame without changing what any process reads. */
  lemma FaultPreserves(m: Mem, t: Tree, m': Mem, t': Tree, held: seq<nat>, reserved: nat, sp: Space, v: nat, b: Block)
    requires Sound(m, t, held, reserved) && Sound(m', t', held, reserved) && SpaceOk(m, t, held, sp)
    requires v < VPNS && BlockOf(sp, v) == Some(b) && FaultFilled(m, t, m', t', held, sp, v, b)
    ensures SpaceOk(m', t', held, sp.(total := sp.total + 1))
    ensures ImageOf(m', t', sp.(total := sp.total + 1)) == ImageOf(m, t, sp)
  {
    hide *;
    var sp' := sp.(total := sp.total + 1);
    FaultStep(m, t, m', t', held, reserved, sp, v, b);
    FaultSole(m, t, m', t', held, reserved, sp, v, b);
    FaultAccount(m, t, m', t', held, reserved, sp, sp', v, b);
    FaultPage(m, t, m', t', held, sp, sp', v, b);
    OwnSpaceSame(m, t, m', t', held, sp, sp', v);
  }

  lemma FaultAccount(m: Mem, t: Tree, m': Mem, t': Tree, held: seq<nat>, reserved: nat, sp: Space, sp': Space, v: nat,
          b: Block)
    requires Sound(m, t, held, reserved) && SpaceOk(m, t, held, sp) && BlockOf(sp, v) == Some(b)
    requires FaultFilled(m, t, m', t', held, sp, v, b)
    requires Leaves(t', sp.id) == Leaves(t, sp.id) + {LeafNode(sp.id, v)} && sp' == sp.(total := sp.total + 1)
    ensures Rooted(t', sp.id, sp.root) && sp' == sp.(total := sp'.total) && sp'.total == |Leaves(t', sp.id)|
    ensures BlockOk(b, sp.file) && BlockOf(sp, v).Some? && BlockOf(sp', v).Some? && !Present(Pte(m.ram, t, sp.id, v))
  {
    PteMeaning(m, t, held, reserved, sp.id, v);
    FindSpec(Flat(sp.areas), v * PAGE_SIZE);
    SameBlocks(sp, sp');
  }

  /** A refused fault changes nothing anybody can see. */
  lemma RefusalStep(m: Mem, t: Tree, m': Mem, t': Tree, held: seq<nat>, reserved: nat, s: nat, v: nat)
    requires Sound(m', t', held, reserved) && FaultRefused(m, t, m', t', s, v)
    ensures Step(m, t, m', t', LeafNode(s, v))
    ensures forall k :: k in t' && k !in t ==> k.space == s && IsTable(k)
    ensures Leaves(t', s) == Leaves(t, s)
  {
    LeafPath(s, v);
    GrownExtends(m', t, t', held, reserved, s, v);
  }

  // ----- copy-on-write faults -----

  lemma CowStep(m: Mem, t: Tree, m': Mem, t': Tree, held: seq<nat>, s: nat, v: nat)
    requires CowResolved(m, t, m', t', held, s, v)
    ensures Step(m, t, m', t', LeafNode(s, v))
    ensures t'.Keys == t.Keys && Leaves(t', s) == Leaves(t, s)
  {
    var n := LeafNode(s, v);
    assert forall j :: j in t && j != n ==> t'[j] == t[j];
  }

  /** Resolving a copy-on-write fault makes the page writable without changing what any process reads. */
  lemma CowPreserves(m: Mem, t: Tree, m': Mem, t': Tree, held: seq<nat>, sp: Space, v: nat)
    requires SpaceOk(m, t, held, sp) && v < VPNS && CowResolved(m, t, m', t', held, sp.id, v)
    ensures SpaceOk(m', t', held, sp) && ImageOf(m', t', sp) == ImageOf(m, t, sp)
    ensures BlockOf(sp, v).Some? && Writable(BlockOf(sp, v).value.ops)
  {
    CowStep(m, t, m', t', held, sp.id, v);
    assert PageOk(m, t, held, sp, v);
    OwnSpaceSame(m, t, m', t', held, sp, sp, v);
  }

  // ----- stores -----

  /** A byte stored through a writable entry changes that byte of that process and nothing else. */
  lemma StoreSeen(m: Mem, t: Tree, held: seq<nat>, reserved: nat, sp: Space, v: nat, c: Page, m': Mem)
    requires Sound(m, t, held, reserved) && SpaceOk(m, t, held, sp) && v < VPNS
    requires Present(Pte(m.ram, t, sp.id, v)) && Writable(Pte(m.ram, t, sp.id, v))
    requires FrameOf(Pte(m.ram, t, sp.id, v)) < |m.ram| && m' == Fill(m, FrameOf(Pte(m.ram, t, sp.id, v)), c)
    ensures Sound(m', t, held, reserved) && Step(m, t, m', t, LeafNode(sp.id, v))
    ensures SpaceOk(m', t, held, sp) && BlockOf(sp, v).Some?
    ensures ImageOf(m', t, sp) == SetPage(ImageOf(m, t, sp), v, EagerPage(c, true))
  {
    var n, f := LeafNode(sp.id, v), FrameOf(Pte(m.ram, t, sp.id, v));
    PteMeaning(m, t, held, reserved, sp.id, v);
    assert PageOk(m, t, held, sp, v);
    FillSound(m, t, held, reserved, f, c);
    StoreReads(m, t, held, reserved, n, f, c, m');
    assert PageOk(m', t, held, sp, v) && PageView(m', t, sp, v) == c;
    hide Sound, Sized, Bitmapped, Counted, Shaped, Exclusive, Linked, Holders, PageOk, Step, PageView;
    OwnSpace(m, t, m', t, held, sp, sp, v);
  }

  lemma StoreReads(m: Mem, t: Tree, held: seq<nat>, reserved: nat, n: Node, f: nat, c: Page, m': Mem)
    requires Sound(m, t, held, reserved) && n in t && !IsTable(n) && t[n] == f && Sole(t, n) && f < |m.ram|
    requires m' == Fill(m, f, c)
    ensures Step(m, t, m', t, n)
    ensures forall s: nat, v: nat :: Pte(m'.ram, t, s, v) == Pte(m.ram, t, s, v)
  {
    forall s: nat, v: nat
      ensures Pte(m'.ram, t, s, v) == Pte(m.ram, t, s, v)
      ensures LeafNode(s, v) != n ==> SamePage(m.ram, t, m'.ram, t, s, v)
    {
      PteMeaning(m, t, held, reserved, s, v);
      assert |TableNode(s, v, 3).path| == 3;
    }
  }
}
