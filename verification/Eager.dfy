// The memory every process would have if fork copied it all at once and exec loaded it all at
// once, as a function of what the processes have done; and how reserving a block changes it.
module EagerMemory {
  import opened Words
  import opened PageTree
  import opened FlatMap
  import opened Paging
  import opened Blocks
  import opened Vmm
  import opened Memory
  import opened Fork
  import opened KernelMemory

  /** What changes some process's memory.  Page faults are not among these. */
  datatype Event =
    | Create(id: nat)
    | Reserve(id: nat, file: Option<seq<Byte>>, block: Block)
    | Copy(id: nat, child: nat)
    | Write(id: nat, page: nat, at: nat, byte: Byte)
    | Exit(id: nat)

  /** The pages of a block, read in at once. */
  function Loaded(file: Option<seq<Byte>>, b: Block): Image {
    map v | v in PagesOf(b) :: EagerPage(InitPage(file, b.backing, v), Writable(b.ops))
  }

  function SetByte(c: Page, at: nat, byte: Byte): (r: Page)
    requires at < 4096
  {
    c[at := byte]
  }

  function StoreByte(image: Image, v: nat, at: nat, byte: Byte): Image
    requires v in image && at < 4096
  {
    SetPage(image, v, EagerPage(SetByte(image[v].contents, at, byte), true))
  }

  function EagerStep(images: Images, e: Event): Images {
    match e
    case Create(id) => PutImage(images, id, map[])
    case Reserve(id, file, b) => if id in images then PutImage(images, id, Loaded(file, b) + images[id]) else images
    case Copy(id, child) => if id in images then PutImage(images, child, images[id]) else images
    case Write(id, v, at, byte) =>
      if id in images && v in images[id] && at < 4096 then PutImage(images, id,
          StoreByte(images[id], v, at, byte)) else images
    case Exit(id) => images - {id}
  }

  /** The processes' memory after these events, with eager copying and eager loading. */
  function Eager(log: seq<Event>): Images {
    if log == [] then map[] else EagerStep(Eager(log[..|log| - 1]), log[|log| - 1])
  }

  lemma EagerNext(log: seq<Event>, e: Event)
    ensures Eager(log + [e]) == EagerStep(Eager(log), e)
  {
    assert (log + [e])[..|log|] == log;
  }

  /** A write by one process changes no other process's memory. */
  lemma WritesArePrivate(log: seq<Event>, id: nat, v: nat, at: nat, byte: Byte, other: nat)
    requires other != id
    ensures other in Eager(log) <==> other in Eager(log + [Write(id, v, at, byte)])
    ensures other in Eager(log) ==> Eager(log + [Write(id, v, at, byte)])[other] == Eager(log)[other]
  {
    EagerNext(log, Write(id, v, at, byte));
  }

  /** Eager memory lets this process read, or write, page v. */
  predicate Permitted(images: Images, id: nat, v: nat, write: bool)
    requires id in images
  {
    v in images[id] && (write ==> images[id][v].writable)
  }

  lemma PermittedIs(m: Mem, t: Tree, spaces: Spaces, id: nat, v: nat, write: bool)
    requires id in spaces && v < VPNS && id in ImagesOf(m, t, spaces)
    ensures Permitted(ImagesOf(m, t, spaces), id, v, write) <==>
      BlockOf(spaces[id], v).Some? && (write ==> Writable(BlockOf(spaces[id], v).value.ops))
  {
  }

  // ----- reserving a block -----

  predicate Apart(b: Block, bs: seq<Block>) { forall i :: 0 <= i < |bs| ==> Disjoint(bs[i], b) }

  function AddBlock(a: Areas, section: nat, b: Block): Areas
    requires section < SECTIONS
  {
    a[section := a[section] + [b]]
  }

  lemma {:induction false} FindOne(b: Block, address: nat)
    ensures Find([b], address) == if Contains(b, address) then Some(b) else None
  {
    if !Contains(b, address) { assert [b][1..] == []; }
  }

  lemma FindThree(x: seq<Block>, y: seq<Block>, z: seq<Block>, address: nat)
    ensures Find(x + y + z, address) == if Find(x, address).Some? then Find(x, address) else if Find(y,
        address).Some? then Find(y, address) else Find(z, address)
  {
    FindAppend(x, y, address);
    FindAppend(x + y, z, address);
  }

  /** The new block is found where no old one was, and nowhere else. */
  lemma FindAdded(a: Areas, section: nat, b: Block, address: nat)
    requires section < SECTIONS && Apart(b, Flat(a)) && End(b) == b.vaddr + b.size * PAGE_SIZE
    ensures var r := Find(Flat(AddBlock(a, section, b)), address);
      r == (if Find(Flat(a), address).Some? then Find(Flat(a), address) else if Contains(b,
          address) then Some(b) else None)
  {
    var a' := AddBlock(a, section, b);
    FindThree(a[STACK], a[TEXT], a[DATA], address);
    FindThree(a'[STACK], a'[TEXT], a'[DATA], address);
    FindAppend(a[section], [b], address);
    FindOne(b, address);
    if Contains(b, address) {
      FindSpec(Flat(a), address);
      assert Find(Flat(a), address).None?;
    }
  }

  lemma {:induction false} AddedOk(a: Areas, section: nat, b: Block, file: Option<seq<Byte>>)
    requires section < SECTIONS && BlocksOk(Flat(a), file) && BlockOk(b, file) && Apart(b, Flat(a))
    ensures BlocksOk(Flat(AddBlock(a, section, b)), file)
  {
    var a' := AddBlock(a, section, b);
    var before := if section == STACK then a[STACK] else if section == TEXT then a[STACK] + a[TEXT] else a[STACK] + a[TEXT] + a[DATA];
    var after := if section == STACK then a[TEXT] + a[DATA] else if section == TEXT then a[DATA] else [];
    assert Flat(a) == before + after;
    assert Flat(a') == before + [b] + after;
    Inserted(before, after, b, file);
  }

  lemma Inserted(before: seq<Block>, after: seq<Block>, b: Block, file: Option<seq<Byte>>)
    requires BlocksOk(before + after, file) && BlockOk(b, file) && Apart(b, before + after)
    ensures BlocksOk(before + [b] + after, file)
  {
    var bs, r := before + after, before + [b] + after;
    hide BlockOk, Disjoint;
    forall i, j | 0 <= i < j < |r| ensures Disjoint(r[i], r[j]) {
      var i', j' := if i < |before| then i else i - 1, if j < |before| then j else j - 1;
      if j == |before| {
        assert r[i] == bs[i] && r[j] == b;
      } else if i == |before| {
        assert r[j] == bs[j'] && r[i] == b;
        DisjointBoth(bs[j'], b);
      } else {
        assert r[i] == bs[i'] && r[j] == bs[j'];
      }
    }
    forall i | 0 <= i < |r| ensures BlockOk(r[i], file) {
      if i != |before| { assert r[i] == bs[if i < |before| then i else i - 1]; }
    }
  }

  lemma DisjointBoth(a: Block, b: Block)
    ensures Disjoint(a, b) == Disjoint(b, a)
  {
  }

  lemma BlockOfAdded(sp: Space, section: nat, b: Block, v: nat)
    requires section < SECTIONS && BlocksOk(Flat(sp.areas), sp.file) && BlockOk(b, sp.file) && Apart(b, Flat(sp.areas))
    ensures BlockOf(sp.(areas := AddBlock(sp.areas, section, b)), v) ==
      if BlockOf(sp, v).Some? then BlockOf(sp, v) else if v in PagesOf(b) then Some(b) else None
    ensures v in PagesOf(b) ==> BlockOf(sp, v).None? && v < VPNS
  {
    FindAdded(sp.areas, section, b, v * PAGE_SIZE);
    InBlock(b, sp.file, v);
    FindSpec(Flat(sp.areas), v * PAGE_SIZE);
  }

  lemma ReservedPage(m: Mem, t: Tree, held: seq<nat>, sp: Space, section: nat, b: Block, sp': Space, v: nat)
    requires section < SECTIONS && BlocksOk(Flat(sp.areas), sp.file) && BlockOk(b, sp.file) && Apart(b, Flat(sp.areas))
    requires sp' == sp.(areas := AddBlock(sp.areas, section, b)) && PageOk(m, t, held, sp, v)
    ensures PageOk(m, t, held, sp', v)
    ensures BlockOf(sp, v).Some? ==>
      BlockOf(sp', v) == BlockOf(sp, v) && PageView(m, t, sp', v) == PageView(m, t, sp, v)
    ensures BlockOf(sp, v).None? ==> BlockOf(sp', v) == if v in PagesOf(b) then Some(b) else None
    ensures v in PagesOf(b) ==> BlockOf(sp, v).None? && v < VPNS && BlockOf(sp', v).Some? && PageView(m, t, sp', v) == InitPage(sp.file, b.backing, v)
  {
    BlockOfAdded(sp, section, b, v);
    hide BlockOf, PagesOf, BlockOk, BlocksOk, Apart, AddBlock, Flat, Pte, Present, Writable, Cow, FrameOf, InitPage,
      Content;
  }

  /** Reserving a block makes its pages appear with their initial contents, and nothing else change. */
  lemma ReserveSeen(m: Mem, t: Tree, held: seq<nat>, sp: Space, section: nat, b: Block, sp': Space)
    requires SpaceOk(m, t, held, sp) && section < SECTIONS && BlockOk(b, sp.file) && Apart(b, Flat(sp.areas))
    requires sp' == sp.(areas := AddBlock(sp.areas, section, b))
    ensures SpaceOk(m, t, held, sp')
    ensures ImageOf(m, t, sp') == Loaded(sp.file, b) + ImageOf(m, t, sp)
  {
    AddedOk(sp.areas, section, b, sp.file);
    hide PageOk, PageView, BlockOf, PagesOf, BlockOk, BlocksOk, Apart, AddBlock, Flat, Leaves, Rooted, InitPage,
      Writable;
    forall v | 0 <= v < VPNS
      ensures PageOk(m, t, held, sp', v)
      ensures BlockOf(sp, v).Some? ==>
        BlockOf(sp', v) == BlockOf(sp, v) && PageView(m, t, sp', v) == PageView(m, t, sp, v)
      ensures BlockOf(sp, v).None? ==> BlockOf(sp', v) == if v in PagesOf(b) then Some(b) else None
      ensures v in PagesOf(b) ==>
        BlockOf(sp, v).None? && BlockOf(sp', v).Some? && PageView(m, t, sp', v) == InitPage(sp.file, b.backing, v)
    {
      ReservedPage(m, t, held, sp, section, b, sp', v);
    }
    forall v | v in PagesOf(b) ensures 0 <= v < VPNS {
      BlockOfAdded(sp, section, b, v);
    }
    var image, image' := ImageOf(m, t, sp), ImageOf(m, t, sp');
    assert image'.Keys == (Loaded(sp.file, b) + image).Keys;
  }

  lemma KernelReserve(m: Mem, t: Tree, held: seq<nat>, reserved: nat, spaces: Spaces, id: nat, section: nat, b: Block,
          sp': Space)
    requires KernelOk(m, t, held, reserved, spaces) && id in spaces && section < SECTIONS
    requires BlockOk(b, spaces[id].file) && Apart(b, Flat(spaces[id].areas))
    requires sp' == spaces[id].(areas := AddBlock(spaces[id].areas, section, b))
    ensures KernelOk(m, t, held, reserved, PutSpace(spaces, id, sp')) && id in ImagesOf(m, t, spaces)
    ensures ImagesOf(m, t, PutSpace(spaces, id, sp')) == EagerStep(ImagesOf(m, t, spaces),
        Reserve(id, spaces[id].file, b))
  {
    hide *;
    Parts(m, t, held, reserved, spaces);
    SameId(spaces[id], sp', AddBlock(spaces[id].areas, section, b));
    ReserveSeen(m, t, held, spaces[id], section, b, sp');
    SpaceChanged(m, t, held, reserved, spaces, sp');
    SameImage(m, t, spaces, id);
    InImages(m, t, spaces, id);
    ReserveStep(ImagesOf(m, t, spaces), id, spaces[id].file, b);
  }

  lemma SameId(sp: Space, sp': Space, a: Areas)
    requires sp' == sp.(areas := a)
    ensures sp'.id == sp.id
  {
  }

  lemma ReserveStep(images: Images, id: nat, file: Option<seq<Byte>>, b: Block)
    requires id in images
    ensures EagerStep(images, Reserve(id, file, b)) == PutImage(images, id, Loaded(file, b) + images[id])
  {
  }

  /** Only the block list or the file of one space changed. */
  lemma SpaceChanged(m: Mem, t: Tree, held: seq<nat>, reserved: nat, spaces: Spaces, sp': Space)
    requires KernelOk(m, t, held, reserved, spaces) && sp'.id in spaces && SpaceOk(m, t, held, sp')
    ensures KernelOk(m, t, held, reserved, PutSpace(spaces, sp'.id, sp'))
    ensures ImagesOf(m, t, PutSpace(spaces, sp'.id, sp')) == PutImage(ImagesOf(m, t, spaces), sp'.id,
        ImageOf(m, t, sp'))
  {
    hide *;
    Parts(m, t, held, reserved, spaces);
    Unmoved(m, t, held, spaces, sp'.id);
    Assemble(m, t, m, t, held, reserved, spaces, sp');
  }

  lemma Unmoved(m: Mem, t: Tree, held: seq<nat>, spaces: Spaces, id: nat)
    requires SpacesOk(m, t, held, spaces) && id in spaces && Owned(t, spaces.Keys)
    ensures OthersKept(m, t, m, t, held, spaces, id) && Owned(t, spaces.Keys + {id})
  {
    hide SpaceOk, ImageOf;
  }

  // ----- the backing file -----

  lemma FilePage(m: Mem, t: Tree, held: seq<nat>, sp: Space, sp': Space, v: nat)
    requires BlocksOk(Flat(sp.areas), None) && sp.file == None && sp' == sp.(file := sp'.file)
    requires PageOk(m, t, held, sp, v)
    ensures PageOk(m, t, held, sp', v)
    ensures BlockOf(sp, v).Some? ==> BlockOf(sp', v).Some? && PageView(m, t, sp', v) == PageView(m, t, sp, v)
  {
    SameBlocks(sp, sp');
    FindSpec(Flat(sp.areas), v * PAGE_SIZE);
    if BlockOf(sp, v).Some? {
      assert BlockOk(BlockOf(sp, v).value, None);
      AnonPage(sp.file, v);
      AnonPage(sp'.file, v);
    }
    hide InitPage, Pte, Present, Writable, Cow, FrameOf, Flat, Find, BlockOk;
  }

  /** Attaching the backing file to a space that has none changes no page. */
  lemma FileSeen(m: Mem, t: Tree, held: seq<nat>, sp: Space, sp': Space)
    requires SpaceOk(m, t, held, sp) && sp.file == None && sp' == sp.(file := sp'.file)
    ensures SpaceOk(m, t, held, sp') && ImageOf(m, t, sp') == ImageOf(m, t, sp)
  {
    assert BlocksOk(Flat(sp'.areas), sp'.file);
    hide PageOk, PageView, BlockOf, BlockOk, BlocksOk, Flat, Leaves, Rooted, Disjoint;
    forall v | 0 <= v < VPNS
      ensures PageOk(m, t, held, sp', v)
      ensures BlockOf(sp, v).Some? ==> BlockOf(sp', v).Some? && PageView(m, t, sp', v) == PageView(m, t, sp, v)
    {
      FilePage(m, t, held, sp, sp', v);
    }
    ImageSame(m, t, sp, m, t, sp');
  }

  lemma KernelFile(m: Mem, t: Tree, held: seq<nat>, reserved: nat, spaces: Spaces, id: nat, sp': Space)
    requires KernelOk(m, t, held, reserved, spaces) && id in spaces && spaces[id].file == None
    requires sp' == spaces[id].(file := sp'.file)
    ensures KernelOk(m, t, held, reserved, PutSpace(spaces, id, sp'))
    ensures ImagesOf(m, t, PutSpace(spaces, id, sp')) == ImagesOf(m, t, spaces)
  {
    assert sp'.id == spaces[id].id;
    hide *;
    Parts(m, t, held, reserved, spaces);
    FileSeen(m, t, held, spaces[id], sp');
    SpaceChanged(m, t, held, reserved, spaces, sp');
    SameImage(m, t, spaces, id);
  }
}
