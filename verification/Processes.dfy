// The processes and their address spaces, changed in place: fork, page faults, user loads and
// stores, block reservation and exit.  After any sequence of these calls every process's memory is
// what eager copying and eager loading would have made it.
module Processes {
  import opened Words
  import opened PageTree
  import opened FlatMap
  import opened Pmem
  import Bitmap
  import opened Paging
  import opened Teardown
  import opened Blocks
  import opened Vmm
  import opened Memory
  import opened Fork
  import opened KernelMemory
  import opened EagerMemory

  const MAX_TASKS: nat := 1024
  const CANONICAL: nat := 0x1_0000_0000_0000

  lemma OneFrameLess(m: Mem, f: nat, m': Mem)
    requires f < |m.used| == |m.refs| && !m.used[f] && f < |m.ram| && m' == Fill(Alloc(m, f), f, ZeroPage())
    ensures |FreeFrames(m.used)| == |FreeFrames(m'.used)| + 1
  {
    assert FreeFrames(m.used) == FreeFrames(m'.used) + {f};
  }

  lemma CreateStep(images: Images, id: nat, root: nat)
    ensures EagerStep(images, Create(id)) == PutImage(images, id, map[])
    ensures EmptySpace(id, root) == Space(id, root, [[], [], []], 0, None)
  {
  }

  lemma Fields(mm: VmmMap)
    ensures mm.Value() == Space(mm.id, mm.root, mm.areas, mm.total, mm.file)
  {
  }

  function PageOf(address: nat): nat { address / PAGE_SIZE }

  lemma PageNumber(address: nat)
    requires address < CANONICAL
    ensures address < 0x1_0000_0000_0000 && PageOf(address) == address / PAGE_SIZE < VPNS
  {
  }

  lemma StillAbsent(m: Mem, t: Tree, m': Mem, t': Tree, id: nat, v: nat)
    requires FaultRefused(m, t, m', t', id, v)
    ensures LeafNode(id, v) in t' ==> LeafNode(id, v) in t
  {
  }

  lemma UsableIs(ram: seq<Page>, t: Tree, id: nat, v: nat, write: bool)
    ensures Usable(ram, t, id, v, write) <==> Present(Pte(ram, t, id, v)) && (write ==> Writable(Pte(ram, t, id, v)))
  {
  }

  lemma InTable(v: nat)
    ensures v % 512 < ENTRIES
  {
  }

  lemma Fewer<T>(table: map<nat, T>, id: nat)
    ensures |table - {id}| <= |table|
  {
    SubsetSize((table - {id}).Keys, table.Keys);
    assert |table.Keys| == |table| && |(table - {id}).Keys| == |table - {id}|;
  }

  /** page_ops & ~PAGE_PRESENT. */
  function DropPresent(ops: Word): Word { if Present(ops) then ops - PRESENT else ops }

  function FileBlock(vaddr: nat, size: nat, ops: Word, file_vaddr: nat, file_offset: nat, file_size: nat): Block {
    Block(vaddr, size, DropPresent(ops), true, File(file_vaddr, file_offset, file_size))
  }

  lemma FileBlockIs(vaddr: nat, size: nat, ops: Word, file_vaddr: nat, file_offset: nat, file_size: nat)
    ensures FileBlock(vaddr, size, ops, file_vaddr, file_offset, file_size) ==
      Block(vaddr, size, DropPresent(ops), true, File(file_vaddr, file_offset, file_size))
  {
  }

  lemma Appended(a: Areas, section: nat, b: Block)
    requires section < SECTIONS
    ensures section < |a| && a[section := a[section] + [b]] == AddBlock(a, section, b)
  {
  }

  /** For blocks that do not wrap around, meeting is not being disjoint. */
  lemma MeetsIs(bs: seq<Block>, b: Block, file: Option<seq<Byte>>)
    requires BlocksOk(bs, file) && BlockOk(b, file)
    ensures (b.vaddr + b.size * PAGE_SIZE) % WRAP >= b.vaddr
    ensures (exists c :: c in bs && Meets(b.vaddr, b.size, c)) <==> exists c :: c in bs && !Disjoint(c, b)
    ensures !(exists c :: c in bs && !Disjoint(c, b)) ==> EagerMemory.Apart(b, bs)
  {
    forall c | c in bs ensures Meets(b.vaddr, b.size, c) <==> !Disjoint(c, b) {
    }
  }

  lemma SharedHeld(m: Mem, t: Tree, m': Mem, t': Tree, h0: seq<nat>, h: seq<nat>, reserved: nat, sp: Space, dst: nat,
          ids: set<nat>)
    requires Forking(m, t, h0, m', t', h, reserved, sp, dst, ids, PagesOfAll(Flat(sp.areas)))
    ensures h == h0
  {
  }

  lemma InOnce(ids: set<nat>, id: nat)
    requires id in ids
    ensures ids + {id} == ids
  {
  }

  lemma RootOf(m: Mem, t: Tree, held: seq<nat>, sp: Space)
    requires SpaceOk(m, t, held, sp)
    ensures Rooted(t, sp.id, sp.root) && BlocksOk(Flat(sp.areas), sp.file)
  {
  }

  /** The entry of page v allows the access. */
  predicate Usable(ram: seq<Page>, t: Tree, id: nat, v: nat, write: bool) {
    Present(Pte(ram, t, id, v)) && (write ==> Writable(Pte(ram, t, id, v)))
  }

  lemma FilledUsable(m: Mem, t: Tree, m': Mem, t': Tree, held: seq<nat>, sp: Space, address: nat, write: bool)
    requires address < CANONICAL && BlocksOk(Flat(sp.areas), sp.file) && FaultAllowed(sp, address, write)
    requires FaultFilled(m, t, m', t', held, sp, address / PAGE_SIZE, BlockAt(sp, address))
    ensures BlockOf(sp, address / PAGE_SIZE) == Some(BlockAt(sp, address)) && address / PAGE_SIZE < VPNS
    ensures Usable(m'.ram, t', sp.id, address / PAGE_SIZE, write)
  {
    FindSpec(Flat(sp.areas), address - address % PAGE_SIZE);
    assert address - address % PAGE_SIZE == address / PAGE_SIZE * PAGE_SIZE;
    PresentFlags(BlockAt(sp, address).ops);
    hide Find, Flat, Grown, Undisturbed, LeafNode, Pte, FlagsOf, FrameOf, Present, Writable, Cow, Content, InitPage;
  }

  lemma ResolvedUsable(m: Mem, t: Tree, m': Mem, t': Tree, held: seq<nat>, id: nat, v: nat, write: bool)
    requires CowResolved(m, t, m', t', held, id, v)
    ensures Usable(m'.ram, t', id, v, write)
  {
  }

  lemma AllowedIs(sp: Space, address: nat, write: bool)
    ensures FaultAllowed(sp, address, write) <==>
      BlockOf(sp, address / PAGE_SIZE).Some? && (write ==> Writable(BlockOf(sp, address / PAGE_SIZE).value.ops))
  {
    assert address - address % PAGE_SIZE == address / PAGE_SIZE * PAGE_SIZE;
  }

  lemma DemandReady(m: Mem, t: Tree, held: seq<nat>, reserved: nat, spaces: Spaces, id: nat, address: nat)
    requires KernelOk(m, t, held, reserved, spaces) && id in spaces && address < CANONICAL
    ensures Rooted(t, id, spaces[id].root) && BlocksFit(Flat(spaces[id].areas), spaces[id].file)
    ensures PageOf(address) == address / PAGE_SIZE
    ensures OneMorePage(spaces[id]) == spaces[id].(total := spaces[id].total + 1)
  {
    hide Sound, Owned, Aligned, PageOk, Rooted;
    assert BlocksOk(Flat(spaces[id].areas), spaces[id].file);
  }

  lemma DemandFilled(m: Mem, t: Tree, m': Mem, t': Tree, held: seq<nat>, reserved: nat, spaces: Spaces, id: nat,
          address: nat, write: bool)
    requires KernelOk(m, t, held, reserved, spaces) && Sound(m', t', held, reserved) && id in spaces
    requires address < CANONICAL
    requires FaultAllowed(spaces[id], address, write)
    requires FaultFilled(m, t, m', t', held, spaces[id], PageOf(address), BlockAt(spaces[id], address))
    ensures KernelOk(m', t', held, reserved, PutSpace(spaces, id, OneMorePage(spaces[id])))
    ensures ImagesOf(m', t', PutSpace(spaces, id, OneMorePage(spaces[id]))) == ImagesOf(m, t, spaces)
    ensures Usable(m'.ram, t', id, PageOf(address), write) && id in ImagesOf(m, t, spaces)
    ensures Permitted(ImagesOf(m, t, spaces), id, PageOf(address), write)
  {
    hide *;
    Parts(m, t, held, reserved, spaces);
    RootOf(m, t, held, spaces[id]);
    PageNumber(address);
    FilledUsable(m, t, m', t', held, spaces[id], address, write);
    KernelFault(m, t, m', t', held, reserved, spaces, id, PageOf(address), BlockAt(spaces[id], address));
    AllowedIs(spaces[id], address, write);
    InImages(m, t, spaces, id);
    PermittedIs(m, t, spaces, id, PageOf(address), write);
  }

  lemma DemandRefused(m: Mem, t: Tree, m': Mem, t': Tree, held: seq<nat>, reserved: nat, spaces: Spaces, id: nat,
          address: nat, write: bool)
    requires KernelOk(m, t, held, reserved, spaces) && Sound(m', t', held, reserved) && id in spaces
    requires address < CANONICAL
    requires FaultRefused(m, t, m', t', id, PageOf(address))
    ensures KernelOk(m', t', held, reserved, PutSpace(spaces, id, spaces[id]))
    ensures ImagesOf(m', t', PutSpace(spaces, id, spaces[id])) == ImagesOf(m, t, spaces)
    ensures id in ImagesOf(m, t, spaces)
    ensures !FaultAllowed(spaces[id], address, write) ==> !Permitted(ImagesOf(m, t, spaces), id, PageOf(address), write)
    ensures LeafNode(id, PageOf(address)) in t' ==> Present(Pte(m.ram, t, id, PageOf(address)))
  {
    hide *;
    Parts(m, t, held, reserved, spaces);
    PageNumber(address);
    PteMeaning(m, t, held, reserved, id, PageOf(address));
    StillAbsent(m, t, m', t', id, PageOf(address));
    KernelRefused(m, t, m', t', held, reserved, spaces, id, PageOf(address));
    AllowedIs(spaces[id], address, write);
    SameImage(m, t, spaces, id);
    InImages(m, t, spaces, id);
    PermittedIs(m, t, spaces, id, PageOf(address), write);
  }

  lemma UsablePermitted(m: Mem, t: Tree, held: seq<nat>, reserved: nat, spaces: Spaces, id: nat, v: nat, write: bool)
    requires KernelOk(m, t, held, reserved, spaces) && id in spaces && v < VPNS && Usable(m.ram, t, id, v, write)
    ensures id in ImagesOf(m, t, spaces) && Permitted(ImagesOf(m, t, spaces), id, v, write)
  {
    hide Sound, Owned, Aligned, BlocksOk, PageOk, Rooted, BlockOf, Pte, Present, Writable, ImagesOf, Permitted;
    PageOfSpace(m, t, held, spaces[id], v);
    PageBlock(m, t, held, spaces[id], v);
    InImages(m, t, spaces, id);
    PermittedIs(m, t, spaces, id, v, write);
  }

  lemma PageBlock(m: Mem, t: Tree, held: seq<nat>, sp: Space, v: nat)
    requires PageOk(m, t, held, sp, v) && Present(Pte(m.ram, t, sp.id, v))
    ensures BlockOf(sp, v).Some? && (Writable(Pte(m.ram, t, sp.id, v)) ==> Writable(BlockOf(sp, v).value.ops))
    ensures Writable(BlockOf(sp, v).value.ops) <==> Writable(Pte(m.ram, t, sp.id, v)) || Cow(Pte(m.ram, t, sp.id, v))
  {
  }

  /** A page its process may write, but whose entry forbids it, is waiting for its copy. */
  lemma WaitsForCopy(m: Mem, t: Tree, held: seq<nat>, reserved: nat, spaces: Spaces, id: nat, v: nat)
    requires KernelOk(m, t, held, reserved, spaces) && id in spaces && v < VPNS && id in ImagesOf(m, t, spaces)
    requires Present(Pte(m.ram, t, id, v)) && !Usable(m.ram, t, id, v, true)
    requires Permitted(ImagesOf(m, t, spaces), id, v, true)
    ensures Cow(Pte(m.ram, t, id, v))
  {
    hide Sound, Owned, Aligned, BlocksOk, PageOk, Rooted, BlockOf, Pte, Present, Writable, Cow, ImagesOf, Permitted;
    PageOfSpace(m, t, held, spaces[id], v);
    PageBlock(m, t, held, spaces[id], v);
    PermittedIs(m, t, spaces, id, v, true);
  }

  /** What a process reads through a present entry is what it has in eager memory. */
  lemma EntryReads(m: Mem, t: Tree, held: seq<nat>, reserved: nat, spaces: Spaces, id: nat, v: nat)
    requires KernelOk(m, t, held, reserved, spaces) && id in spaces && v < VPNS && Present(Pte(m.ram, t, id, v))
    ensures FrameOf(Pte(m.ram, t, id, v)) < |m.ram| && id in ImagesOf(m, t, spaces) && v in ImagesOf(m, t, spaces)[id]
    ensures ImagesOf(m, t, spaces)[id][v].contents == m.ram[FrameOf(Pte(m.ram, t, id, v))]
  {
    hide Sound, Owned, Aligned, BlocksOk, PageOk, Rooted, BlockOf, Pte, Present, Writable, FrameOf;
    PageOfSpace(m, t, held, spaces[id], v);
    PageBlock(m, t, held, spaces[id], v);
    PteMeaning(m, t, held, reserved, id, v);
  }

  /** What the tables and blocks say about page v agrees with an image. */
  ghost predicate AsMapped(m: Mem, t: Tree, sp: Space, v: nat, image: Image) {
    var block, e := Find(Flat(sp.areas), v * PAGE_SIZE), Pte(m.ram, t, sp.id, v);
    && (v in image <==> block.Some?)
    && (v in image ==>
      && (image[v].writable <==> Writable(block.value.ops))
      && (Present(e) ==> FrameOf(e) < |m.ram| && image[v].contents == m.ram[FrameOf(e)] && (image[v].writable <==> Writable(e) || Cow(e)))
      && (!Present(e) ==> image[v].contents == InitPage(sp.file, block.value.backing, v)))
    && (Present(e) ==> v in image)
  }

  lemma ImageMeaning(m: Mem, t: Tree, held: seq<nat>, reserved: nat, spaces: Spaces, id: nat, v: nat)
    requires KernelOk(m, t, held, reserved, spaces) && id in spaces && v < VPNS
    ensures id in ImagesOf(m, t, spaces) && AsMapped(m, t, spaces[id], v, ImagesOf(m, t, spaces)[id])
  {
    hide *;
    Parts(m, t, held, reserved, spaces);
    PageOfSpace(m, t, held, spaces[id], v);
    InImages(m, t, spaces, id);
    SameImage(m, t, spaces, id);
    if Present(Pte(m.ram, t, id, v)) {
      EntryReads(m, t, held, reserved, spaces, id, v);
      PageBlock(m, t, held, spaces[id], v);
    }
    ImagePage(m, t, spaces[id], v);
  }

  lemma ImagePage(m: Mem, t: Tree, sp: Space, v: nat)
    requires v < VPNS
    requires var e := Pte(m.ram, t, sp.id, v); Present(e) ==>
      && FrameOf(e) < |m.ram| && BlockOf(sp, v).Some? && (Writable(BlockOf(sp, v).value.ops) ==> Writable(e) || Cow(e))
      && (Writable(e) ==> Writable(BlockOf(sp, v).value.ops)) && (Cow(e) ==> Writable(BlockOf(sp, v).value.ops))
    ensures AsMapped(m, t, sp, v, ImageOf(m, t, sp))
  {
    hide Find, Flat, Pte, Present, Writable, Cow, FrameOf, InitPage;
  }

  lemma StoreEffect(m: Mem, t: Tree, held: seq<nat>, reserved: nat, spaces: Spaces, id: nat, v: nat, at: nat,
          byte: Byte, m': Mem)
    requires KernelOk(m, t, held, reserved, spaces) && id in spaces && v < VPNS && at < 4096
    requires Usable(m.ram, t, id, v, true)
    requires FrameOf(Pte(m.ram, t, id, v)) < |m.ram|
    requires m' == Fill(m, FrameOf(Pte(m.ram, t, id, v)), SetByte(m.ram[FrameOf(Pte(m.ram, t, id, v))], at, byte))
    ensures KernelOk(m', t, held, reserved, spaces)
    ensures ImagesOf(m', t, spaces) == EagerStep(ImagesOf(m, t, spaces), Write(id, v, at, byte))
  {
    hide KernelOk, Pte, Present, Writable, FrameOf, ImagesOf, Fill, SetByte, SetPage, PutImage;
    EntryReads(m, t, held, reserved, spaces, id, v);
    KernelStore(m, t, held, reserved, spaces, id, v, SetByte(m.ram[FrameOf(Pte(m.ram, t, id, v))], at, byte), m');
  }

  lemma ExitStep(images: Images, id: nat)
    ensures EagerStep(images, Exit(id)) == images - {id}
  {
  }

  /** A space just made is ready to receive the copy. */
  lemma ReadyToFork(m0: Mem, t0: Tree, m: Mem, t: Tree, held: seq<nat>, reserved: nat, spaces0: Spaces, spaces: Spaces,
          id: nat, child: nat, root: nat)
    requires KernelOk(m0, t0, held, reserved, spaces0) && KernelOk(m, t, held, reserved, spaces)
    requires id in spaces0 && child !in spaces0 && spaces.Keys == spaces0.Keys + {child} && |spaces.Keys| <= MAX_TASKS
    requires t == t0[Node(child, []) := root] && id in spaces
    requires |FreeFrames(m0.used)| == |FreeFrames(m.used)| + 1 && |FreeFrames(m0.used)| >= 1 + |InnerTables(t0, id)|
    ensures ForkReady(m, t, held, reserved, spaces[id], child, spaces.Keys) && Rooted(t, child, root)
    ensures spaces.Keys + {child} == spaces.Keys
  {
    hide Sound, SpaceOk, Aligned, FreeFrames, Leaves, InnerTables, Owned, SpacesOk, TableNode, Rooted, KernelOk;
    Parts(m0, t0, held, reserved, spaces0);
    Parts(m, t, held, reserved, spaces);
    OnlyRoot(t0, spaces0.Keys, child, root, t, id);
    InOnce(spaces.Keys, child);
  }

  lemma OnlyRoot(t0: Tree, ids: set<nat>, child: nat, root: nat, t: Tree, id: nat)
    requires Owned(t0, ids) && child !in ids && t == t0[Node(child, []) := root] && id in ids
    ensures InnerTables(t, id) == InnerTables(t0, id) && Rooted(t, child, root)
    ensures TableNode(child, 0, 0) in t && forall n :: n in t && n.space == child ==> n == TableNode(child, 0, 0)
  {
    assert TableNode(child, 0, 0) == Node(child, []);
  }

  lemma NotExhausted(used: seq<bool>)
    requires |FreeFrames(used)| >= 1
    ensures !Exhausted(used)
  {
    assert Exhausted(used) ==> FreeFrames(used) == {};
  }

  lemma CopyStep(images: Images, id: nat, child: nat)
    requires id in images
    ensures EagerStep(images, Copy(id, child)) == PutImage(images, child, images[id])
  {
  }

  lemma EmptyIs(id: nat, root: nat)
    ensures Empty(EmptySpace(id, root)) && EmptySpace(id, root).root == root
  {
  }

  lemma NoSpaces(m: Mem, t: Tree, held: seq<nat>, reserved: nat)
    requires Sound(m, t, held, reserved) && t == map[]
    ensures KernelOk(m, t, held, reserved, map[]) && ImagesOf(m, t, map[]) == map[] == Eager([])
  {
  }

  class Kernel {
    const pm: PhysMem
    var mms: map<nat, VmmMap>
    // What the kernel itself holds of physical memory, and what the processes have done so far.
    ghost const baseline: seq<nat>
    ghost var log: seq<Event>

    ghost function Spaces(): Spaces
      reads this`mms, mms.Values
    {
      map i | i in mms :: mms[i].Value()
    }

    /** Every process's memory as the page tables and the block lists have it. */
    ghost function Images(): Images
      requires pm.Apart()
      reads this, mms.Values, pm, pm.bitmap, pm.refs, pm.ram
    {
      ImagesOf(pm.Abs(), pm.tree, Spaces())
    }

    ghost predicate Shape()
      reads this, mms.Values, pm, pm.bitmap, pm.refs, pm.ram
    {
      pm.Valid() && pm.held == baseline && |mms| <= MAX_TASKS && forall i :: i in mms ==> mms[i].id == i
    }

    ghost predicate Valid()
      reads this, mms.Values, pm, pm.bitmap, pm.refs, pm.ram
    {
      && Shape()
      && KernelOk(pm.Abs(), pm.tree, baseline, pm.reserved, Spaces())
      && Images() == Eager(log)
    }

    /** The invariant, spelled out for a caller. */
    lemma Meaning()
      requires Valid()
      ensures pm.Valid() && pm.held == baseline && |mms| <= MAX_TASKS && pm.Apart()
      ensures KernelOk(pm.Abs(), pm.tree, baseline, pm.reserved, Spaces())
      ensures Images() == Eager(log) == ImagesOf(pm.Abs(), pm.tree, Spaces())
      ensures forall i :: i in mms ==> i in Spaces() && Spaces()[i] == mms[i].Value() && mms[i].id == i
      ensures forall i :: i in mms ==> i in Eager(log)
      ensures Spaces().Keys == mms.Keys == Eager(log).Keys
    {
      hide KernelOk, ImageOf, Eager;
    }

    /** A step is over: its effect on one space, the rest being as before. */
    lemma Changed(before: Spaces, id: nat)
      requires id in mms && before.Keys + {id} == mms.Keys
      requires forall i :: i in before && i != id ==> before[i] == mms[i].Value()
      ensures Spaces() == PutSpace(before, id, mms[id].Value())
    {
    }

    /** Before the first process, with whatever frames the kernel has taken for itself by then. */
    constructor (pm: PhysMem)
      requires pm.Valid() && pm.tree == map[]
      ensures Valid() && this.pm == pm && baseline == pm.held && mms == map[] && log == []
    {
      this.pm := pm;
      mms, log := map[], [];
      baseline := pm.held;
      new;
      pm.Soundness();
      NoSpaces(pm.Abs(), pm.tree, baseline, pm.reserved);
    }

    /** The invariant, put together again. */
    lemma Restore()
      requires pm.Valid() && pm.held == baseline && |mms| <= MAX_TASKS && forall i :: i in mms ==> mms[i].id == i
      requires KernelOk(pm.Abs(), pm.tree, baseline, pm.reserved, Spaces())
      requires ImagesOf(pm.Abs(), pm.tree, Spaces()) == Eager(log)
      ensures Valid()
    {
    }

    /** An event is over and goes into the log. */
    ghost method Record(e: Event)
      requires pm.Valid() && pm.held == baseline && |mms| <= MAX_TASKS && forall i :: i in mms ==> mms[i].id == i
      requires KernelOk(pm.Abs(), pm.tree, baseline, pm.reserved, Spaces())
      requires ImagesOf(pm.Abs(), pm.tree, Spaces()) == EagerStep(Eager(log), e)
      modifies `log
      ensures Valid() && log == old(log) + [e]
    {
      hide *;
      EagerNext(log, e);
      log := log + [e];
      Restore();
    }

    /** The root table of a new space; 0 when no frame is free. */
    method NewRootTable(ghost id: nat) returns (root: nat)
      requires Valid() && id !in mms
      modifies pm`tree, pm`held, pm.bitmap, pm.refs, pm.ram
      ensures pm.Valid() && pm.held == baseline
      ensures root == 0 ==> Valid() && Exhausted(old(pm.Abs()).used)
      ensures root != 0 ==> pm.tree == old(pm.tree)[Node(id, []) := root]
      ensures root != 0 ==> |FreeFrames(old(pm.Abs()).used)| == |FreeFrames(pm.Abs().used)| + 1
      ensures root != 0 ==>
        KernelOk(pm.Abs(), pm.tree, baseline, pm.reserved, PutSpace(Spaces(), id, EmptySpace(id, root)))
      ensures root != 0 ==>
        ImagesOf(pm.Abs(), pm.tree, PutSpace(Spaces(), id, EmptySpace(id, root))) == EagerStep(Eager(log), Create(id))
    {
      hide *;
      Meaning();
      ghost var m, t, spaces := pm.Abs(), pm.tree, Spaces();
      Parts(m, t, baseline, pm.reserved, spaces);
      SoundSizes(m, t, baseline, pm.reserved);
      pm.Soundness();
      root := pm.TryAllocZeroPage();
      if root == 0 {
        Restore();
        return;
      }
      ghost var t' := t[Node(id, []) := root];
      KernelNew(m, t, baseline, pm.reserved, spaces, root, id, pm.Abs(), t');
      Parts(pm.Abs(), t', baseline, pm.reserved, PutSpace(spaces, id, EmptySpace(id, root)));
      OneFrameLess(m, root, pm.Abs());
      CreateStep(Eager(log), id, root);
      pm.Own(t', baseline);
    }

    /** The task gets its address space. */
    method Attach(id: nat, mm: VmmMap)
      requires pm.Valid() && pm.held == baseline && |mms| < MAX_TASKS && (forall i :: i in mms ==> mms[i].id == i)
      requires id !in mms && mm.id == id
      requires KernelOk(pm.Abs(), pm.tree, baseline, pm.reserved, PutSpace(Spaces(), id, mm.Value()))
      requires ImagesOf(pm.Abs(), pm.tree, PutSpace(Spaces(), id, mm.Value())) == EagerStep(Eager(log), Create(id))
      modifies `mms, `log
      ensures Valid() && mms == old(mms)[id := mm] && log == old(log) + [Create(id)]
    {
      hide *;
      ghost var spaces := Spaces();
      SpacesAre();
      mms := mms[id := mm];
      Changed(spaces, id);
      Record(Create(id));
    }

    lemma SpacesAre()
      ensures Spaces().Keys == mms.Keys && forall i :: i in mms ==> Spaces()[i] == mms[i].Value()
    {
    }

    /** vmm_map_new for process id; null stands for the panic when no frame is free. */
    method NewMap(id: nat) returns (mm: VmmMap?)
      requires Valid() && id !in mms && |mms| < MAX_TASKS
      modifies `mms, `log, pm`tree, pm`held, pm.bitmap, pm.refs, pm.ram
      ensures Valid()
      ensures mm == null ==> Exhausted(old(pm.Abs()).used) && mms == old(mms) && log == old(log)
      ensures mm != null ==> fresh(mm) && mms == old(mms)[id := mm] && log == old(log) + [Create(id)]
      ensures mm != null ==> mm.Value() == EmptySpace(id, mm.root) && pm.tree == old(pm.tree)[Node(id, []) := mm.root]
      ensures mm != null ==> |FreeFrames(old(pm.Abs()).used)| == |FreeFrames(pm.Abs().used)| + 1
    {
      hide *;
      Meaning();
      ghost var spaces := Spaces();
      var root := NewRootTable(id);
      if root == 0 { return null; }
      CreateStep(Eager(log), id, root);
      mm := new VmmMap(root, id);
      assert Spaces() == spaces;
      Attach(id, mm);
    }

    // ----- page faults -----

    /** A step on space id is over and no process's memory changed. */
    lemma Settled(before: Spaces, id: nat)
      requires pm.Valid() && pm.held == baseline && |mms| <= MAX_TASKS && forall i :: i in mms ==> mms[i].id == i
      requires id in mms && before.Keys == mms.Keys
      requires forall i :: i in before && i != id ==> before[i] == mms[i].Value()
      requires KernelOk(pm.Abs(), pm.tree, baseline, pm.reserved, PutSpace(before, id, mms[id].Value()))
      requires ImagesOf(pm.Abs(), pm.tree, PutSpace(before, id, mms[id].Value())) == Eager(log)
      ensures Valid()
    {
      hide *;
      InOnce(before.Keys, id);
      Changed(before, id);
      Restore();
    }

    /** The copy-on-write half of a page fault. */
    method TryCow(id: nat, v: nat) returns (ok: bool)
      requires Valid() && id in mms && v < VPNS
      modifies pm`tree, pm`held, pm.bitmap, pm.refs, pm.ram
      ensures Valid()
      ensures ok ==> Usable(pm.Abs().ram, pm.tree, id, v, true) && Permitted(Eager(log), id, v, true)
      ensures !ok ==> pm.Abs() == old(pm.Abs()) && pm.tree == old(pm.tree)
      ensures !ok && Cow(Pte(pm.Abs().ram, pm.tree, id, v)) ==> LowMemory(pm.Abs().used)
    {
      hide *;
      Meaning();
      ghost var m, t, spaces := pm.Abs(), pm.tree, Spaces();
      Parts(m, t, baseline, pm.reserved, spaces);
      RootOf(m, t, baseline, spaces[id]);
      Fields(mms[id]);
      ok := ResolveCow(pm, mms[id].root, v, id);
      NoFrames(pm.Abs().used);
      if ok {
        pm.Soundness();
        KernelCow(m, t, pm.Abs(), pm.tree, baseline, pm.reserved, spaces, id, v);
        ResolvedUsable(m, t, pm.Abs(), pm.tree, baseline, id, v, true);
        PermittedIs(m, t, spaces, id, v, true);
      }
      Restore();
    }

    /** The demand-filling half. */
    method TryDemand(id: nat, mm: VmmMap, address: nat, present: bool, write: bool) returns (ok: bool)
      requires Valid() && id in mms && mms[id] == mm && address < CANONICAL
      modifies pm`tree, pm`held, pm.bitmap, pm.refs, pm.ram, mm`total
      ensures Valid()
      ensures ok ==>
        Usable(pm.Abs().ram, pm.tree, id, PageOf(address), write) && Permitted(Eager(log), id, PageOf(address), write)
      ensures !ok && !present && !Present(Pte(old(pm.Abs().ram), old(pm.tree), id, PageOf(address))) ==>
        !Permitted(Eager(log), id, PageOf(address), write) || LowMemory(old(pm.Abs()).used)
    {
      hide *;
      Meaning();
      ghost var m, t, spaces := pm.Abs(), pm.tree, Spaces();
      Fields(mm);
      DemandReady(m, t, baseline, pm.reserved, spaces, id, address);
      ok := HandlePageFault(pm, mm, address, present, write);
      pm.Soundness();
      Fields(mm);
      if ok {
        DemandFilled(m, t, pm.Abs(), pm.tree, baseline, pm.reserved, spaces, id, address, write);
      } else {
        DemandRefused(m, t, pm.Abs(), pm.tree, baseline, pm.reserved, spaces, id, address, write);
      }
      Settled(spaces, id);
    }

    /** pagefault: `present` and `write` are the error code's bits; false when the task is to be killed. */
    method PageFault(id: nat, mm: VmmMap, address: nat, present: bool, write: bool) returns (ok: bool)
      requires Valid() && id in mms && mms[id] == mm && address < CANONICAL
      modifies pm`tree, pm`held, pm.bitmap, pm.refs, pm.ram, mm`total
      ensures Valid()
      ensures ok ==>
        Usable(pm.Abs().ram, pm.tree, id, PageOf(address), write) && Permitted(Eager(log), id, PageOf(address), write)
      ensures !ok && present == Present(Pte(old(pm.Abs().ram), old(pm.tree), id, PageOf(address))) ==>
        Usable(old(pm.Abs().ram), old(pm.tree), id, PageOf(address), write) ||
          !Permitted(Eager(log), id, PageOf(address), write) || LowMemory(old(pm.Abs()).used)
    {
      hide *;
      Meaning();
      PageNumber(address);
      UsableIs(pm.Abs().ram, pm.tree, id, PageOf(address), write);
      if present && write {
        if Present(Pte(pm.Abs().ram, pm.tree, id, PageOf(address))) && !Usable(pm.Abs().ram, pm.tree, id,
            PageOf(address), true)
          && Permitted(Eager(log), id, PageOf(address), true)
        {
          WaitsForCopy(pm.Abs(), pm.tree, baseline, pm.reserved, Spaces(), id, PageOf(address));
        }
        ok := TryCow(id, PageOf(address));
        if ok { return; }
      }
      ok := TryDemand(id, mm, address, present, write);
    }

    // ----- user loads and stores -----

    /** What the processor does before an access to user memory: translate, and fault once if the entry forbids it. */
    method Reach(id: nat, mm: VmmMap, address: nat, write: bool) returns (ok: bool)
      requires Valid() && id in mms && mms[id] == mm && address < CANONICAL
      modifies pm`tree, pm`held, pm.bitmap, pm.refs, pm.ram, mm`total
      ensures Valid()
      ensures ok ==>
        Usable(pm.Abs().ram, pm.tree, id, PageOf(address), write) && Permitted(Eager(log), id, PageOf(address), write)
      ensures !ok ==> !Permitted(Eager(log), id, PageOf(address), write) || LowMemory(old(pm.Abs()).used)
    {
      hide *;
      Meaning();
      var e := ReadEntry(id, mm, PageOf(address));
      PageNumber(address);
      UsableIs(pm.Abs().ram, pm.tree, id, PageOf(address), write);
      if Present(e) && (write ==> Writable(e)) {
        UsablePermitted(pm.Abs(), pm.tree, baseline, pm.reserved, Spaces(), id, PageOf(address), write);
        return true;
      }
      ok := PageFault(id, mm, address, Present(e), write);
    }

    /** The entry the processor finds for page v; 0 when a table is missing. */
    method ReadEntry(id: nat, mm: VmmMap, v: nat) returns (e: Word)
      requires Valid() && id in mms && mms[id] == mm
      ensures e == Pte(pm.Abs().ram, pm.tree, id, v)
    {
      hide *;
      Meaning();
      Parts(pm.Abs(), pm.tree, baseline, pm.reserved, Spaces());
      RootOf(pm.Abs(), pm.tree, baseline, Spaces()[id]);
      Fields(mm);
      pm.Soundness();
      var found, table := Walk(pm, mm.root, v, id);
      InTable(v);
      e := if found then ReadWord(pm.ram[table], v % 512) else 0;
    }

    /** vmm_free of a task that goes away. */
    method ExitTask(id: nat)
      requires Valid() && id in mms
      modifies `mms, `log, pm`tree, pm`held, pm.bitmap, pm.refs
      ensures Valid() && mms == old(mms) - {id} && log == old(log) + [Exit(id)]
    {
      hide *;
      Meaning();
      ghost var m, t, spaces := pm.Abs(), pm.tree, Spaces();
      Parts(m, t, baseline, pm.reserved, spaces);
      RootOf(m, t, baseline, spaces[id]);
      Fields(mms[id]);
      FreePgTbl(pm, mms[id].root, id);
      pm.Soundness();
      KernelExit(m, t, pm.Abs(), baseline, pm.reserved, spaces, id);
      ExitStep(Eager(log), id);
      Detach(id);
    }

    /** The task gives its address space up. */
    method Detach(id: nat)
      requires pm.Valid() && pm.held == baseline && |mms| <= MAX_TASKS && (forall i :: i in mms ==> mms[i].id == i)
      requires id in mms && KernelOk(pm.Abs(), pm.tree, baseline, pm.reserved, Spaces() - {id})
      requires ImagesOf(pm.Abs(), pm.tree, Spaces() - {id}) == EagerStep(Eager(log), Exit(id))
      modifies `mms, `log
      ensures Valid() && mms == old(mms) - {id} && log == old(log) + [Exit(id)]
    {
      hide *;
      ghost var spaces := Spaces();
      SpacesAre();
      Fewer(mms, id);
      mms := mms - {id};
      SpacesAre();
      assert Spaces() == spaces - {id};
      Record(Exit(id));
    }

    /** A user load of one byte; None when the task is killed instead. */
    method Load(id: nat, mm: VmmMap, address: nat) returns (byte: Option<Byte>)
      requires Valid() && id in mms && mms[id] == mm && address < CANONICAL
      modifies `mms, `log, pm`tree, pm`held, pm.bitmap, pm.refs, pm.ram, mm`total
      ensures Valid()
      ensures byte.Some? ==> log == old(log) && mms == old(mms) && Permitted(Eager(log), id, PageOf(address), false)
      ensures byte.Some? ==> byte.value == Eager(log)[id][PageOf(address)].contents[address % 4096]
      ensures byte.None? ==> log == old(log) + [Exit(id)] && mms == old(mms) - {id}
      ensures byte.None? ==> !Permitted(Eager(old(log)), id, PageOf(address), false) || LowMemory(old(pm.Abs()).used)
    {
      hide *;
      var ok := Reach(id, mm, address, false);
      if !ok {
        ExitTask(id);
        return None;
      }
      PageNumber(address);
      var c := LoadMapped(id, mm, PageOf(address));
      byte := Some(c[address % 4096]);
    }

    /** A load through an entry that allows it. */
    method LoadMapped(id: nat, mm: VmmMap, v: nat) returns (c: Page)
      requires Valid() && id in mms && mms[id] == mm && v < VPNS && Usable(pm.Abs().ram, pm.tree, id, v, false)
      ensures id in Eager(log) && v in Eager(log)[id] && c == Eager(log)[id][v].contents
    {
      hide *;
      Meaning();
      UsableIs(pm.Abs().ram, pm.tree, id, v, false);
      EntryReads(pm.Abs(), pm.tree, baseline, pm.reserved, Spaces(), id, v);
      pm.Soundness();
      var e := ReadEntry(id, mm, v);
      c := pm.ReadPage(FrameOf(e));
    }

    /** A user store of one byte; false when the task is killed instead. */
    method Store(id: nat, mm: VmmMap, address: nat, byte: Byte) returns (ok: bool)
      requires Valid() && id in mms && mms[id] == mm && address < CANONICAL
      modifies `mms, `log, pm`tree, pm`held, pm.bitmap, pm.refs, pm.ram, mm`total
      ensures Valid()
      ensures ok ==> log == old(log) + [Write(id, PageOf(address), address % 4096, byte)] && mms == old(mms)
      ensures ok ==> Permitted(Eager(old(log)), id, PageOf(address), true)
      ensures ok ==> forall o :: o in mms && o != id ==> o in Eager(log) && o in Eager(old(log)) && Eager(log)[o] == Eager(old(log))[o]
      ensures !ok ==> log == old(log) + [Exit(id)] && mms == old(mms) - {id}
      ensures !ok ==> !Permitted(Eager(old(log)), id, PageOf(address), true) || LowMemory(old(pm.Abs()).used)
    {
      hide *;
      ok := Reach(id, mm, address, true);
      if !ok {
        ExitTask(id);
        return;
      }
      PageNumber(address);
      StoreMapped(id, mm, PageOf(address), address % 4096, byte);
      forall o | o in mms && o != id ensures o in Eager(log) && o in Eager(old(log)) && Eager(log)[o] == Eager(old(log))[o] {
        Meaning();
        WritesArePrivate(old(log), id, PageOf(address), address % 4096, byte, o);
      }
    }

    /** A store through an entry that allows it. */
    method StoreMapped(id: nat, mm: VmmMap, v: nat, at: nat, byte: Byte)
      requires Valid() && id in mms && mms[id] == mm && v < VPNS && at < 4096
      requires Usable(pm.Abs().ram, pm.tree, id, v, true)
      modifies `log, pm`tree, pm`held, pm.ram
      ensures Valid() && log == old(log) + [Write(id, v, at, byte)]
    {
      hide *;
      Meaning();
      ghost var m, t, spaces := pm.Abs(), pm.tree, Spaces();
      UsableIs(m.ram, t, id, v, true);
      EntryReads(m, t, baseline, pm.reserved, spaces, id, v);
      pm.Soundness();
      var e := ReadEntry(id, mm, v);
      var c := pm.ReadPage(FrameOf(e));
      pm.WritePage(FrameOf(e), SetByte(c, at, byte));
      StoreEffect(m, t, baseline, pm.reserved, spaces, id, v, at, byte, pm.Abs());
      Parts(pm.Abs(), t, baseline, pm.reserved, spaces);
      pm.Own(t, baseline);
      Record(Write(id, v, at, byte));
    }

    /** vmm_populate_page: make a page writable ahead of a store by the kernel. */
    method PopulatePage(id: nat, mm: VmmMap, address: nat) returns (ok: bool)
      requires Valid() && id in mms && mms[id] == mm && address < CANONICAL
      modifies pm`tree, pm`held, pm.bitmap, pm.refs, pm.ram, mm`total
      ensures Valid()
      ensures ok ==>
        Usable(pm.Abs().ram, pm.tree, id, PageOf(address), true) && Permitted(Eager(log), id, PageOf(address), true)
      ensures !ok ==> !Permitted(Eager(log), id, PageOf(address), true) || LowMemory(old(pm.Abs()).used)
    {
      hide *;
      Meaning();
      PageNumber(address);
      var e := ReadEntry(id, mm, PageOf(address));
      UsableIs(pm.Abs().ram, pm.tree, id, PageOf(address), true);
      if Present(e) {
        if Cow(e) {
          ok := TryCow(id, PageOf(address));
          return;
        }
        ok := Writable(e);
        if ok {
          UsablePermitted(pm.Abs(), pm.tree, baseline, pm.reserved, Spaces(), id, PageOf(address), true);
        } else if Permitted(Eager(log), id, PageOf(address), true) {
          WaitsForCopy(pm.Abs(), pm.tree, baseline, pm.reserved, Spaces(), id, PageOf(address));
        }
        return;
      }
      ok := TryDemand(id, mm, address, false, true);
    }

    // ----- what the invariant says -----

    /** A page is in eager memory when a block covers it, with the block's permission; it holds what the page's
        frame holds or, before the first touch, what the file or zero filling would bring in. */
    lemma Refinement(id: nat, v: nat)
      requires Valid() && id in mms && v < VPNS
      ensures id in Eager(log) && AsMapped(pm.Abs(), pm.tree, mms[id].Value(), v, Eager(log)[id])
    {
      hide *;
      Meaning();
      ImageMeaning(pm.Abs(), pm.tree, baseline, pm.reserved, Spaces(), id, v);
    }

    /** A frame's count is the number of entries naming it, plus one for a page table, plus the baseline;
        a frame is free exactly when that is zero, and a frame some entry can write has count one. */
    lemma Conservation(f: nat)
      requires Valid() && f < pm.refs.Length
      ensures f < |baseline|
      ensures pm.refs[f] == |NamingPages(pm.Abs(), pm.tree, f)| + |NamingTables(pm.tree, f)| + baseline[f]
      ensures f >= pm.reserved ==> (pm.Abs().used[f] <==> pm.refs[f] > 0)
      ensures forall i, v :: i in mms && 0 <= v < VPNS && Usable(pm.Abs().ram, pm.tree, i, v, true) ==>
        FrameOf(Pte(pm.Abs().ram, pm.tree, i, v)) == f ==> pm.refs[f] == 1
    {
      hide *;
      Meaning();
      pm.Soundness();
      FrameConservation(pm.Abs(), pm.tree, baseline, pm.reserved, Spaces(), f);
      forall i, v | i in mms && 0 <= v < VPNS && Usable(pm.Abs().ram, pm.tree, i, v, true)
        ensures FrameOf(Pte(pm.Abs().ram, pm.tree, i, v)) == f ==> pm.refs[f] == 1
      {
        UsableIs(pm.Abs().ram, pm.tree, i, v, true);
        MappedFrame(pm.Abs(), pm.tree, baseline, pm.reserved, Spaces(), i, v);
      }
    }

    // ----- fork -----

    /** user_process_fork, as far as memory goes: vmm_map_new and three times vmm_share_section.
        The free frames suffice for the child's tables. */
    method ForkTask(id: nat, src: VmmMap, child: nat) returns (dst: VmmMap)
      requires Valid() && id in mms && mms[id] == src && child !in mms && |mms| < MAX_TASKS
      requires |FreeFrames(pm.Abs().used)| >= 1 + |InnerTables(pm.tree, id)|
      modifies `mms, `log, pm`tree, pm`held, pm.bitmap, pm.refs, pm.ram
      ensures Valid() && fresh(dst) && mms == old(mms)[child := dst]
      ensures log == old(log) + [Create(child)] + [Copy(id, child)]
    {
      hide *;
      Meaning();
      ghost var m0, t0, spaces0 := pm.Abs(), pm.tree, Spaces();
      NotExhausted(m0.used);
      var mm := NewMap(child);
      if mm == null { assert false; }
      dst := mm;
      Prepared(m0, t0, spaces0, id, child, dst);
      ShareWith(id, src, child, dst);
    }

    /** The child's empty space is ready to receive the copy. */
    lemma Prepared(m0: Mem, t0: Tree, spaces0: Spaces, id: nat, child: nat, dst: VmmMap)
      requires Valid() && KernelOk(m0, t0, baseline, pm.reserved, spaces0)
      requires id in spaces0 && child !in spaces0 && mms.Keys == spaces0.Keys + {child} && child in mms
      requires mms[child] == dst && id in mms
      requires dst.Value() == EmptySpace(child, dst.root) && pm.tree == t0[Node(child, []) := dst.root]
      requires |FreeFrames(m0.used)| == |FreeFrames(pm.Abs().used)| + 1
      requires |FreeFrames(m0.used)| >= 1 + |InnerTables(t0, id)|
      ensures ForkReady(pm.Abs(), pm.tree, baseline, pm.reserved, mms[id].Value(), child, mms.Keys)
      ensures Rooted(pm.tree, child, dst.root) && Empty(dst.Value())
    {
      hide *;
      Meaning();
      EmptyIs(child, dst.root);
      ReadyToFork(m0, t0, pm.Abs(), pm.tree, baseline, pm.reserved, spaces0, Spaces(), id, child, dst.root);
    }

    method ShareWith(id: nat, src: VmmMap, child: nat, dst: VmmMap)
      requires Valid() && id in mms && mms[id] == src && child in mms && mms[child] == dst && id != child
      requires Empty(dst.Value()) && Rooted(pm.tree, child, dst.root)
      requires ForkReady(pm.Abs(), pm.tree, baseline, pm.reserved, src.Value(), child, mms.Keys)
      modifies `log, pm`tree, pm`held, pm.bitmap, pm.refs, pm.ram, dst`total, dst`areas, dst`file
      ensures Valid() && log == old(log) + [Copy(id, child)]
    {
      hide *;
      Meaning();
      ghost var m, t, spaces := pm.Abs(), pm.tree, Spaces();
      Fields(src);
      ShareAll(pm, src, dst, mms.Keys);
      Fields(dst);
      InOnce(mms.Keys, child);
      SharedHeld(m, t, pm.Abs(), pm.tree, baseline, pm.held, pm.reserved, spaces[id], child, mms.Keys);
      KernelFork(m, t, pm.Abs(), pm.tree, baseline, pm.reserved, spaces, id, child, dst.Value());
      CopyStep(Eager(log), id, child);
      Changed(spaces, child);
      Record(Copy(id, child));
    }

    // ----- reserving memory -----

    /** A block was appended to one of mm's lists. */
    method Append(id: nat, mm: VmmMap, section: nat, b: Block)
      requires Valid() && id in mms && mms[id] == mm && section < SECTIONS && BlockOk(b, mm.file)
      requires EagerMemory.Apart(b, Flat(mm.areas))
      modifies `log, mm`areas
      ensures Valid() && mm.areas == AddBlock(old(mm.areas), section, b) && log == old(log) + [Reserve(id, mm.file, b)]
    {
      hide *;
      Meaning();
      ghost var spaces := Spaces();
      Fields(mm);
      Appended(mm.areas, section, b);
      mm.areas := mm.areas[section := mm.areas[section] + [b]];
      Fields(mm);
      KernelReserve(pm.Abs(), pm.tree, baseline, pm.reserved, spaces, id, section, b, mm.Value());
      InOnce(spaces.Keys, id);
      Changed(spaces, id);
      Record(Reserve(id, mm.file, b));
    }

    /** vmm_reserve_mapping; None stands for NULL.  The caller sees to it that the new block meets no old one. */
    method ReserveMapping(id: nat, mm: VmmMap, section: nat, vaddr: nat, size: nat,
            ops: Word) returns (block: Option<Block>)
      requires Valid() && id in mms && mms[id] == mm && section < SECTIONS
      requires size > 0 ==> BlockOk(Block(vaddr, size, DropPresent(ops), true, Anon), mm.file)
      requires size > 0 ==> EagerMemory.Apart(Block(vaddr, size, DropPresent(ops), true, Anon), Flat(mm.areas))
      modifies `log, mm`areas
      ensures Valid() && (block.None? <==> size == 0)
      ensures block.None? ==> mm.areas == old(mm.areas) && log == old(log)
      ensures block.Some? ==> block.value == Block(vaddr, size, DropPresent(ops), true, Anon) && mm.areas == AddBlock(old(mm.areas), section, block.value)
      ensures block.Some? ==> log == old(log) + [Reserve(id, mm.file, block.value)]
    {
      hide *;
      if size == 0 { return None; }
      var b := Block(vaddr, size, DropPresent(ops), true, Anon);
      Append(id, mm, section, b);
      block := Some(b);
    }

    /** vmm_reserve_file_mapping; None stands for NULL. */
    method ReserveFileMapping(id: nat, mm: VmmMap, section: nat, vaddr: nat, size: nat, ops: Word,
                              file_vaddr: nat, file_offset: nat, file_size: nat) returns (block: Option<Block>)
      requires Valid() && id in mms && mms[id] == mm && section < SECTIONS
      requires mm.file.Some? && size > 0 ==>
        BlockOk(Block(vaddr, size, DropPresent(ops), true, File(file_vaddr, file_offset, file_size)), mm.file)
      modifies `log, mm`areas
      ensures Valid()
      ensures block.None? <==> mm.file.None? || size == 0 || exists b :: b in Flat(old(mm.areas)) && !Disjoint(b,
          FileBlock(vaddr, size, ops, file_vaddr, file_offset, file_size))
      ensures block.None? ==> mm.areas == old(mm.areas) && log == old(log)
      ensures block.Some? ==> block.value == FileBlock(vaddr, size, ops, file_vaddr, file_offset, file_size)
      ensures block.Some? ==> mm.areas == AddBlock(old(mm.areas), section, block.value) && log == old(log) + [Reserve(id, mm.file, block.value)]
    {
      hide *;
      FileBlockIs(vaddr, size, ops, file_vaddr, file_offset, file_size);
      block := None;
      if mm.file.None? || size == 0 { return; }
      Meaning();
      Parts(pm.Abs(), pm.tree, baseline, pm.reserved, Spaces());
      RootOf(pm.Abs(), pm.tree, baseline, Spaces()[id]);
      Fields(mm);
      var b := Block(vaddr, size, DropPresent(ops), true, File(file_vaddr, file_offset, file_size));
      MeetsIs(Flat(mm.areas), b, mm.file);
      var overlaps := RangeOverlaps(mm, vaddr, size);
      if overlaps { return; }
      Append(id, mm, section, b);
      block := Some(b);
    }

    /** vmm_set_backing_file. */
    method SetBackingFile(id: nat, mm: VmmMap, file: seq<Byte>) returns (ok: bool)
      requires Valid() && id in mms && mms[id] == mm
      modifies mm`file
      ensures Valid() && log == old(log)
      ensures ok <==> old(mm.file).None?
      ensures mm.file == if ok then Some(file) else old(mm.file)
    {
      hide *;
      if mm.file.Some? { return false; }
      Meaning();
      ghost var spaces := Spaces();
      Fields(mm);
      mm.file := Some(file);
      Fields(mm);
      KernelFile(pm.Abs(), pm.tree, baseline, pm.reserved, spaces, id, mm.Value());
      Settled(spaces, id);
      ok := true;
    }
  }
}
