// Address spaces (mm/vmm.c): block lists, demand faults, sharing on fork and release.
module Vmm {
  import opened Words
  import opened PageTree
  import opened FlatMap
  import opened Pmem
  import opened Paging
  import opened Teardown
  import opened Blocks
  import Bitmap

  /** struct vmm_map as a value.  `id` names the space in the tree of page tables. */
  datatype Space = Space(id: nat, root: nat, areas: Areas, total: nat, file: Option<seq<Byte>>)

  class VmmMap {
    ghost const id: nat
    const root: nat
    var areas: Areas
    var total: nat
    var file: Option<seq<Byte>>

    ghost function Value(): Space
      reads this
    {
      Space(id, root, areas, total, file)
    }

    constructor (root: nat, ghost id: nat)
      ensures this.root == root && this.id == id && Value() == Space(id, root, [[], [], []], 0, None)
    {
      this.root, this.id := root, id;
      areas, total, file := [[], [], []], 0, None;
    }
  }

  // ----- looking blocks up -----

  /** vmm_find_block. */
  method FindBlock(mm: VmmMap, address: nat) returns (block: Option<Block>)
    ensures block == Find(Flat(mm.areas), address)
  {
    ghost var a := mm.areas;
    var section := 0;
    while section < SECTIONS
      invariant section <= SECTIONS && mm.areas == a
      invariant section > 0 ==> Find(a[STACK], address).None?
      invariant section > 1 ==> Find(a[TEXT], address).None?
      invariant section > 2 ==> Find(a[DATA], address).None?
    {
      var i, list := 0, mm.areas[section];
      assert list[0..] == list;
      while i < |list|
        invariant i <= |list|
        invariant Find(list, address) == Find(list[i..], address)
      {
        if Contains(list[i], address) {
          FindAppend(a[STACK], a[TEXT], address);
          FindAppend(a[STACK] + a[TEXT], a[DATA], address);
          return Some(list[i]);
        }
        assert list[i..][1..] == list[i + 1..];
        i := i + 1;
      }
      section := section + 1;
    }
    FindAppend(a[STACK], a[TEXT], address);
    FindAppend(a[STACK] + a[TEXT], a[DATA], address);
    block := None;
  }

  /** [start, start + size * PAGE_SIZE) meets block b, in 64-bit arithmetic. */
  predicate Meets(start: nat, size: nat, b: Block) {
    start < End(b) && b.vaddr < (start + size * PAGE_SIZE) % WRAP
  }

  /** vmm_range_overlaps. */
  method RangeOverlaps(mm: VmmMap, start: nat, size: nat) returns (overlaps: bool)
    ensures overlaps <==>
      (start + size * PAGE_SIZE) % WRAP < start || exists b :: b in Flat(mm.areas) && Meets(start, size, b)
  {
    var end := (start + size * PAGE_SIZE) % WRAP;
    if end < start { return true; }
    ghost var a := mm.areas;
    var section := 0;
    while section < SECTIONS
      invariant section <= SECTIONS && mm.areas == a
      invariant forall s, k :: 0 <= s < section && 0 <= k < |a[s]| ==> !Meets(start, size, a[s][k])
    {
      var i, list := 0, mm.areas[section];
      while i < |list|
        invariant i <= |list|
        invariant forall k :: 0 <= k < i ==> !Meets(start, size, list[k])
      {
        if start < End(list[i]) && list[i].vaddr < end {
          assert list[i] in Flat(a) && Meets(start, size, list[i]);
          return true;
        }
        i := i + 1;
      }
      section := section + 1;
    }
    forall b | b in Flat(a) ensures !Meets(start, size, b) {
      assert b in a[STACK] || b in a[TEXT] || b in a[DATA];
    }
    overlaps := false;
  }

  // ----- demand faults -----

  /** Page v of the space was absent and now has a frame of its own, with the block's permissions and the
      block's initial contents; no other page changed. */
  ghost predicate FaultFilled(m: Mem, t: Tree, m': Mem, t': Tree, held: seq<nat>, sp: Space, v: nat, b: Block) {
    var e' := Pte(m'.ram, t', sp.id, v);
    && LeafNode(sp.id, v) !in t && LeafNode(sp.id, v) in t'
    && b.ops < 4095 && e' == MakeEntry(FrameOf(e'), b.ops + PRESENT)
    && t'[LeafNode(sp.id, v)] == FrameOf(e') < |held| && held[FrameOf(e')] == 0
    && (forall k :: k in t ==> t[k] != FrameOf(e'))
    && Content(m'.ram, e') == InitPage(sp.file, b.backing, v)
    && Grown(t, t', sp.id, v, 4)
    && Undisturbed(m.ram, t, m'.ram, t', {LeafNode(sp.id, v)})
  }

  /** Fewer frames are free than a page and the tables on the way to it can take. */
  ghost predicate LowMemory(used: seq<bool>) { |FreeFrames(used)| < 4 }

  lemma NoFrames(used: seq<bool>)
    ensures Exhausted(used) ==> LowMemory(used)
  {
    if Exhausted(used) { assert FreeFrames(used) == {}; }
  }

  /** A mapping that ran out of frames had at most three to begin with. */
  lemma RanOut(m: Mem, t: Tree, f: nat, m1: Mem, m2: Mem, t2: Tree, s: nat, v: nat, except: set<Node>)
    requires f < |m.used| == |m.refs| && !m.used[f] && m1.used == Alloc(m, f).used && Keeps(m1, t, m2, t2, except)
    requires Grown(t, t2, s, v, 4) && Exhausted(m2.used) && LeafNode(s, v) !in t2 && TableNode(s, v, 3) !in t2
    requires TableNode(s, v, 0) in t
    ensures LowMemory(m.used)
  {
    assert Exhausted(m2.used) ==> FreeFrames(m2.used) == {};
    assert FreeFrames(m.used) == FreeFrames(m1.used) + {f};
    hide Undisturbed, Exhausted, Path, Grown, FreeFrames, Tables, LeafNode;
    AtMostTwo(t, t2, s, v);
  }

  lemma AtMostTwo(t: Tree, t2: Tree, s: nat, v: nat)
    requires Grown(t, t2, s, v, 4) && LeafNode(s, v) !in t2 && TableNode(s, v, 3) !in t2 && TableNode(s, v, 0) in t
    ensures |Tables(t2)| <= |Tables(t)| + 2
  {
    LeafPath(s, v);
    var added := Tables(t2) - Tables(t);
    assert Tables(t2) == Tables(t) + added;
    var two := {TableNode(s, v, 1), TableNode(s, v, 2)};
    forall n | n in added ensures n in two {
      assert n == TableNode(s, v, |n.path|);
    }
    SubsetSize(added, two);
    assert |two| <= 2;
  }

  /** A failed fault may leave new, empty tables behind; no page changes. */
  ghost predicate FaultRefused(m: Mem, t: Tree, m': Mem, t': Tree, s: nat, v: nat) {
    && Grown(t, t', s, v, 4) && (LeafNode(s, v) in t' ==> LeafNode(s, v) in t)
    && Undisturbed(m.ram, t, m'.ram, t', {})
  }

  lemma PresentFlags(ops: nat)
    requires ops == USER || ops == READ_WRITE + USER
    ensures Present(ops + PRESENT) && (Writable(ops + PRESENT) <==> Writable(ops)) && !Cow(ops + PRESENT) && !Cow(ops)
  {
  }

  /** Copy the file's part of page v over a zeroed page; false for a range the file cannot provide. */
  method FillFromFile(file: Option<seq<Byte>>, b: Block, v: nat, zeroed: Page) returns (ok: bool, filled: Page)
    requires b.backing.File? && BlockFits(b, file) && zeroed == ZeroPage()
    ensures ok && filled == InitPage(file, b.backing, v)
  {
    hide InitPage, InitBytes, InitByte, Overlay, ReadAt, ZeroPage;
    var page := v * PAGE_SIZE;
    var page_end := page + PAGE_SIZE;
    var file_start := b.backing.vaddr;
    var file_end := (file_start + b.backing.size) % WRAP;
    var copy_start := if page > file_start then page else file_start;
    var copy_end := if page_end < file_end then page_end else file_end;
    FilledPage(file, b, v);
    filled := zeroed;
    if file.None? || file_end < file_start { return false, filled; }
    if copy_start < copy_end {
      var offset := (b.backing.offset + copy_start - file_start) % WRAP;
      var count := copy_end - copy_start;
      var data := ReadAt(file.value, offset, count);
      if offset > MAX_OFFSET || |data| != count { return false, filled; }
      filled := Overlay(filled, copy_start - page, data);
    }
    ok := true;
  }

  /** Mapping a fresh frame filled with the page's initial contents. */
  lemma FaultMapped(m: Mem, t: Tree, h: seq<nat>, reserved: nat, sp: Space, v: nat, b: Block, f: nat, m1: Mem, m2: Mem,
          t2: Tree)
    requires Sound(m, t, h, reserved) && f < |m.used| && !m.used[f] && LeafNode(sp.id, v) !in t && BlockFits(b, sp.file)
    requires m1 == Fill(Alloc(m, f), f, InitPage(sp.file, b.backing, v))
    requires Keeps(m1, t, m2, t2, {LeafNode(sp.id, v)}) && Grown(t, t2, sp.id, v, 4)
    requires HeldKept(Hold(h, f), m1.ram, m2.ram)
    requires Sound(m2, t2, h, reserved) && LeafNode(sp.id, v) in t2 && t2[LeafNode(sp.id, v)] == f < MAX_FRAME
    requires Pte(m2.ram, t2, sp.id, v) == MakeEntry(f, b.ops + PRESENT)
    ensures FaultFilled(m, t, m2, t2, h, sp, v, b)
  {
    FreeIsUnnamed(m, t, h, reserved, f);
    FillUndisturbed(Alloc(m, f), t, Hold(h, f), reserved, f, InitPage(sp.file, b.backing, v), m1.ram) by {
      AllocSound(m, t, h, reserved, f);
    }
    UndisturbedTrans(m.ram, t, m1.ram, t, m2.ram, t2, {}, {LeafNode(sp.id, v)});
    assert {} + {LeafNode(sp.id, v)} == {LeafNode(sp.id, v)};
    SoundSizes(m2, t2, h, reserved);
  }

  lemma FaultUnmapped(m: Mem, t: Tree, h: seq<nat>, reserved: nat, s: nat, v: nat, f: nat, m1: Mem, c: Page, m2: Mem,
          t2: Tree)
    requires Sound(m, t, h, reserved) && f < |m.used| && !m.used[f] && LeafNode(s, v) !in t
    requires m1 == Fill(Alloc(m, f), f, c)
    requires Keeps(m1, t, m2, t2, {LeafNode(s, v)}) && Grown(t, t2, s, v, 4) && Sound(m2, t2, Hold(h, f), reserved)
    requires LeafNode(s, v) !in t2
    ensures FaultRefused(m, t, m2, t2, s, v)
  {
    AllocSound(m, t, h, reserved, f);
    FreeIsUnnamed(m, t, h, reserved, f);
    FillUndisturbed(Alloc(m, f), t, Hold(h, f), reserved, f, c, m1.ram);
    UndisturbedTrans(m.ram, t, m1.ram, t, m2.ram, t2, {}, {LeafNode(s, v)});
    forall z: nat, w: nat ensures SamePage(m.ram, t, m2.ram, t2, z, w) {
      PteMeaning(m, t, h, reserved, z, w);
      PteMeaning(m2, t2, Hold(h, f), reserved, z, w);
    }
  }

  /** The second half of vmm_handle_page_fault: give the absent page v of block b a frame. */
  method DemandMap(pm: PhysMem, mm: VmmMap, b: Block, v: nat) returns (ok: bool)
    requires pm.Valid() && Rooted(pm.tree, mm.id, mm.root) && BlockFits(b, mm.file) && LeafNode(mm.id, v) !in pm.tree
    modifies pm`tree, pm`held, pm.bitmap, pm.refs, pm.ram
    ensures pm.Valid() && pm.held == old(pm.held)
    ensures ok ==> FaultFilled(old(pm.Abs()), old(pm.tree), pm.Abs(), pm.tree, pm.held, mm.Value(), v, b)
    ensures !ok ==>
      FaultRefused(old(pm.Abs()), old(pm.tree), pm.Abs(), pm.tree, mm.id, v) && LowMemory(old(pm.Abs()).used)
  {
    hide Sound, Sized, Bitmapped, Counted, Shaped, Exclusive, Linked, Holders, Keeps, HeldKept, Exhausted, LowMemory,
      Grown, PhysMem.Valid, PhysMem.Abs, Bitmap.Bits, FrameOf, FlagsOf, Present, Writable, Cow, Drop, Hold, FaultFilled,
      FaultRefused, Pte, MakeEntry, LeafNode, InitPage;
    ghost var m, t, h, r := pm.Abs(), pm.tree, pm.held, pm.reserved;
    pm.Soundness();
    SoundSizes(m, t, h, r);
    NothingFaulted(m, t, mm.id, v);
    PresentFlags(b.ops);
    var physical := pm.TryAllocZeroPage();
    NoFrames(pm.Abs().used);
    if physical == 0 { return false; }
    FillStep(m, t, h, r, physical, InitPage(mm.file, b.backing, v));
    if b.backing.File? {
      var zeroed := pm.ReadPage(physical);
      var filled: Page;
      ok, filled := FillFromFile(mm.file, b, v, zeroed);
      if !ok { assert false; }
      pm.WritePage(physical, filled);
    } else {
      AnonPage(mm.file, v);
    }
    ghost var m1 := pm.Abs();
    pm.Own(t, Hold(h, physical));
    ok := MapPage(pm, mm.root, physical, v, b.ops + PRESENT, mm.id);
    pm.Soundness();
    if ok {
      FaultMapped(m, t, h, r, mm.Value(), v, b, physical, m1, pm.Abs(), pm.tree);
    } else {
      RootNode(mm.id, v, t, mm.root);
      RanOut(m, t, physical, m1, pm.Abs(), pm.tree, mm.id, v, {LeafNode(mm.id, v)});
      FaultUnmapped(m, t, h, r, mm.id, v, physical, m1, InitPage(mm.file, b.backing, v), pm.Abs(), pm.tree);
      ReleaseRefused(m, t, pm.Abs(), pm.tree, Hold(h, physical), r, mm.id, v, physical);
      var freed := pm.FreeBlock(physical);
    }
  }

  lemma RootNode(s: nat, v: nat, t: Tree, root: nat)
    requires Rooted(t, s, root)
    ensures TableNode(s, v, 0) in t
  {
    TableNodes(s, v);
  }

  /** Filling a fresh frame, whatever its contents. */
  lemma FillStep(m: Mem, t: Tree, h: seq<nat>, reserved: nat, f: nat, c: Page)
    requires Sound(m, t, h, reserved) && f < |m.used| && !m.used[f]
    ensures f < |h| && Sound(Fill(Alloc(m, f), f, c), t, Hold(h, f), reserved)
    ensures Fill(Fill(Alloc(m, f), f, ZeroPage()), f, c) == Fill(Alloc(m, f), f, c)
  {
    AllocSound(m, t, h, reserved, f);
    FreeIsUnnamed(m, t, h, reserved, f);
    FillSound(Alloc(m, f), t, Hold(h, f), reserved, f, c);
  }

  lemma ReleaseRefused(m: Mem, t: Tree, m': Mem, t': Tree, h: seq<nat>, reserved: nat, s: nat, v: nat, f: nat)
    requires FaultRefused(m, t, m', t', s, v) && Sound(m', t', h, reserved) && f < |h| && h[f] > 0
    ensures f < |m'.refs| == |m'.used| && m'.refs[f] > 0
    ensures FaultRefused(m, t, Release(m', f), t', s, v)
  {
    FreeNeverFails(m', t', h, reserved, f);
  }

  /** vmm_handle_page_fault. */
  method HandlePageFault(pm: PhysMem, mm: VmmMap, address: nat, present: bool, write: bool) returns (ok: bool)
    requires pm.Valid() && Rooted(pm.tree, mm.id, mm.root) && BlocksFit(Flat(mm.areas), mm.file)
    modifies pm`tree, pm`held, pm.bitmap, pm.refs, pm.ram, mm`total
    ensures pm.Valid() && pm.held == old(pm.held) && mm.total == old(mm.total) + (if ok then 1 else 0)
    ensures ok ==> !present && FaultAllowed(old(mm.Value()), address, write)
    ensures ok ==> FaultFilled(old(pm.Abs()), old(pm.tree), pm.Abs(), pm.tree, pm.held, old(mm.Value()),
        address / PAGE_SIZE, BlockAt(old(mm.Value()), address))
    ensures !ok ==> FaultRefused(old(pm.Abs()), old(pm.tree), pm.Abs(), pm.tree, mm.id, address / PAGE_SIZE)
    ensures !ok ==> present || !FaultAllowed(old(mm.Value()), address, write) || LeafNode(mm.id,
        address / PAGE_SIZE) in pm.tree || LowMemory(old(pm.Abs()).used)
  {
    hide Sound, Sized, Bitmapped, Counted, Shaped, Exclusive, Linked, Holders, Keeps, HeldKept, Exhausted, LowMemory,
      Grown, PhysMem.Valid, PhysMem.Abs, Bitmap.Bits, FrameOf, FlagsOf, Present, Writable, Cow, Drop, Hold, FaultFilled,
      FaultRefused, Pte, MakeEntry, LeafNode;
    pm.Soundness();
    var page := address - address % PAGE_SIZE;
    var v := page / PAGE_SIZE;
    NothingFaulted(pm.Abs(), pm.tree, mm.id, v);
    ok := false;
    if present { return; }
    var block := FindBlock(mm, page);
    if block.None? { return; }
    FindSpec(Flat(mm.areas), page);
    assert BlockFits(block.value, mm.file);
    if !block.value.demand { return; }
    if write && !Writable(block.value.ops) { return; }
    var found, table := Walk(pm, mm.root, v, mm.id);
    PteMeaning(pm.Abs(), pm.tree, pm.held, pm.reserved, mm.id, v);
    if found && Present(ReadWord(pm.ram[table], v % 512)) { return; }
    CowIsPresent(0);
    ok := DemandMap(pm, mm, block.value, v);
    if ok { mm.total := mm.total + 1; }
  }

  /** A page filled on demand can be read at every address that agrees with it in 48 bits, and at no other: above 48 bits,
      where only one of these addresses lies in the block, memory is no longer what the blocks say. */
  lemma FilledSeenAt(m: Mem, t: Tree, m': Mem, t': Tree, held: seq<nat>, sp: Space, v: nat, b: Block, w: nat)
    requires FaultFilled(m, t, m', t', held, sp, v, b) && (b.ops == USER || b.ops == READ_WRITE + USER)
    ensures LeafNode(sp.id, w) == LeafNode(sp.id, v) <==> w % VPNS == v % VPNS
    ensures w % VPNS == v % VPNS ==>
      Present(Pte(m'.ram, t', sp.id, w)) && Content(m'.ram, Pte(m'.ram, t', sp.id, w)) == InitPage(sp.file, b.backing, v)
    ensures w % VPNS != v % VPNS ==> SamePage(m.ram, t, m'.ram, t', sp.id, w)
  {
    PathEqual(v, w);
    LeafPath(sp.id, v);
    LeafPath(sp.id, w);
    PresentFlags(b.ops);
    assert Path(v) == Path(w) ==> TableNode(sp.id, v, 3) == TableNode(sp.id, w, 3) && v % 512 == w % 512 by {
      assert Path(v)[3] == v % 512 && Path(w)[3] == w % 512;
    }
    hide Path, InitPage, Content, Grown;
  }

  /** The block a fault at an address falls into. */
  function BlockAt(sp: Space, address: nat): Block {
    match Find(Flat(sp.areas), address - address % PAGE_SIZE)
    case Some(b) => b
    case None => Block(0, 0, 0, true, Anon)
  }

  /** The address lies in a block, and the block is writable if the access is a write. */
  predicate FaultAllowed(sp: Space, address: nat, write: bool) {
    Find(Flat(sp.areas), address - address % PAGE_SIZE).Some? && (write ==> Writable(BlockAt(sp, address).ops))
  }

  lemma NothingFaulted(m: Mem, t: Tree, s: nat, v: nat)
    ensures FaultRefused(m, t, m, t, s, v)
  {
    GrownRefl(t, s, v);
    GrownDeeper(t, t, s, v, 0, 4);
  }
}
