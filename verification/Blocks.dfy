// Memory blocks of an address space and what their pages hold before anybody writes to
// them (mm/vmm.h, mm/vmm.c).
module Blocks {
  import opened Words

  datatype Option<+T> = None | Some(value: T)

  const WRAP: nat := 0x1_0000_0000_0000_0000
  const MAX_OFFSET: nat := 0xffff_ffff
  // The three lists of struct vmm_map, in the order they are searched.
  const STACK: nat := 0
  const TEXT: nat := 1
  const DATA: nat := 2
  const SECTIONS: nat := 3

  /** What backs the pages of a block: nothing, or `size` bytes of the map's file from `offset` on,
      placed at address `vaddr`. */
  datatype Backing = Anon | File(vaddr: nat, offset: nat, size: nat)

  /** A run of `size` pages from the page-aligned address `vaddr` on. */
  datatype Block = Block(vaddr: nat, size: nat, ops: Word, demand: bool, backing: Backing)

  type Areas = a: seq<seq<Block>> | |a| == SECTIONS witness [[], [], []]

  /** All blocks, in search order. */
  function Flat(a: Areas): seq<Block> { a[STACK] + a[TEXT] + a[DATA] }

  /** block->vaddr + block->size * PAGE_SIZE in 64-bit arithmetic. */
  function End(b: Block): nat { (b.vaddr + b.size * PAGE_SIZE) % WRAP }

  predicate Contains(b: Block, address: nat) { b.vaddr <= address < End(b) }

  /** The first block that contains an address. */
  function Find(bs: seq<Block>, address: nat): Option<Block> {
    if bs == [] then None
    else if Contains(bs[0], address) then Some(bs[0])
    else Find(bs[1..], address)
  }

  lemma {:induction false} FindSpec(bs: seq<Block>, address: nat)
    ensures Find(bs, address).None? <==> forall i :: 0 <= i < |bs| ==> !Contains(bs[i], address)
    ensures Find(bs, address).Some? ==> Find(bs, address).value in bs && Contains(Find(bs, address).value, address)
  {
    if bs != [] && !Contains(bs[0], address) {
      FindSpec(bs[1..], address);
      forall i | 0 < i < |bs| ensures bs[i] == bs[1..][i - 1] {}
    }
  }

  lemma {:induction false} FindAppend(a: seq<Block>, b: seq<Block>, address: nat)
    ensures Find(a + b, address) == if Find(a, address).Some? then Find(a, address) else Find(b, address)
  {
    if a == [] {
      assert a + b == b;
    } else {
      FindAppend(a[1..], b, address);
      assert (a + b)[1..] == a[1..] + b;
    }
  }

  predicate Disjoint(a: Block, b: Block) { End(a) <= b.vaddr || End(b) <= a.vaddr }

  /** A block demand filling can serve: aligned, ending a page before the addresses wrap, with demand-filled pages,
      plain permission bits, and file bytes that exist. */
  predicate BlockFits(b: Block, file: Option<seq<Byte>>) {
    && b.vaddr % PAGE_SIZE == 0 && b.size > 0 && b.vaddr + b.size * PAGE_SIZE <= WRAP - PAGE_SIZE
    && b.demand && (b.ops == USER || b.ops == READ_WRITE + USER)
    && (b.backing.File? ==>
      && file.Some? && b.backing.vaddr + b.backing.size < WRAP
      && b.backing.offset + b.backing.size <= |file.value| && b.backing.offset + b.backing.size <= MAX_OFFSET + 1)
  }

  /** Such a block in the addresses the four tables tell apart. */
  predicate BlockOk(b: Block, file: Option<seq<Byte>>) {
    && BlockFits(b, file) && b.vaddr + b.size * PAGE_SIZE <= 0x1_0000_0000_0000
    && (b.backing.File? ==> b.backing.vaddr + b.backing.size <= 0x1_0000_0000_0000)
  }

  /** The blocks of a space, wherever they are. */
  predicate BlocksFit(bs: seq<Block>, file: Option<seq<Byte>>) { forall i :: 0 <= i < |bs| ==> BlockFits(bs[i], file) }

  predicate BlocksOk(bs: seq<Block>, file: Option<seq<Byte>>) {
    && (forall i :: 0 <= i < |bs| ==> BlockOk(bs[i], file))
    && (forall i, j :: 0 <= i < j < |bs| ==> Disjoint(bs[i], bs[j]))
  }

  /** The byte at address a before anybody writes to it. */
  function InitByte(file: Option<seq<Byte>>, backing: Backing, a: int): Byte {
    match backing
    case Anon => 0
    case File(vaddr, offset, size) =>
      if file.Some? && vaddr <= a < vaddr + size && offset + (a - vaddr) < |file.value|
      then file.value[offset + (a - vaddr)] else 0
  }

  function InitBytes(file: Option<seq<Byte>>, backing: Backing, a: nat, n: nat): (r: seq<Byte>)
    ensures |r| == n && forall i :: 0 <= i < n ==> r[i] == InitByte(file, backing, a + i)
  {
    if n == 0 then [] else InitBytes(file, backing, a, n - 1) + [InitByte(file, backing, a + n - 1)]
  }

  /** The contents of page v before anybody writes to it. */
  function InitPage(file: Option<seq<Byte>>, backing: Backing, v: nat): Page {
    InitBytes(file, backing, v * 4096, 4096)
  }

  function Max(a: int, b: int): int { if a > b then a else b }
  function Min(a: int, b: int): int { if a < b then a else b }

  /** vfs_read_file_offset: the bytes from offset on, fewer than asked for at the end of the file. */
  function ReadAt(file: seq<Byte>, offset: nat, count: nat): seq<Byte> {
    if offset >= |file| then [] else file[offset..Min(offset + count, |file|)]
  }

  /** page with data copied over it from index `at` on. */
  function Overlay(page: Page, at: nat, data: seq<Byte>): Page
    requires at + |data| <= 4096
  {
    page[..at] + data + page[at + |data|..]
  }

  /** The part of page v that comes from the file, copied over zeroes, is the page's initial contents. */
  lemma FilledPage(file: Option<seq<Byte>>, b: Block, v: nat)
    requires BlockFits(b, file) && b.backing.File?
    ensures
      var start, end := Max(v * 4096, b.backing.vaddr), Min(v * 4096 + 4096, b.backing.vaddr + b.backing.size);
      if start < end then
        var data := ReadAt(file.value, b.backing.offset + start - b.backing.vaddr, end - start);
        |data| == end - start && start - v * 4096 + |data| <= 4096
        && Overlay(ZeroPage(), start - v * 4096, data) == InitPage(file, b.backing, v)
      else ZeroPage() == InitPage(file, b.backing, v)
  {
    var start, end := Max(v * 4096, b.backing.vaddr), Min(v * 4096 + 4096, b.backing.vaddr + b.backing.size);
    var init := InitPage(file, b.backing, v);
    if start < end {
      var data := ReadAt(file.value, b.backing.offset + start - b.backing.vaddr, end - start);
      var page := Overlay(ZeroPage(), start - v * 4096, data);
      forall i | 0 <= i < 4096 ensures page[i] == init[i] { assert init[i] == InitByte(file, b.backing, v * 4096 + i); }
    } else {
      forall i | 0 <= i < 4096 ensures ZeroPage()[i] == init[i] { assert init[i] == InitByte(file, b.backing,
          v * 4096 + i); }
    }
  }

  lemma AnonPage(file: Option<seq<Byte>>, v: nat)
    ensures InitPage(file, Anon, v) == ZeroPage()
  {
  }
}
