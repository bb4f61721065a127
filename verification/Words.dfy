// Bytes, pages and the 64-bit little-endian words kept in them, and the fields of
// a page-table entry (mm/paging.h).
module Words {
  type Byte = b: int | 0 <= b < 256

  const PAGE_SIZE: nat := 4096
  const ENTRIES: nat := 512

  type Page = s: seq<Byte> | |s| == 4096 witness seq(4096, _ => 0)

  function ZeroPage(): (c: Page)
    ensures forall i :: 0 <= i < PAGE_SIZE ==> c[i] == 0
  {
    seq(4096, _ => 0)
  }

  function Pow256(n: nat): (r: nat)
    ensures r > 0
  {
    if n == 0 then 1 else 256 * Pow256(n - 1)
  }

  type Word = w: int | 0 <= w < 0x1_0000_0000_0000_0000

  /** The low n bytes of w, least significant first. */
  function ToBytes(w: nat, n: nat): (s: seq<Byte>)
    ensures |s| == n
  {
    if n == 0 then [] else [w % 256] + ToBytes(w / 256, n - 1)
  }

  function FromBytes(s: seq<Byte>): nat {
    if s == [] then 0 else s[0] + 256 * FromBytes(s[1..])
  }

  lemma {:induction false} BytesRoundTrip(w: nat, n: nat)
    requires w < Pow256(n)
    ensures FromBytes(ToBytes(w, n)) == w
  {
    if n > 0 {
      BytesRoundTrip(w / 256, n - 1);
      assert ToBytes(w, n)[1..] == ToBytes(w / 256, n - 1);
    }
  }

  lemma {:induction false} FromBytesBound(s: seq<Byte>)
    ensures FromBytes(s) < Pow256(|s|)
  {
    if s != [] {
      FromBytesBound(s[1..]);
    }
  }

  lemma Pow256Of8()
    ensures Pow256(8) == 0x1_0000_0000_0000_0000
  {
    assert Pow256(2) == 0x1_0000;
    assert Pow256(4) == 0x1_0000_0000;
    assert Pow256(6) == 0x1_0000_0000_0000;
  }

  /** Entry i of the table stored in page c. */
  function ReadWord(c: Page, i: nat): (w: Word)
    requires i < ENTRIES
  {
    FromBytesBound(c[8 * i..8 * i + 8]);
    Pow256Of8();
    FromBytes(c[8 * i..8 * i + 8])
  }

  /** The page with entry i replaced by w. */
  function WriteWord(c: Page, i: nat, w: Word): (r: Page)
    requires i < ENTRIES
  {
    c[..8 * i] + ToBytes(w, 8) + c[8 * i + 8..]
  }

  lemma ReadAfterWrite(c: Page, i: nat, w: Word, j: nat)
    requires i < ENTRIES && j < ENTRIES
    ensures ReadWord(WriteWord(c, i, w), j) == if j == i then w else ReadWord(c, j)
  {
    var r := WriteWord(c, i, w);
    if j == i {
      assert r[8 * i..8 * i + 8] == ToBytes(w, 8);
      Pow256Of8();
      BytesRoundTrip(w, 8);
    } else {
      assert r[8 * j..8 * j + 8] == c[8 * j..8 * j + 8];
    }
  }

  lemma ZeroEntry(i: nat)
    requires i < ENTRIES
    ensures ReadWord(ZeroPage(), i) == 0 && !Present(ReadWord(ZeroPage(), i))
  {
    ZeroBytes(ZeroPage()[8 * i..8 * i + 8]);
  }

  lemma {:induction false} ZeroBytes(s: seq<Byte>)
    requires forall k | 0 <= k < |s| :: s[k] == 0
    ensures FromBytes(s) == 0
  {
    if s != [] {
      ZeroBytes(s[1..]);
    }
  }

  // Page-table entries: bit 0 present, bit 1 writable, bit 2 user, bit 9 copy-on-write,
  // bits 12..51 the physical page number.
  const PRESENT: nat := 1
  const READ_WRITE: nat := 2
  const USER: nat := 4
  const COW: nat := 512
  const USER_PAGE: nat := 7
  const USER_PAGE_RO: nat := 5
  const MAX_FRAME: nat := 0x100_0000_0000

  function FlagsOf(e: Word): (g: nat)
    ensures g < 4096
  {
    e % 4096
  }

  function FrameOf(e: Word): (f: nat)
    ensures f < MAX_FRAME
  {
    e / 4096 % MAX_FRAME
  }

  predicate Present(e: Word) { FlagsOf(e) % 2 == 1 }
  predicate Writable(e: Word) { FlagsOf(e) / 2 % 2 == 1 }
  predicate Cow(e: Word) { FlagsOf(e) / 512 % 2 == 1 }

  /** The bits above the page number, which no kernel mapping sets. */
  function HighOf(e: Word): (h: nat)
    ensures h < 4096
  {
    e / 4096 / MAX_FRAME
  }

  function Pack(high: nat, frame: nat, flags: nat): (e: Word)
    requires high < 4096 && frame < MAX_FRAME && flags < 4096
    ensures HighOf(e) == high && FrameOf(e) == frame && FlagsOf(e) == flags
  {
    var page := high * MAX_FRAME + frame;
    assert page < 4096 * MAX_FRAME;
    assert page / MAX_FRAME == high && page % MAX_FRAME == frame;
    var e := page * 4096 + flags;
    assert e / 4096 == page && e % 4096 == flags;
    e
  }

  function MakeEntry(frame: nat, flags: nat): (e: Word)
    requires frame < MAX_FRAME && flags < 4096
    ensures FrameOf(e) == frame && FlagsOf(e) == flags
    ensures Present(e) == Present(flags) && Writable(e) == Writable(flags) && Cow(e) == Cow(flags)
  {
    Pack(0, frame, flags)
  }

  /** The entry that refers to a user page table. */
  function TableEntry(frame: nat): (e: Word)
    requires frame < MAX_FRAME
    ensures FrameOf(e) == frame && FlagsOf(e) == USER_PAGE && Present(e)
  {
    MakeEntry(frame, USER_PAGE)
  }

  /** (e & ~READ_WRITE) | PAGE_COW, as fork applies it to a writable entry. */
  function MarkCow(e: Word): (r: Word)
    requires Writable(e)
    ensures !Writable(r) && Cow(r) && Present(r) == Present(e) && FrameOf(r) == FrameOf(e)
  {
    var g := FlagsOf(e) - READ_WRITE;
    Pack(HighOf(e), FrameOf(e), if Cow(e) then g else g + COW)
  }

  /** frame | ((e & ~PHYS_ADDR_MASK & ~PAGE_COW) | READ_WRITE). */
  function ClearCow(e: Word, frame: nat): (r: Word)
    requires Cow(e) && frame < MAX_FRAME
    ensures Writable(r) && !Cow(r) && Present(r) == Present(e) && FrameOf(r) == frame
  {
    var g := FlagsOf(e) - COW;
    Pack(HighOf(e), frame, if Writable(e) then g else g + READ_WRITE)
  }
}
