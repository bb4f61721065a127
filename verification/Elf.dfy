// Mapping the segments of an ELF executable (sched/exec.c).  Nothing is read in but the program
// headers; what a process later finds in its pages is what loading the segments at once would give.
module Elf {
  import opened Words
  import opened PageTree
  import opened FlatMap
  import opened Pmem
  import Bitmap
  import opened Paging
  import opened Blocks
  import opened Vmm
  import opened Memory
  import opened Fork
  import opened KernelMemory
  import opened EagerMemory
  import opened Processes

  const HEADER_SIZE: nat := 56
  const LOAD: nat := 1
  const KERNEL_START: nat := 0xffff_ffff_8000_0000
  const OFFSETS: nat := 0x1_0000_0000

  /** struct proghdr without the physical address. */
  datatype Segment = Segment(kind: Word, flags: Word, off: Word, vaddr: Word, filesz: Word, memsz: Word, align: Word)

  function Field(s: seq<Byte>, at: nat, n: nat): (w: Word)
    requires at + n <= |s| && n <= 8
  {
    FromBytesBound(s[at..at + n]);
    FieldBound(n);
    FromBytes(s[at..at + n])
  }

  lemma {:induction false} FieldBound(n: nat)
    requires n <= 8
    ensures Pow256(n) <= 0x1_0000_0000_0000_0000
  {
    Pow256Of8();
    if n < 8 { Pow256Grows(n, 8); }
  }

  lemma {:induction false} Pow256Grows(n: nat, k: nat)
    requires n <= k
    ensures Pow256(n) <= Pow256(k)
    decreases k
  {
    if n < k { Pow256Grows(n, k - 1); }
  }

  /** The fields of a program header, little-endian. */
  function Parse(s: seq<Byte>): Segment
    requires |s| == HEADER_SIZE
  {
    Segment(Field(s, 0, 4), Field(s, 4, 4), Field(s, 8, 8), Field(s, 16, 8), Field(s, 32, 8), Field(s, 40, 8),
        Field(s, 48, 8))
  }

  predicate Executable(h: Segment) { h.flags % 2 == 1 }

  predicate PowerOfTwo(n: nat) { n == 1 || (n > 1 && n % 2 == 0 && PowerOfTwo(n / 2)) }

  /** What a loadable segment has to satisfy, in unbounded arithmetic. */
  predicate SegmentOk(h: Segment, size: nat) {
    && 0 < h.memsz && h.filesz <= h.memsz && h.vaddr + h.memsz <= KERNEL_START
    && h.off + h.filesz <= size && h.off + h.filesz <= OFFSETS
    && (h.align > 1 ==> PowerOfTwo(h.align) && (h.vaddr - h.off) % h.align == 0)
  }

  lemma {:induction false} PowerDivides(n: nat, k: nat)
    requires PowerOfTwo(n) && n <= Bitmap.Pow2(k)
    ensures Bitmap.Pow2(k) % n == 0
    decreases k
  {
    if n > 1 && k > 0 {
      PowerDivides(n / 2, k - 1);
      var q := Bitmap.Pow2(k - 1) / (n / 2);
      assert Bitmap.Pow2(k) == q * n;
      Multiple(q, n);
    }
  }

  lemma {:induction false} AtLeast(k: int, n: nat)
    ensures k >= 1 ==> k * n >= n
    ensures k <= -1 ==> k * n <= 0 - n
    decreases if k < 0 then -k else k
  {
    if k > 1 {
      AtLeast(k - 1, n);
      assert k * n == (k - 1) * n + n;
    } else if k < -1 {
      AtLeast(k + 1, n);
      assert k * n == (k + 1) * n - n;
    }
  }

  /** Quotient and remainder are unique. */
  lemma Unique(d: int, r: nat, e: int, s: nat, n: nat)
    requires d * n + r == e * n + s && r < n && s < n
    ensures d == e && r == s
  {
    assert (e - d) * n == e * n - d * n == r - s;
    SmallMultiple(e - d, n);
  }

  lemma SmallMultiple(k: int, n: nat)
    requires 0 - n < k * n < n
    ensures k == 0
  {
    AtLeast(k, n);
  }

  lemma Remainder(x: int, d: int, r: nat, n: nat)
    requires x == d * n + r && r < n
    ensures x % n == r
  {
    Unique(x / n, x % n, d, r, n);
  }

  lemma Multiple(q: int, n: nat)
    requires n > 0
    ensures q * n % n == 0
  {
    Remainder(q * n, q, 0, n);
  }

  /** Wrapping a difference does not change its remainder by a power of two. */
  lemma WrappedRemainder(a: Word, b: Word, n: Word)
    requires PowerOfTwo(n)
    ensures (a - b) % WRAP % n == (a - b) % n
  {
    Bitmap.Pow2Of64();
    PowerDivides(n, 64);
    var q, k := WRAP / n, if a < b then 1 else 0;
    assert WRAP == q * n;
    assert (a - b) % WRAP == (a - b) + k * WRAP == (a - b) + (k * q) * n;
    AddMultiple(a - b, k * q, n);
  }

  lemma AddMultiple(x: int, q: int, n: nat)
    requires n > 0
    ensures (x + q * n) % n == x % n
  {
    var d, r := x / n, x % n;
    assert x + q * n == (d + q) * n + r;
    Remainder(x + q * n, d + q, r, n);
  }

  /** align & (align - 1), as a test. */
  method IsPowerOfTwo(align: Word) returns (yes: bool)
    requires align > 1
    ensures yes <==> PowerOfTwo(align)
  {
    var n := align;
    while n > 1 && n % 2 == 0
      invariant n >= 1 && (PowerOfTwo(n) <==> PowerOfTwo(align))
    {
      n := n / 2;
    }
    yes := n == 1;
  }

  /** The checks of the loop body, in 64-bit arithmetic. */
  method CheckSegment(h: Segment, size: nat) returns (ok: bool)
    requires size < WRAP
    ensures ok <==> SegmentOk(h, size)
  {
    ok := false;
    if h.filesz > h.memsz || h.memsz == 0 || (h.vaddr + h.memsz) % WRAP < h.vaddr || (h.off + h.filesz) % WRAP < h.off { return; }
    var segment_end, file_end := (h.vaddr + h.memsz) % WRAP, (h.off + h.filesz) % WRAP;
    if file_end > size || file_end > OFFSETS || h.vaddr >= KERNEL_START || segment_end > KERNEL_START { return; }
    if h.align > 1 {
      var power := IsPowerOfTwo(h.align);
      if !power { return; }
      WrappedRemainder(h.vaddr, h.off, h.align);
      if (h.vaddr - h.off) % WRAP % h.align != 0 { return; }
    }
    if segment_end > WRAP - PAGE_SIZE { return; }
    ok := true;
  }

  function MapStart(h: Segment): nat { h.vaddr - h.vaddr % PAGE_SIZE }

  function MapEnd(h: Segment): nat { (h.vaddr + h.memsz + PAGE_SIZE - 1) / PAGE_SIZE * PAGE_SIZE }

  function PageOps(h: Segment): Word { if h.flags / 2 % 2 == 0 then USER_PAGE_RO else USER_PAGE }

  /** The block reserved for a segment. */
  function SegmentBlock(h: Segment): Block {
    FileBlock(MapStart(h), (MapEnd(h) - MapStart(h)) / PAGE_SIZE, PageOps(h), h.vaddr, h.off, h.filesz)
  }

  /** The block of an accepted segment covers exactly the pages the segment touches, and demand filling can serve it. */
  lemma AcceptedBlock(h: Segment, file: seq<Byte>)
    requires SegmentOk(h, |file|)
    ensures var b := SegmentBlock(h);
      && b.vaddr == MapStart(h) && b.vaddr + b.size * PAGE_SIZE == MapEnd(h) == End(b)
      && MapStart(h) <= h.vaddr && h.vaddr + h.memsz <= MapEnd(h)
      && h.vaddr < MapStart(h) + PAGE_SIZE && MapEnd(h) < h.vaddr + h.memsz + PAGE_SIZE
      && b.ops == (if h.flags / 2 % 2 == 0 then USER else READ_WRITE + USER)
      && b.backing == File(h.vaddr, h.off, h.filesz) && BlockFits(b, Some(file))
    ensures h.vaddr + h.memsz <= CANONICAL ==> BlockOk(SegmentBlock(h), Some(file))
  {
    var start, end := h.vaddr / PAGE_SIZE, (h.vaddr + h.memsz + PAGE_SIZE - 1) / PAGE_SIZE;
    assert MapStart(h) == start * PAGE_SIZE && MapEnd(h) == end * PAGE_SIZE;
    assert (MapEnd(h) - MapStart(h)) / PAGE_SIZE == end - start;
    assert Present(USER_PAGE) && Present(USER_PAGE_RO);
  }

  // ----- what a segment holds -----

  /** The byte of a segment at address a, as loading it at once would put it there. */
  function SegmentByte(h: Segment, file: seq<Byte>, a: nat): Byte {
    if h.vaddr <= a < h.vaddr + h.filesz && h.off + (a - h.vaddr) < |file| then file[h.off + (a - h.vaddr)] else 0
  }

  /** Filling the pages of a segment's block on demand gives the file's bytes, and zero around them. */
  lemma SegmentContents(h: Segment, file: seq<Byte>, a: nat)
    requires SegmentOk(h, |file|) && MapStart(h) <= a < MapEnd(h)
    ensures PageOf(a) in Loaded(Some(file), SegmentBlock(h))
    ensures var page := Loaded(Some(file), SegmentBlock(h))[PageOf(a)];
      && page.contents[a % PAGE_SIZE] == SegmentByte(h, file, a)
      && (page.writable <==> h.flags / 2 % 2 == 1)
    ensures h.vaddr <= a < h.vaddr + h.filesz ==> h.off + (a - h.vaddr) < |file|
  {
    AcceptedBlock(h, file);
    var b, v := SegmentBlock(h), PageOf(a);
    assert v * PAGE_SIZE + a % PAGE_SIZE == a;
    InBlock(b, Some(file), v);
    StartOfPage(MapStart(h), MapEnd(h), a);
    var page := InitPage(Some(file), b.backing, v);
    assert page[a % PAGE_SIZE] == InitByte(Some(file), b.backing, v * 4096 + a % PAGE_SIZE);
  }

  lemma StartOfPage(start: nat, end: nat, a: nat)
    requires start % PAGE_SIZE == 0 && end % PAGE_SIZE == 0 && start <= a < end
    ensures start <= a / PAGE_SIZE * PAGE_SIZE < end
  {
  }

  // ----- the program header table -----

  const MAGIC: nat := 0x464C_457F
  const FILE_HEADER: nat := 64

  /** The i-th program header, if the file reaches that far. */
  function HeaderAt(file: seq<Byte>, phoff: nat, i: nat): Option<Segment> {
    var s := ReadAt(file, phoff + HEADER_SIZE * i, HEADER_SIZE);
    if |s| == HEADER_SIZE then Some(Parse(s)) else None
  }

  /** The loadable segments among the first n program headers. */
  function Loads(file: seq<Byte>, phoff: nat, n: nat): seq<Segment> {
    if n == 0 then []
    else
      var h := HeaderAt(file, phoff, n - 1);
      if h.Some? && h.value.kind == LOAD then Loads(file, phoff, n - 1) + [h.value] else Loads(file, phoff, n - 1)
  }

  lemma {:induction false} LoadsPrefix(file: seq<Byte>, phoff: nat, i: nat, n: nat)
    requires i <= n
    ensures Loads(file, phoff, i) <= Loads(file, phoff, n)
    decreases n
  {
    if i < n { LoadsPrefix(file, phoff, i, n - 1); }
  }

  predicate PagesApart(g: Segment, h: Segment) { MapEnd(g) <= MapStart(h) || MapEnd(h) <= MapStart(g) }

  predicate EntryIn(h: Segment, entry: nat) { Executable(h) && h.vaddr <= entry < h.vaddr + h.memsz }

  /** The segments are accepted: each one is in order, no two touch the same page. */
  ghost predicate SegmentsOk(hs: seq<Segment>, size: nat) {
    && (forall i :: 0 <= i < |hs| ==> SegmentOk(hs[i], size))
    && (forall i, j :: 0 <= i < j < |hs| ==> PagesApart(hs[i], hs[j]))
  }

  ghost predicate HasEntry(hs: seq<Segment>, entry: nat) { exists i :: 0 <= i < |hs| && EntryIn(hs[i], entry) }

  // ----- segments and the page tables -----

  /** The page belongs to one of the segments. */
  ghost predicate Touched(hs: seq<Segment>, v: nat) { exists i :: 0 <= i < |hs| && Covers(hs[i], v * PAGE_SIZE) }

  /** The page tables have an entry of its own for every page of the segments. */
  ghost predicate ToldApart(hs: seq<Segment>) {
    forall v: nat, w: nat :: Touched(hs, v) && Touched(hs, w) && v != w ==> Path(v) != Path(w)
  }

  function Span(h: Segment): int { MapEnd(h) - MapStart(h) }

  /** Taken round the circle of 48-bit addresses, neither segment's pages reach the other's first one. */
  predicate SpansApart(g: Segment, h: Segment) {
    (MapStart(h) - MapStart(g)) % CANONICAL >= Span(g) && (MapStart(g) - MapStart(h)) % CANONICAL >= Span(h)
  }

  /** What a caller can check on the program headers. */
  ghost predicate ApartOnCircle(hs: seq<Segment>) {
    && (forall i :: 0 <= i < |hs| ==> Span(hs[i]) <= CANONICAL)
    && (forall i, j :: 0 <= i < j < |hs| ==> SpansApart(hs[i], hs[j]))
  }

  /** Accepted segments are told apart by the page tables exactly when their spans are apart on the circle of
      48-bit addresses and none goes more than once around it. */
  lemma SegmentsToldApart(hs: seq<Segment>, size: nat)
    requires SegmentsOk(hs, size)
    ensures ToldApart(hs) <==> ApartOnCircle(hs)
  {
    if ApartOnCircle(hs) {
      forall v: nat, w: nat | Touched(hs, v) && Touched(hs,
          w) && v != w ensures Path(v) != Path(w) { ApartPages(hs, v, w); }
    } else if i :| 0 <= i < |hs| && Span(hs[i]) > CANONICAL {
      LongSpan(hs, size, i);
    } else {
      var i, j :| 0 <= i < j < |hs| && !SpansApart(hs[i], hs[j]);
      if (MapStart(hs[j]) - MapStart(hs[i])) % CANONICAL < Span(hs[i]) { MeetingSpans(hs, size, i,
          j); } else { MeetingSpans(hs, size, j, i); }
    }
  }

  /** The same entries translate two pages exactly when their addresses agree in 48 bits. */
  lemma SameEntry(v: nat, w: nat)
    ensures Path(v) == Path(w) <==> (v * PAGE_SIZE - w * PAGE_SIZE) % CANONICAL == 0
  {
    PathEqual(v, w);
    assert v * PAGE_SIZE - w * PAGE_SIZE == (v - w) * PAGE_SIZE && CANONICAL == VPNS * PAGE_SIZE;
    if v % VPNS == w % VPNS {
      var k := v / VPNS - w / VPNS;
      assert v - w == k * VPNS;
      Multiple(k, CANONICAL);
    }
    if (v * PAGE_SIZE - w * PAGE_SIZE) % CANONICAL == 0 {
      var k := (v * PAGE_SIZE - w * PAGE_SIZE) / CANONICAL;
      assert (v - w) * PAGE_SIZE == k * VPNS * PAGE_SIZE;
      AddMultiple(w, k, VPNS);
    }
  }

  lemma ApartPages(hs: seq<Segment>, v: nat, w: nat)
    requires ApartOnCircle(hs) && Touched(hs, v) && Touched(hs, w) && v != w
    ensures Path(v) != Path(w)
  {
    hide Covers, SpansApart, Span, Path;
    var i :| 0 <= i < |hs| && Covers(hs[i], v * PAGE_SIZE);
    var j :| 0 <= j < |hs| && Covers(hs[j], w * PAGE_SIZE);
    SameEntry(v, w);
    if i == j {
      WithinSpan(hs[i], v * PAGE_SIZE, w * PAGE_SIZE);
    } else if i < j {
      BetweenSpans(hs[i], hs[j], v * PAGE_SIZE, w * PAGE_SIZE);
    } else {
      BetweenSpans(hs[j], hs[i], w * PAGE_SIZE, v * PAGE_SIZE);
      Negated(v * PAGE_SIZE - w * PAGE_SIZE);
    }
  }

  lemma Negated(x: int)
    ensures x % CANONICAL == 0 <==> (0 - x) % CANONICAL == 0
  {
    if x % CANONICAL == 0 { Multiple(0 - x / CANONICAL, CANONICAL); }
    if (0 - x) % CANONICAL == 0 { Multiple(0 - (0 - x) / CANONICAL, CANONICAL); }
  }

  lemma WithinSpan(h: Segment, a: nat, b: nat)
    requires Covers(h, a) && Covers(h, b) && Span(h) <= CANONICAL && a != b
    ensures (a - b) % CANONICAL != 0
  {
    if a > b { Remainder(a - b, 0, a - b, CANONICAL); } else { Remainder(a - b, -1, a - b + CANONICAL, CANONICAL); }
  }

  lemma BetweenSpans(g: Segment, h: Segment, a: nat, b: nat)
    requires Covers(g, a) && Covers(h, b) && Span(g) <= CANONICAL && Span(h) <= CANONICAL && SpansApart(g, h)
    ensures (a - b) % CANONICAL != 0
  {
    if (a - b) % CANONICAL == 0 {
      OnCircle(MapStart(g), a - MapStart(g), MapStart(h), b - MapStart(h), CANONICAL);
    }
  }

  /** Addresses that agree on a circle of n, x past s and y past r. */
  lemma OnCircle(s: int, x: nat, r: int, y: nat, n: nat)
    requires n > 0 && x < n && y < n && (s + x - (r + y)) % n == 0
    ensures x >= y ==> (r - s) % n == x - y
    ensures x <= y ==> (s - r) % n == y - x
  {
    var k := (s + x - (r + y)) / n;
    assert s + x - (r + y) == k * n;
    if x >= y { assert r - s == (0 - k) * n + (x - y); Remainder(r - s, 0 - k, x - y, n); }
    if x <= y { Remainder(s - r, k, y - x, n); }
  }

  lemma LongSpan(hs: seq<Segment>, size: nat, i: nat)
    requires SegmentsOk(hs, size) && i < |hs| && Span(hs[i]) > CANONICAL
    ensures !ToldApart(hs)
  {
    assert SegmentOk(hs[i], size);
    StartsPage(hs[i]);
    hide SegmentsOk, SegmentOk, MapStart, MapEnd, Path;
    var v := MapStart(hs[i]) / PAGE_SIZE;
    SameEntry(v, v + VPNS);
    assert Covers(hs[i], v * PAGE_SIZE) && Covers(hs[i], (v + VPNS) * PAGE_SIZE);
    assert Touched(hs, v) && Touched(hs, v + VPNS);
  }

  lemma MeetingSpans(hs: seq<Segment>, size: nat, i: nat, j: nat)
    requires SegmentsOk(hs, size) && i < |hs| && j < |hs| && i != j
    requires (MapStart(hs[j]) - MapStart(hs[i])) % CANONICAL < Span(hs[i])
    ensures !ToldApart(hs)
  {
    var s, r := MapStart(hs[i]), MapStart(hs[j]);
    var d := (r - s) % CANONICAL;
    assert PagesApart(hs[i], hs[j]) || PagesApart(hs[j], hs[i]);
    assert SegmentOk(hs[i], size) && SegmentOk(hs[j], size);
    StartsPage(hs[i]);
    StartsPage(hs[j]);
    hide SegmentsOk, SegmentOk, MapStart, MapEnd, Path;
    var q := (r - s) / CANONICAL;
    assert d == r - s - q * CANONICAL;
    var v, w := s / PAGE_SIZE + (r / PAGE_SIZE - s / PAGE_SIZE - q * VPNS), r / PAGE_SIZE;
    assert v * PAGE_SIZE == s + d && w * PAGE_SIZE == r;
    Multiple(0 - q, CANONICAL);
    SameEntry(v, w);
    assert Covers(hs[i], v * PAGE_SIZE) && Covers(hs[j], w * PAGE_SIZE);
    assert Touched(hs, v) && Touched(hs, w) && v != w;
  }

  lemma StartsPage(h: Segment)
    requires h.memsz > 0
    ensures MapStart(h) % PAGE_SIZE == 0 && MapStart(h) == MapStart(h) / PAGE_SIZE * PAGE_SIZE
    ensures MapStart(h) < MapEnd(h)
  {
  }

  /** Two segments that are accepted and not told apart. */
  lemma NonCanonicalSegmentsAlias()
    ensures var hs := [Segment(LOAD, 5, 0, 0x40_0000, 1, 1, 1), Segment(LOAD, 6, 0, CANONICAL + 0x40_0000, 1, 1, 1)];
      SegmentsOk(hs, 64) && !ToldApart(hs)
  {
    var hs := [Segment(LOAD, 5, 0, 0x40_0000, 1, 1, 1), Segment(LOAD, 6, 0, CANONICAL + 0x40_0000, 1, 1, 1)];
    SegmentsToldApart(hs, 64);
    assert !SpansApart(hs[0], hs[1]);
  }

  function SegmentBlocks(hs: seq<Segment>): (bs: seq<Block>)
    ensures |bs| == |hs| && forall i :: 0 <= i < |hs| ==> bs[i] == SegmentBlock(hs[i])
  {
    if hs == [] then [] else SegmentBlocks(hs[..|hs| - 1]) + [SegmentBlock(hs[|hs| - 1])]
  }

  function Reservations(id: nat, file: seq<Byte>, hs: seq<Segment>): seq<Event> {
    if hs == [] then [] else Reservations(id, file, hs[..|hs| - 1]) + [Reserve(id, Some(file),
        SegmentBlock(hs[|hs| - 1]))]
  }

  function TextOnly(bs: seq<Block>): Areas { [[], bs, []] }

  lemma TextAppend(bs: seq<Block>, b: Block)
    ensures AddBlock(TextOnly(bs), TEXT, b) == TextOnly(bs + [b]) && Flat(TextOnly(bs)) == bs
  {
  }

  lemma OneMore(hs: seq<Segment>, h: Segment, id: nat, file: seq<Byte>)
    ensures SegmentBlocks(hs + [h]) == SegmentBlocks(hs) + [SegmentBlock(h)]
    ensures Reservations(id, file, hs + [h]) == Reservations(id, file, hs) + [Reserve(id, Some(file), SegmentBlock(h))]
  {
    assert (hs + [h])[..|hs|] == hs;
  }

  lemma ApartIs(hs: seq<Segment>, h: Segment, file: seq<Byte>)
    requires SegmentsOk(hs, |file|) && SegmentOk(h, |file|)
    ensures (exists b :: b in SegmentBlocks(hs) && !Disjoint(b, SegmentBlock(h))) <==> !SegmentsOk(hs + [h], |file|)
  {
    var bs, r := SegmentBlocks(hs), hs + [h];
    AcceptedBlock(h, file);
    forall i | 0 <= i < |hs| ensures Disjoint(bs[i], SegmentBlock(h)) <==> PagesApart(hs[i], h) {
      AcceptedBlock(hs[i], file);
    }
    hide SegmentOk, PagesApart, Disjoint, SegmentBlock, SegmentBlocks;
    if b :| b in bs && !Disjoint(b, SegmentBlock(h)) {
      var i :| 0 <= i < |bs| && bs[i] == b;
      assert !PagesApart(r[i], r[|hs|]);
    } else {
      forall i | 0 <= i < |hs| ensures PagesApart(hs[i], h) {
        assert bs[i] in bs;
      }
      forall i, j | 0 <= i < j < |r| ensures PagesApart(r[i], r[j]) {}
    }
  }

  /** One loadable segment. */
  method MapSegment(k: Kernel, id: nat, mm: VmmMap, h: Segment, ghost file: seq<Byte>,
          ghost hs: seq<Segment>) returns (ok: bool)
    requires k.Valid() && id in k.mms && k.mms[id] == mm && mm.file == Some(file)
    requires mm.areas == TextOnly(SegmentBlocks(hs))
    requires SegmentsOk(hs, |file|) && |file| < WRAP && (SegmentOk(h, |file|) ==> h.vaddr + h.memsz <= CANONICAL)
    modifies k`log, mm`areas
    ensures k.Valid() && (ok <==> SegmentsOk(hs + [h], |file|))
    ensures ok ==>
      mm.areas == TextOnly(SegmentBlocks(hs + [h])) && k.log == old(k.log) + [Reserve(id, Some(file), SegmentBlock(h))]
    ensures !ok ==> mm.areas == old(mm.areas) && k.log == old(k.log)
  {
    hide Kernel.Valid, SegmentOk, SegmentsOk, Disjoint, BlockOk, BlocksOk, SegmentBlocks, TextOnly, AddBlock, Flat,
      Eager;
    ok := CheckSegment(h, |mm.file.value|);
    LastOk(hs, h, |file|);
    if !ok { return; }
    AcceptedBlock(h, file);
    ApartIs(hs, h, file);
    TextAppend(SegmentBlocks(hs), SegmentBlock(h));
    OneMore(hs, h, id, file);
    var map_start := h.vaddr - h.vaddr % PAGE_SIZE;
    var map_end := (h.vaddr + h.memsz + PAGE_SIZE - 1) / PAGE_SIZE * PAGE_SIZE;
    var block := k.ReserveFileMapping(id, mm, TEXT, map_start, (map_end - map_start) / PAGE_SIZE, PageOps(h), h.vaddr,
        h.off, h.filesz);
    ok := block.Some?;
  }

  lemma LastOk(hs: seq<Segment>, h: Segment, size: nat)
    requires SegmentsOk(hs, size)
    ensures SegmentsOk(hs + [h], size) ==> SegmentOk(h, size)
  {
    assert (hs + [h])[|hs|] == h;
  }

  lemma PrefixOk(hs: seq<Segment>, all: seq<Segment>, size: nat)
    requires hs <= all
    ensures SegmentsOk(all, size) ==> SegmentsOk(hs, size)
  {
  }

  lemma EntryNext(hs: seq<Segment>, h: Segment, entry: nat)
    ensures HasEntry(hs + [h], entry) <==> HasEntry(hs, entry) || EntryIn(h, entry)
    ensures !HasEntry([], entry)
  {
    if EntryIn(h, entry) { assert EntryIn((hs + [h])[|hs|], entry); }
    if i :| 0 <= i < |hs| && EntryIn(hs[i], entry) { assert EntryIn((hs + [h])[i], entry); }
  }

  /** How far the loop over the program headers has come. */
  ghost predicate Mapped(areas: Areas, log0: seq<Event>, log: seq<Event>, id: nat, file: seq<Byte>, hs: seq<Segment>,
          entry: nat, entry_valid: bool) {
    && areas == TextOnly(SegmentBlocks(hs)) && log == log0 + Reservations(id, file, hs)
    && SegmentsOk(hs, |file|) && (entry_valid <==> HasEntry(hs, entry))
  }

  lemma MappedStart(log: seq<Event>, id: nat, file: seq<Byte>, phoff: nat, entry: nat)
    ensures Mapped(TextOnly([]), log, log, id, file, Loads(file, phoff, 0), entry, false)
  {
    assert log + [] == log;
  }

  lemma MappedNext(areas: Areas, areas': Areas, log0: seq<Event>, log: seq<Event>, log': seq<Event>, id: nat,
          file: seq<Byte>, hs: seq<Segment>,
                   h: Segment, entry: nat, entry_valid: bool)
    requires Mapped(areas, log0, log, id, file, hs, entry, entry_valid) && SegmentsOk(hs + [h], |file|)
    requires areas' == TextOnly(SegmentBlocks(hs + [h])) && log' == log + [Reserve(id, Some(file), SegmentBlock(h))]
    ensures Mapped(areas', log0, log', id, file, hs + [h], entry, entry_valid || EntryIn(h, entry))
  {
    hide SegmentsOk, EntryIn, HasEntry, SegmentBlock;
    OneMore(hs, h, id, file);
    EntryNext(hs, h, entry);
  }

  /** What all loadable headers satisfy, this one and those before it satisfy too. */
  lemma HeaderFacts(file: seq<Byte>, phoff: nat, i: nat, n: nat)
    requires i < n && phoff + HEADER_SIZE * n <= |file| && phoff + HEADER_SIZE * n <= OFFSETS
    ensures (phoff + HEADER_SIZE * i) % OFFSETS == phoff + HEADER_SIZE * i
    ensures var s := ReadAt(file, phoff + HEADER_SIZE * i, HEADER_SIZE);
      |s| == HEADER_SIZE && HeaderAt(file, phoff, i) == Some(Parse(s))
    ensures var h := HeaderAt(file, phoff, i).value;
      && Loads(file, phoff, i + 1) == (if h.kind == LOAD then Loads(file, phoff, i) + [h] else Loads(file, phoff, i))
      && (h.kind == LOAD ==> h in Loads(file, phoff, n))
      && (h.kind == LOAD && SegmentsOk(Loads(file, phoff, n), |file|) ==> SegmentsOk(Loads(file, phoff, i) + [h],
          |file|))
  {
    hide Parse, SegmentsOk;
    LoadsPrefix(file, phoff, i + 1, n);
    PrefixOk(Loads(file, phoff, i + 1), Loads(file, phoff, n), |file|);
    if HeaderAt(file, phoff, i).value.kind == LOAD {
      assert Loads(file, phoff, i + 1)[|Loads(file, phoff, i)|] in Loads(file, phoff, n);
    }
  }

  /** One turn of the loop over the program headers. */
  method MapHeader(k: Kernel, id: nat, mm: VmmMap, entry: Word, phoff: Word, phnum: nat, i: nat, entry_valid: bool,
                   ghost file: seq<Byte>, ghost log0: seq<Event>) returns (ok: bool, found: bool)
    requires k.Valid() && id in k.mms && k.mms[id] == mm && mm.file == Some(file) && |file| < WRAP && i < phnum
    requires phoff + HEADER_SIZE * phnum <= |file| && phoff + HEADER_SIZE * phnum <= OFFSETS
    requires forall h :: h in Loads(file, phoff, phnum) && SegmentOk(h, |file|) ==> h.vaddr + h.memsz <= CANONICAL
    requires Mapped(mm.areas, log0, k.log, id, file, Loads(file, phoff, i), entry, entry_valid)
    modifies k`log, mm`areas
    ensures k.Valid() && (ok ==> Mapped(mm.areas, log0, k.log, id, file, Loads(file, phoff, i + 1), entry, found))
    ensures !ok ==> !SegmentsOk(Loads(file, phoff, phnum), |file|)
  {
    hide Kernel.Valid, SegmentOk, SegmentsOk, SegmentBlocks, SegmentBlock, TextOnly, HasEntry, Parse, Loads, HeaderAt,
      Reservations;
    ghost var hs, log, areas := Loads(file, phoff, i), k.log, mm.areas;
    found := entry_valid;
    HeaderFacts(file, phoff, i, phnum);
    var s := ReadAt(mm.file.value, (phoff + HEADER_SIZE * i) % OFFSETS, HEADER_SIZE);
    if |s| != HEADER_SIZE { return false, found; }
    var h := Parse(s);
    if h.kind != LOAD { return true, found; }
    ok := MapSegment(k, id, mm, h, file, hs);
    if !ok { return; }
    MappedNext(areas, mm.areas, log0, log, k.log, id, file, hs, h, entry, entry_valid);
    if Executable(h) && h.vaddr <= entry < h.vaddr + h.memsz { found := true; }
  }

  /** The loop over the program headers: it succeeds exactly when every loadable segment is in order, no two touch
      the same page, and the entry point lies in an executable one; then one block is reserved for each. */
  method MapSegments(k: Kernel, id: nat, mm: VmmMap, entry: Word, phoff: Word, phnum: nat,
          ghost file: seq<Byte>) returns (ok: bool)
    requires k.Valid() && id in k.mms && k.mms[id] == mm && mm.file == Some(file) && mm.areas == TextOnly([])
    requires |file| < WRAP
    requires phoff + HEADER_SIZE * phnum <= |file| && phoff + HEADER_SIZE * phnum <= OFFSETS
    requires forall h :: h in Loads(file, phoff, phnum) && SegmentOk(h, |file|) ==> h.vaddr + h.memsz <= CANONICAL
    modifies k`log, mm`areas
    ensures k.Valid()
    ensures (ok <==> SegmentsOk(Loads(file, phoff, phnum), |file|) && HasEntry(Loads(file, phoff, phnum), entry))
    ensures ok ==> k.log == old(k.log) + Reservations(id, file, Loads(file, phoff, phnum))
  {
    hide *;
    ghost var log := k.log;
    MappedStart(log, id, file, phoff, entry);
    var entry_valid, i := false, 0;
    while i < phnum
      invariant i <= phnum && k.Valid()
      invariant Mapped(mm.areas, log, k.log, id, file, Loads(file, phoff, i), entry, entry_valid)
    {
      ok, entry_valid := MapHeader(k, id, mm, entry, phoff, phnum, i, entry_valid, file, log);
      if !ok { return; }
      i := i + 1;
    }
    MappedEnd(mm.areas, log, k.log, id, file, Loads(file, phoff, phnum), entry, entry_valid);
    ok := entry_valid;
  }

  lemma MappedEnd(areas: Areas, log0: seq<Event>, log: seq<Event>, id: nat, file: seq<Byte>, hs: seq<Segment>,
          entry: nat, entry_valid: bool)
    requires Mapped(areas, log0, log, id, file, hs, entry, entry_valid)
    ensures SegmentsOk(hs, |file|) && (entry_valid <==> HasEntry(hs, entry)) && log == log0 + Reservations(id, file, hs)
  {
  }

  // ----- what the process finds in its memory -----

  /** Page of address a holds what segment h has there, with its permission. */
  ghost predicate HoldsSegment(image: Image, h: Segment, file: seq<Byte>, a: nat) {
    && PageOf(a) in image && image[PageOf(a)].contents[a % 4096] == SegmentByte(h, file, a)
    && (image[PageOf(a)].writable <==> h.flags / 2 % 2 == 1)
  }

  predicate Covers(h: Segment, a: nat) { MapStart(h) <= a < MapEnd(h) }

  /** Memory is the segments and nothing else. */
  ghost predicate HoldsAll(image: Image, hs: seq<Segment>, file: seq<Byte>) {
    && (forall i, a :: 0 <= i < |hs| && Covers(hs[i], a) ==> HoldsSegment(image, hs[i], file, a))
    && (forall v :: v in image ==> exists i :: 0 <= i < |hs| && Covers(hs[i], v * PAGE_SIZE))
  }

  /** With every segment's block reserved in an empty space, each byte of each segment is the file's or zero,
      whatever the order in which its pages are touched. */
  lemma {:induction false} LoadedSegments(id: nat, file: seq<Byte>, hs: seq<Segment>, log: seq<Event>)
    requires SegmentsOk(hs, |file|) && id in Eager(log) && Eager(log)[id] == map[]
    ensures id in Eager(log + Reservations(id, file, hs))
    ensures HoldsAll(Eager(log + Reservations(id, file, hs))[id], hs, file)
    decreases |hs|
  {
    if hs == [] {
      assert log + [] == log;
    } else {
      var n := |hs| - 1;
      var init, h := hs[..n], hs[n];
      PrefixOk(init, hs, |file|);
      assert hs == init + [h];
      hide SegmentsOk, HoldsAll, SegmentBlock, Loaded, Eager;
      LoadedSegments(id, file, init, log);
      var log1 := log + Reservations(id, file, init);
      assert log + Reservations(id, file, hs) == log1 + [Reserve(id, Some(file), SegmentBlock(h))];
      EagerNext(log1, Reserve(id, Some(file), SegmentBlock(h)));
      AddSegment(Eager(log1)[id], init, h, file, Eager(log + Reservations(id, file, hs))[id]);
    }
  }

  /** The new segment's pages hold it: no earlier segment has them. */
  lemma NewSegment(image: Image, hs: seq<Segment>, h: Segment, file: seq<Byte>, a: nat)
    requires SegmentsOk(hs + [h], |file|) && HoldsAll(image, hs, file) && Covers(h, a)
    ensures HoldsSegment(Loaded(Some(file), SegmentBlock(h)) + image, h, file, a)
  {
    assert (hs + [h])[|hs|] == h;
    assert SegmentOk(h, |file|);
    StartCovered(h, file, a);
    hide *;
    NoEarlier(image, hs, h, file, PageOf(a));
    LoadedHolds(image, h, file, a);
  }

  lemma StartCovered(h: Segment, file: seq<Byte>, a: nat)
    requires SegmentOk(h, |file|) && Covers(h, a)
    ensures Covers(h, PageOf(a) * PAGE_SIZE)
  {
    StartOfPage(MapStart(h), MapEnd(h), a);
  }

  lemma LoadedHolds(image: Image, h: Segment, file: seq<Byte>, a: nat)
    requires SegmentOk(h, |file|) && Covers(h, a) && PageOf(a) !in image
    ensures HoldsSegment(Loaded(Some(file), SegmentBlock(h)) + image, h, file, a)
  {
    SegmentContents(h, file, a);
    hide SegmentOk, SegmentBlock, Loaded, SegmentByte;
  }

  lemma NoEarlier(image: Image, hs: seq<Segment>, h: Segment, file: seq<Byte>, v: nat)
    requires SegmentsOk(hs + [h], |file|) && HoldsAll(image, hs, file) && Covers(h, v * PAGE_SIZE)
    ensures v !in image
  {
    var r := hs + [h];
    hide SegmentOk, SegmentByte, HoldsSegment;
    forall j | 0 <= j < |hs| ensures !Covers(hs[j], v * PAGE_SIZE) {
      assert PagesApart(r[j], r[|hs|]);
    }
  }

  lemma CoveredPage(image: Image, hs: seq<Segment>, h: Segment, file: seq<Byte>, v: nat)
    requires SegmentOk(h, |file|) && HoldsAll(image, hs, file)
    requires v in Loaded(Some(file), SegmentBlock(h)) + image
    ensures exists i :: 0 <= i < |hs + [h]| && Covers((hs + [h])[i], v * PAGE_SIZE)
  {
    var r := hs + [h];
    if v in image {
      var i :| 0 <= i < |hs| && Covers(hs[i], v * PAGE_SIZE);
      assert r[i] == hs[i];
    } else {
      AcceptedBlock(h, file);
      InBlock(SegmentBlock(h), Some(file), v);
      assert Covers(r[|hs|], v * PAGE_SIZE);
    }
  }

  /** The pages of an earlier segment stay as they are. */
  lemma EarlierSegment(image: Image, hs: seq<Segment>, file: seq<Byte>, i: nat, a: nat, more: Image)
    requires i < |hs| && HoldsAll(image, hs, file) && Covers(hs[i], a)
    ensures HoldsSegment(more + image, hs[i], file, a)
  {
    hide SegmentByte, Covers;
    assert HoldsSegment(image, hs[i], file, a);
  }

  lemma AddSegment(image: Image, hs: seq<Segment>, h: Segment, file: seq<Byte>, image': Image)
    requires SegmentsOk(hs + [h], |file|) && HoldsAll(image, hs, file)
    requires image' == Loaded(Some(file), SegmentBlock(h)) + image
    ensures HoldsAll(image', hs + [h], file)
  {
    var r := hs + [h];
    assert r[|hs|] == h;
    assert SegmentOk(h, |file|);
    hide SegmentsOk, SegmentOk, SegmentBlock, Loaded, SegmentByte, Covers, HoldsSegment;
    forall i, a | 0 <= i < |r| && Covers(r[i], a) ensures HoldsSegment(image', r[i], file, a) {
      if i < |hs| {
        EarlierSegment(image, hs, file, i, a, Loaded(Some(file), SegmentBlock(h)));
      } else {
        NewSegment(image, hs, h, file, a);
      }
    }
    AllCovered(image, hs, h, file);
  }

  lemma AllCovered(image: Image, hs: seq<Segment>, h: Segment, file: seq<Byte>)
    requires SegmentOk(h, |file|) && HoldsAll(image, hs, file)
    ensures forall v :: v in Loaded(Some(file), SegmentBlock(h)) + image ==>
      exists i :: 0 <= i < |hs + [h]| && Covers((hs + [h])[i], v * PAGE_SIZE)
  {
    hide SegmentOk, SegmentBlock, Loaded, Covers, HoldsAll;
    forall v | v in Loaded(Some(file), SegmentBlock(h)) + image ensures exists i :: 0 <= i < |hs + [h]| && Covers((hs + [h])[i], v * PAGE_SIZE) {
      CoveredPage(image, hs, h, file, v);
    }
  }

  // ----- exec -----

  function EntryPoint(file: seq<Byte>): Word
    requires |file| >= FILE_HEADER
  {
    Field(file, 24, 8)
  }

  function TableOffset(file: seq<Byte>): Word
    requires |file| >= FILE_HEADER
  {
    Field(file, 32, 8)
  }

  function TableLength(file: seq<Byte>): Word
    requires |file| >= FILE_HEADER
  {
    Field(file, 56, 2)
  }

  /** The file header is an ELF header whose program headers lie inside the file and below 2^32. */
  predicate HeaderOk(file: seq<Byte>) {
    && |file| >= FILE_HEADER && Field(file, 0, 4) == MAGIC && Field(file, 54, 2) == HEADER_SIZE
    && TableOffset(file) + HEADER_SIZE * TableLength(file) <= |file|
    && TableOffset(file) + HEADER_SIZE * TableLength(file) <= OFFSETS
  }

  function Segments(file: seq<Byte>): seq<Segment>
    requires HeaderOk(file)
  {
    Loads(file, TableOffset(file), TableLength(file))
  }

  /** What exec accepts. */
  ghost predicate Loadable(file: seq<Byte>) {
    HeaderOk(file) && SegmentsOk(Segments(file), |file|) && HasEntry(Segments(file), EntryPoint(file))
  }

  lemma FieldOf(file: seq<Byte>, at: nat, n: nat)
    requires |file| >= FILE_HEADER && at + n <= FILE_HEADER && n <= 8
    ensures Field(file[..FILE_HEADER], at, n) == Field(file, at, n)
  {
    assert file[..FILE_HEADER][at..at + n] == file[at..at + n];
  }

  /** The file header checks. */
  method CheckHeader(file: seq<Byte>) returns (ok: bool, entry: Word, phoff: Word, phnum: Word)
    ensures ok <==> HeaderOk(file)
    ensures ok ==> entry == EntryPoint(file) && phoff == TableOffset(file) && phnum == TableLength(file)
  {
    hide Field;
    ok, entry, phoff, phnum := false, 0, 0, 0;
    var hdr := ReadAt(file, 0, FILE_HEADER);
    if |hdr| != FILE_HEADER { return; }
    assert hdr == file[..FILE_HEADER];
    FieldOf(file, 0, 4);
    FieldOf(file, 24, 8);
    FieldOf(file, 32, 8);
    FieldOf(file, 54, 2);
    FieldOf(file, 56, 2);
    if Field(hdr, 0, 4) != MAGIC || Field(hdr, 54, 2) != HEADER_SIZE { return; }
    entry, phoff, phnum := Field(hdr, 24, 8), Field(hdr, 32, 8), Field(hdr, 56, 2);
    if phoff > |file| || phnum > (|file| - phoff) / HEADER_SIZE || phoff + phnum * HEADER_SIZE > OFFSETS { return; }
    ok := true;
  }

  /** exec_from_inode for a new process: it succeeds exactly on loadable files, unless not even a root table can be
      allocated; and then the process's memory is the file's segments, though none of their bytes has been read. */
  method Exec(k: Kernel, id: nat, file: seq<Byte>) returns (ok: bool)
    requires k.Valid() && id !in k.mms && |k.mms| < MAX_TASKS && |file| < WRAP
    requires HeaderOk(file) ==>
      forall h :: h in Segments(file) && SegmentOk(h, |file|) ==> h.vaddr + h.memsz <= CANONICAL
    modifies k`mms, k`log, k.pm`tree, k.pm`held, k.pm.bitmap, k.pm.refs, k.pm.ram
    ensures k.Valid()
    ensures ok ==> Loadable(file) && k.mms.Keys == old(k.mms).Keys + {id}
    ensures !ok ==> k.mms == old(k.mms) && (Loadable(file) ==> Exhausted(old(k.pm.Abs()).used))
    ensures ok ==> k.log == old(k.log) + [Create(id)] + Reservations(id, file, Segments(file))
    ensures ok ==> id in Eager(k.log) && HoldsAll(Eager(k.log)[id], Segments(file), file)
  {
    hide *;
    k.Meaning();
    var valid, entry, phoff, phnum := CheckHeader(file);
    LoadableIs(file);
    if !valid { return false; }
    var mm := k.NewMap(id);
    if mm == null { return false; }
    FreshSpace(id, mm.root);
    Fields(mm);
    ok := k.SetBackingFile(id, mm, file);
    ok := MapSegments(k, id, mm, entry, phoff, phnum, file);
    if !ok {
      k.ExitTask(id);
      Undone(old(k.mms), id, mm);
      return;
    }
    FreshImage(old(k.log), id);
    LoadedSegments(id, file, Segments(file), old(k.log) + [Create(id)]);
  }

  lemma LoadableIs(file: seq<Byte>)
    ensures Loadable(file) <==>
      HeaderOk(file) && SegmentsOk(Segments(file), |file|) && HasEntry(Segments(file), EntryPoint(file))
    ensures HeaderOk(file) ==>
      |file| >= FILE_HEADER && Segments(file) == Loads(file, TableOffset(file), TableLength(file))
    ensures HeaderOk(file) ==> TableOffset(file) + HEADER_SIZE * TableLength(file) <= |file| && TableOffset(file) + HEADER_SIZE * TableLength(file) <= OFFSETS
  {
  }

  lemma FreshSpace(id: nat, root: nat)
    ensures EmptySpace(id, root).file == None && EmptySpace(id, root).areas == TextOnly([])
  {
  }

  lemma FreshImage(log: seq<Event>, id: nat)
    ensures id in Eager(log + [Create(id)]) && Eager(log + [Create(id)])[id] == map[]
  {
    EagerNext(log, Create(id));
  }

  lemma Undone<T>(table: map<nat, T>, id: nat, x: T)
    requires id !in table
    ensures table[id := x] - {id} == table
  {
  }
}
