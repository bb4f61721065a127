// The kernel heap (mm/mm.c): first fit, splitting and coalescing, with doubly linked headers kept in the
// memory they describe.
module Heap {
  const HEADER: nat := 48
  const MIN_SIZE: nat := 64
  const ALIGNMENT: nat := 16
  const MAGIC: nat := 0x4b4d_454d_424c_4f43
  const HEAP_BYTES: nat := 8192 * 4096
  const START: nat := 0xffff_c000_0000_0000

  /** struct mm_block; addresses are numbers and NULL is 0. */
  datatype Header = Header(size: nat, next: nat, prev: nat, magic: nat, free: bool)

  /** One block of the heap, as the list of blocks in address order has it. */
  datatype Cell = Cell(addr: nat, size: nat, free: bool)

  /** The first address after a block. */
  function After(c: Cell): nat { c.addr + HEADER + c.size }

  // ----- the heap as a list of blocks -----

  predicate CellOk(c: Cell) { c.size % ALIGNMENT == 0 && c.size >= MIN_SIZE && c.addr % ALIGNMENT == 0 && c.addr > 0 }

  /** The blocks tile [start, end) in address order, and no two neighbours are free. */
  ghost predicate Tiled(cells: seq<Cell>, start: nat, end: nat) {
    && cells != [] && cells[0].addr == start && After(cells[|cells| - 1]) == end
    && (forall i :: 0 <= i < |cells| ==> CellOk(cells[i]))
    && (forall i :: 0 <= i < |cells| - 1 ==> Neighbours(cells[i], cells[i + 1]))
  }

  predicate Neighbours(c: Cell, d: Cell) { After(c) == d.addr && !(c.free && d.free) }

  function Live(cells: seq<Cell>): nat {
    if cells == [] then 0 else Live(cells[..|cells| - 1]) + (if cells[|cells| - 1].free then 0 else cells[|cells| - 1].size)
  }

  lemma {:induction false} LiveSum(a: seq<Cell>, b: seq<Cell>)
    ensures Live(a + b) == Live(a) + Live(b)
  {
    if b == [] {
      assert a + b == a;
    } else {
      LiveSum(a, b[..|b| - 1]);
      assert (a + b)[..|a + b| - 1] == a + b[..|b| - 1];
    }
  }

  lemma LiveAt(cells: seq<Cell>, i: nat)
    requires i < |cells|
    ensures Live(cells) == Live(cells[..i]) + (if cells[i].free then 0 else cells[i].size) + Live(cells[i + 1..])
  {
    LiveSum(cells[..i], [cells[i]]);
    LiveSum(cells[..i] + [cells[i]], cells[i + 1..]);
    assert cells == cells[..i] + [cells[i]] + cells[i + 1..];
    assert [cells[i]][..0] == [];
  }

  /** cells with the one at i replaced by some others. */
  function Replace(cells: seq<Cell>, i: nat, n: nat, parts: seq<Cell>): seq<Cell>
    requires i + n <= |cells|
  {
    cells[..i] + parts + cells[i + n..]
  }

  /** split_block. */
  function Split(cells: seq<Cell>, i: nat, size: nat): seq<Cell>
    requires i < |cells|
  {
    var c := cells[i];
    if c.size < size + HEADER + MIN_SIZE then cells
    else Replace(cells, i, 1, [Cell(c.addr, size, c.free), Cell(c.addr + HEADER + size, c.size - size - HEADER, true)])
  }

  /** merge_with_next. */
  function Merge(cells: seq<Cell>, i: nat): seq<Cell>
    requires i < |cells|
  {
    if i + 1 < |cells| && cells[i + 1].free
    then Replace(cells, i, 2, [Cell(cells[i].addr, cells[i].size + HEADER + cells[i + 1].size, cells[i].free)])
    else cells
  }

  function Mark(cells: seq<Cell>, i: nat, free: bool): seq<Cell>
    requires i < |cells|
  {
    cells[i := cells[i].(free := free)]
  }

  /** kmalloc's block i, split and taken. */
  function Take(cells: seq<Cell>, i: nat, size: nat): seq<Cell>
    requires i < |cells|
  {
    Mark(Split(cells, i, size), i, false)
  }

  /** kfree's block i, freed and merged with the free ones around it. */
  function Release(cells: seq<Cell>, i: nat): seq<Cell>
    requires i < |cells|
  {
    var merged := Merge(Mark(cells, i, true), i);
    if i > 0 && merged[i - 1].free then Merge(merged, i - 1) else merged
  }

  lemma ReplaceTiled(cells: seq<Cell>, i: nat, n: nat, parts: seq<Cell>, start: nat, end: nat)
    requires Tiled(cells, start, end) && i + n <= |cells| && n > 0 && parts != []
    requires parts[0].addr == cells[i].addr && After(parts[|parts| - 1]) == After(cells[i + n - 1])
    requires forall k :: 0 <= k < |parts| ==> CellOk(parts[k])
    requires forall k :: 0 <= k < |parts| - 1 ==> Neighbours(parts[k], parts[k + 1])
    requires i > 0 ==> !(cells[i - 1].free && parts[0].free)
    requires i + n < |cells| ==> !(parts[|parts| - 1].free && cells[i + n].free)
    ensures Tiled(Replace(cells, i, n, parts), start, end)
  {
    var r := Replace(cells, i, n, parts);
    forall k | 0 <= k < |r| ensures CellOk(r[k]) {
      if i <= k < i + |parts| { assert r[k] == parts[k - i]; } else if k >= i + |parts| { assert r[k] == cells[k - |parts| + n]; }
    }
    forall k | 0 <= k < |r| - 1 ensures Neighbours(r[k], r[k + 1]) {
      if k < i - 1 {
        assert Neighbours(cells[k], cells[k + 1]);
      } else if k == i - 1 {
        assert Neighbours(cells[i - 1], cells[i]) && r[k + 1] == parts[0];
      } else if k < i + |parts| - 1 {
        assert Neighbours(parts[k - i], parts[k - i + 1]);
      } else if k == i + |parts| - 1 {
        assert Neighbours(cells[i + n - 1], cells[i + n]) && r[k] == parts[|parts| - 1];
      } else {
        assert Neighbours(cells[k - |parts| + n], cells[k + 1 - |parts| + n]);
      }
    }
  }

  /** The blocks on both sides of block i, as the list has them. */
  lemma Sides(cells: seq<Cell>, start: nat, end: nat, i: nat)
    requires Tiled(cells, start, end) && i < |cells|
    ensures CellOk(cells[i]) && (i > 0 ==> Neighbours(cells[i - 1], cells[i]))
    ensures (i + 1 < |cells| ==> Neighbours(cells[i], cells[i + 1]))
  {
  }

  lemma ReplaceShape(cells: seq<Cell>, i: nat, n: nat, parts: seq<Cell>)
    requires i + n <= |cells|
    ensures var r := Replace(cells, i, n, parts);
      && |r| == |cells| - n + |parts| && (forall k :: 0 <= k < i ==> r[k] == cells[k])
      && (forall k :: i <= k < i + |parts| ==> r[k] == parts[k - i])
      && (forall k :: i + |parts| <= k < |r| ==> r[k] == cells[k - |parts| + n])
  {
  }

  lemma SplitShape(cells: seq<Cell>, i: nat, size: nat)
    requires i < |cells| && cells[i].size >= size + HEADER + MIN_SIZE
    ensures var r, c := Split(cells, i, size), cells[i];
      && |r| == |cells| + 1 && (forall k :: 0 <= k < i ==> r[k] == cells[k]) && r[i] == Cell(c.addr, size, c.free)
      && r[i + 1] == Cell(c.addr + HEADER + size, c.size - size - HEADER,
          true) && (forall k :: i + 2 <= k < |r| ==> r[k] == cells[k - 1])
  {
    var c := cells[i];
    var two := [Cell(c.addr, size, c.free), Cell(c.addr + HEADER + size, c.size - size - HEADER, true)];
    ReplaceShape(cells, i, 1, two);
    var r := Replace(cells, i, 1, two);
    hide Replace;
    assert r[i] == two[0] && r[i + 1] == two[1];
  }

  lemma MergeShape(cells: seq<Cell>, i: nat)
    requires i + 1 < |cells| && cells[i + 1].free
    ensures var r := Merge(cells, i);
      && |r| == |cells| - 1 && (forall k :: 0 <= k < i ==> r[k] == cells[k])
      && r[i] == Cell(cells[i].addr, cells[i].size + HEADER + cells[i + 1].size,
          cells[i].free) && (forall k :: i + 1 <= k < |r| ==> r[k] == cells[k + 1])
  {
    var one := [Cell(cells[i].addr, cells[i].size + HEADER + cells[i + 1].size, cells[i].free)];
    ReplaceShape(cells, i, 2, one);
    hide Replace;
    assert Replace(cells, i, 2, one)[i] == one[0];
  }

  /** Taking a whole block, or the first part of it, is replacing it by one or two blocks. */
  function Taken(c: Cell, size: nat): seq<Cell> {
    if c.size < size + HEADER + MIN_SIZE then [c.(free := false)]
    else [Cell(c.addr, size, false), Cell(c.addr + HEADER + size, c.size - size - HEADER, true)]
  }

  lemma TakeIsReplace(cells: seq<Cell>, i: nat, size: nat)
    requires i < |cells|
    ensures Take(cells, i, size) == Replace(cells, i, 1, Taken(cells[i], size))
  {
    var c := cells[i];
    if c.size < size + HEADER + MIN_SIZE {
      assert Take(cells, i, size) == cells[..i] + [c.(free := false)] + cells[i + 1..];
    } else {
      var two := [Cell(c.addr, size, c.free), Cell(c.addr + HEADER + size, c.size - size - HEADER, true)];
      assert Split(cells, i, size) == cells[..i] + two + cells[i + 1..];
      assert Take(cells, i, size) == cells[..i] + Taken(c, size) + cells[i + 1..];
    }
  }

  lemma LiveReplace(cells: seq<Cell>, i: nat, n: nat, parts: seq<Cell>)
    requires i + n <= |cells|
    ensures Live(Replace(cells, i, n, parts)) + Live(cells[i..i + n]) == Live(cells) + Live(parts)
  {
    LiveSum(cells[..i], parts);
    LiveSum(cells[..i] + parts, cells[i + n..]);
    LiveSum(cells[..i], cells[i..i + n]);
    LiveSum(cells[..i] + cells[i..i + n], cells[i + n..]);
    assert cells == cells[..i] + cells[i..i + n] + cells[i + n..];
  }

  lemma LiveOne(c: Cell)
    ensures Live([c]) == if c.free then 0 else c.size
  {
    assert [c][..0] == [];
  }

  lemma LiveTwo(c: Cell, d: Cell)
    ensures Live([c, d]) == (if c.free then 0 else c.size) + (if d.free then 0 else d.size)
  {
    assert [c, d] == [c] + [d];
    LiveSum([c], [d]);
    LiveOne(c);
    LiveOne(d);
  }

  /** Taking from a free block keeps the heap in order; it adds the block's size to what is live. */
  lemma TakeTiled(cells: seq<Cell>, i: nat, size: nat, start: nat, end: nat)
    requires Tiled(cells, start, end) && i < |cells| && cells[i].free && size <= cells[i].size && size % ALIGNMENT == 0
    requires size >= MIN_SIZE
    ensures Tiled(Take(cells, i, size), start, end) && i < |Take(cells, i, size)|
    ensures Take(cells, i, size)[i] == Taken(cells[i], size)[0] && Taken(cells[i], size)[0].size >= size
    ensures Live(Take(cells, i, size)) == Live(cells) + Taken(cells[i], size)[0].size
  {
    hide *;
    Sides(cells, start, end, i);
    TakeIsReplace(cells, i, size);
    TakenParts(cells[i], size);
    TakenSides(cells, i, size);
    ReplaceTiled(cells, i, 1, Taken(cells[i], size), start, end);
    ReplacedAt(cells, i, 1, Taken(cells[i], size));
    LiveReplace(cells, i, 1, Taken(cells[i], size));
    OneSlice(cells, i);
    LiveOne(cells[i]);
  }

  lemma OneSlice(cells: seq<Cell>, i: nat)
    requires i < |cells|
    ensures cells[i..i + 1] == [cells[i]]
  {
  }

  /** The parts of a taken block are blocks, one after the other, and fill it. */
  lemma TakenParts(c: Cell, size: nat)
    requires CellOk(c) && c.free && size <= c.size && size % ALIGNMENT == 0 && size >= MIN_SIZE
    ensures var parts := Taken(c, size);
      && parts != [] && parts[0].addr == c.addr && After(parts[|parts| - 1]) == After(c) && parts[0].size >= size
      && !parts[0].free
      && (forall k :: 0 <= k < |parts| ==> CellOk(parts[k]))
      && (forall k :: 0 <= k < |parts| - 1 ==> Neighbours(parts[k], parts[k + 1]))
      && Live(parts) == parts[0].size
  {
    if c.size < size + HEADER + MIN_SIZE {
      LiveOne(c.(free := false));
    } else {
      LiveTwo(Cell(c.addr, size, false), Cell(c.addr + HEADER + size, c.size - size - HEADER, true));
    }
    hide Live;
  }

  /** A free block has used ones on both sides, so its parts may stand between them. */
  lemma TakenSides(cells: seq<Cell>, i: nat, size: nat)
    requires i < |cells| && cells[i].free && (i > 0 ==> Neighbours(cells[i - 1], cells[i]))
    requires (i + 1 < |cells| ==> Neighbours(cells[i], cells[i + 1]))
    ensures var parts := Taken(cells[i], size);
      && (i > 0 ==> !(cells[i - 1].free && parts[0].free))
      && (i + 1 < |cells| ==> !(parts[|parts| - 1].free && cells[i + 1].free))
      && After(cells[i + 1 - 1]) == After(cells[i])
  {
  }

  lemma ReplacedAt(cells: seq<Cell>, i: nat, n: nat, parts: seq<Cell>)
    requires i + n <= |cells| && parts != []
    ensures i < |Replace(cells, i, n, parts)| && Replace(cells, i, n, parts)[i] == parts[0]
  {
  }

  /** Freeing a used block keeps the heap in order and takes its size off what is live. */
  lemma ReleaseTiled(cells: seq<Cell>, i: nat, start: nat, end: nat)
    requires Tiled(cells, start, end) && i < |cells| && !cells[i].free
    ensures Tiled(Release(cells, i), start, end) && Live(Release(cells, i)) == Live(cells) - cells[i].size
    ensures cells[i].size <= Live(cells)
  {
    var lo := if i > 0 && cells[i - 1].free then i - 1 else i;
    var hi := if i + 1 < |cells| && cells[i + 1].free then i + 1 else i;
    hide *;
    Sides(cells, start, end, i);
    Sides(cells, start, end, lo);
    Sides(cells, start, end, hi);
    MergedCell(cells, i, lo, hi);
    var one := Cell(cells[lo].addr, cells[hi].addr + cells[hi].size - cells[lo].addr, true);
    ReleaseIsReplace(cells, i, lo, hi, one);
    ReplaceTiled(cells, lo, hi - lo + 1, [one], start, end);
    LiveAround(cells, i, lo, hi, one);
  }

  /** Block i with the free ones around it is one block, between used ones. */
  lemma MergedCell(cells: seq<Cell>, i: nat, lo: nat, hi: nat)
    requires i < |cells| && !cells[i].free && lo <= i <= hi < |cells|
    requires lo == (if i > 0 && cells[i - 1].free then i - 1 else i)
    requires hi == (if i + 1 < |cells| && cells[i + 1].free then i + 1 else i)
    requires CellOk(cells[i]) && CellOk(cells[lo]) && CellOk(cells[hi])
    requires (i > 0 ==> Neighbours(cells[i - 1], cells[i])) && (i + 1 < |cells| ==> Neighbours(cells[i], cells[i + 1]))
    requires (lo > 0 ==> Neighbours(cells[lo - 1], cells[lo]))
    requires (hi + 1 < |cells| ==> Neighbours(cells[hi], cells[hi + 1]))
    ensures (lo < i ==> After(cells[lo]) == cells[i].addr && cells[lo].free)
    ensures (i < hi ==> After(cells[i]) == cells[hi].addr && cells[hi].free)
    ensures cells[hi].addr + cells[hi].size >= cells[lo].addr
    ensures var one := Cell(cells[lo].addr, cells[hi].addr + cells[hi].size - cells[lo].addr, true);
      && CellOk(one) && After(one) == After(cells[lo + (hi - lo + 1) - 1])
      && (lo > 0 ==> !(cells[lo - 1].free && one.free)) && (hi + 1 < |cells| ==> !(one.free && cells[hi + 1].free))
  {
    assert cells[hi].addr >= cells[lo].addr;
    JoinOk(cells[lo], cells[hi]);
    hide CellOk;
  }

  lemma JoinOk(c: Cell, d: Cell)
    requires CellOk(c) && CellOk(d) && d.addr >= c.addr
    ensures CellOk(Cell(c.addr, d.addr + d.size - c.addr, true))
  {
  }

  lemma ReleaseIsReplace(cells: seq<Cell>, i: nat, lo: nat, hi: nat, one: Cell)
    requires i < |cells| && !cells[i].free && lo <= i <= hi < |cells|
    requires lo == (if i > 0 && cells[i - 1].free then i - 1 else i)
    requires hi == (if i + 1 < |cells| && cells[i + 1].free then i + 1 else i)
    requires one.addr == cells[lo].addr && one.size == cells[hi].addr + cells[hi].size - cells[lo].addr && one.free
    requires lo < i ==> After(cells[lo]) == cells[i].addr
    requires i < hi ==> After(cells[i]) == cells[hi].addr
    ensures Release(cells, i) == Replace(cells, lo, hi - lo + 1, [one])
  {
    var merged := Merge(Mark(cells, i, true), i);
    MergedAt(cells, i, hi, i);
    if lo < i {
      MergedAt(cells, i, hi, lo);
      MergeLength(merged, lo);
    } else if i > 0 {
      MergedAt(cells, i, hi, i - 1);
    }
    var r, x := Release(cells, i), Replace(cells, lo, hi - lo + 1, [one]);
    ReplaceLength(cells, lo, hi - lo + 1, [one]);
    hide Merge, Mark, Replace, Release;
    forall k | 0 <= k < |x| ensures r[k] == x[k] {
      ReleasedAt(cells, i, lo, hi, one, k);
    }
  }

  /** Block k of the merged list. */
  lemma ReleasedAt(cells: seq<Cell>, i: nat, lo: nat, hi: nat, one: Cell, k: nat)
    requires i < |cells| && !cells[i].free && lo <= i <= hi < |cells|
    requires lo == (if i > 0 && cells[i - 1].free then i - 1 else i)
    requires hi == (if i + 1 < |cells| && cells[i + 1].free then i + 1 else i)
    requires one.addr == cells[lo].addr && one.size == cells[hi].addr + cells[hi].size - cells[lo].addr && one.free
    requires lo < i ==> After(cells[lo]) == cells[i].addr
    requires i < hi ==> After(cells[i]) == cells[hi].addr
    requires k < |Replace(cells, lo, hi - lo + 1, [one])|
    ensures k < |Release(cells, i)| && Release(cells, i)[k] == Replace(cells, lo, hi - lo + 1, [one])[k]
  {
    var merged := Merge(Mark(cells, i, true), i);
    ReplacedIndex(cells, lo, hi - lo + 1, one, k);
    MergedAt(cells, i, hi, i);
    if lo < i {
      MergedAt(cells, i, hi, lo);
      MergeLength(merged, lo);
      MergedAt(cells, i, hi, if k < lo then k else k + 1);
      MergeIndex(merged, lo, k);
    } else {
      if i > 0 { MergedAt(cells, i, hi, i - 1); }
      MergedAt(cells, i, hi, k);
    }
    hide Merge, Mark, Replace;
  }

  lemma MergeLength(cells: seq<Cell>, i: nat)
    requires i + 1 < |cells| && cells[i + 1].free
    ensures |Merge(cells, i)| == |cells| - 1
  {
  }

  lemma MergeIndex(cells: seq<Cell>, i: nat, k: nat)
    requires i + 1 < |cells| && cells[i + 1].free && k < |cells| - 1
    ensures k < |Merge(cells, i)| && Merge(cells, i)[k] ==
      if k < i then cells[k] else if k == i then Cell(cells[i].addr, cells[i].size + HEADER + cells[i + 1].size,
          cells[i].free) else cells[k + 1]
  {
  }

  lemma ReplaceLength(cells: seq<Cell>, i: nat, n: nat, parts: seq<Cell>)
    requires i + n <= |cells|
    ensures |Replace(cells, i, n, parts)| == |cells| - n + |parts|
  {
  }

  lemma ReplacedIndex(cells: seq<Cell>, i: nat, n: nat, one: Cell, k: nat)
    requires i + n <= |cells| && n > 0 && k < |Replace(cells, i, n, [one])|
    ensures |Replace(cells, i, n, [one])| == |cells| - n + 1
    ensures Replace(cells, i, n, [one])[k] == if k < i then cells[k] else if k == i then one else cells[k - 1 + n]
  {
  }

  /** Block k once block i is freed and merged with the free block after it, if there is one. */
  lemma MergedAt(cells: seq<Cell>, i: nat, hi: nat, k: nat)
    requires i <= hi < |cells| && hi == (if i + 1 < |cells| && cells[i + 1].free then i + 1 else i)
    requires i < hi ==> After(cells[i]) == cells[hi].addr
    requires k < |cells| - (hi - i)
    ensures i < |Mark(cells, i, true)|
    ensures var merged := Merge(Mark(cells, i, true), i);
      && |merged| == |cells| - (hi - i)
      && (k < i ==> merged[k] == cells[k]) && (k > i ==> merged[k] == cells[k + hi - i])
      && (k == i ==> merged[i] == Cell(cells[i].addr, cells[hi].addr + cells[hi].size - cells[i].addr, true))
  {
    if i < hi { MergeIndex(Mark(cells, i, true), i, k); hide Merge; }
  }

  lemma LiveAround(cells: seq<Cell>, i: nat, lo: nat, hi: nat, one: Cell)
    requires i < |cells| && !cells[i].free && lo <= i <= hi < |cells| && one.free && i - 1 <= lo && hi <= i + 1
    requires (lo < i ==> cells[lo].free) && (i < hi ==> cells[hi].free)
    ensures Live(Replace(cells, lo, hi - lo + 1, [one])) == Live(cells) - cells[i].size && cells[i].size <= Live(cells)
  {
    LiveReplace(cells, lo, hi - lo + 1, [one]);
    LiveOne(one);
    var middle := cells[lo..hi + 1];
    LiveAt(middle, i - lo);
    assert middle[i - lo] == cells[i];
    if lo < i { assert middle[..i - lo] == [cells[lo]]; LiveOne(cells[lo]); } else { assert middle[..i - lo] == []; }
    if i < hi { assert middle[i - lo + 1..] == [cells[hi]]; LiveOne(cells[hi]); } else { assert middle[i - lo + 1..] == []; }
  }

  /** Freeing what was just allocated gives the same list of blocks back. */
  lemma ReleaseUndoesTake(cells: seq<Cell>, i: nat, size: nat, start: nat, end: nat)
    requires Tiled(cells, start, end) && i < |cells| && cells[i].free && size <= cells[i].size
    ensures i < |Take(cells, i, size)| && Release(Take(cells, i, size), i) == cells
  {
    Sides(cells, start, end, i);
    hide Tiled, Live, CellOk;
    TakeIsReplace(cells, i, size);
    if cells[i].size < size + HEADER + MIN_SIZE {
      WholeUndone(cells, i, size);
    } else {
      SplitUndone(cells, i, size);
    }
  }

  lemma WholeUndone(cells: seq<Cell>, i: nat, size: nat)
    requires i < |cells| && cells[i].free && cells[i].size < size + HEADER + MIN_SIZE
    requires (i > 0 ==> !cells[i - 1].free) && (i + 1 < |cells| ==> !cells[i + 1].free)
    ensures i < |Take(cells, i, size)| && Release(Take(cells, i, size), i) == cells
  {
    assert Mark(Take(cells, i, size), i, true) == cells;
  }

  lemma SplitUndone(cells: seq<Cell>, i: nat, size: nat)
    requires i < |cells| && cells[i].free && cells[i].size >= size + HEADER + MIN_SIZE
    requires (i > 0 ==> !cells[i - 1].free) && (i + 1 < |cells| ==> !cells[i + 1].free)
    ensures i < |Take(cells, i, size)| && Release(Take(cells, i, size), i) == cells
  {
    SplitMarked(cells, i, size);
    var marked := Mark(Take(cells, i, size), i, true);
    hide Take, Mark;
    MergeShape(marked, i);
    assert Merge(marked, i) == cells;
  }

  lemma SplitMarked(cells: seq<Cell>, i: nat, size: nat)
    requires i < |cells| && cells[i].free && cells[i].size >= size + HEADER + MIN_SIZE
    ensures i < |Take(cells, i, size)|
    ensures var marked, c := Mark(Take(cells, i, size), i, true), cells[i];
      && |marked| == |cells| + 1 && (forall k :: 0 <= k < i ==> marked[k] == cells[k]) && marked[i] == Cell(c.addr,
          size, true)
      && marked[i + 1] == Cell(c.addr + HEADER + size, c.size - size - HEADER,
          true) && (forall k :: i + 2 <= k < |marked| ==> marked[k] == cells[k - 1])
  {
    SplitShape(cells, i, size);
    hide Split;
  }

  /** With nothing in use, the heap is the single block it was at first: whatever was allocated, and in
      whatever order it was freed. */
  lemma AllFreeIsInitial(cells: seq<Cell>, start: nat, end: nat)
    requires Tiled(cells, start, end) && forall i :: 0 <= i < |cells| ==> cells[i].free
    ensures |cells| == 1 && cells[0].addr == start && After(cells[0]) == end
  {
    assert |cells| > 1 ==> Neighbours(cells[0], cells[1]);
  }

  /** Blocks do not overlap. */
  lemma {:induction false} Apart(cells: seq<Cell>, start: nat, end: nat, i: nat, j: nat)
    requires Tiled(cells, start, end) && i < j < |cells|
    ensures After(cells[i]) <= cells[j].addr && start <= cells[i].addr && After(cells[j]) <= end
    decreases j
  {
    InsideHeap(cells, start, end, i);
    InsideHeap(cells, start, end, j);
    assert Neighbours(cells[j - 1], cells[j]);
    if i < j - 1 { Apart(cells, start, end, i, j - 1); }
  }

  lemma {:induction false} InsideHeap(cells: seq<Cell>, start: nat, end: nat, i: nat)
    requires Tiled(cells, start, end) && i < |cells|
    ensures start <= cells[i].addr && After(cells[i]) <= end
  {
    FromStart(cells, start, end, i);
    ToEnd(cells, start, end, i);
  }

  lemma {:induction false} FromStart(cells: seq<Cell>, start: nat, end: nat, i: nat)
    requires Tiled(cells, start, end) && i < |cells|
    ensures start <= cells[i].addr
  {
    if i > 0 {
      FromStart(cells, start, end, i - 1);
      assert Neighbours(cells[i - 1], cells[i]);
    }
  }

  lemma {:induction false} ToEnd(cells: seq<Cell>, start: nat, end: nat, i: nat)
    requires Tiled(cells, start, end) && i < |cells|
    ensures After(cells[i]) <= end
    decreases |cells| - i
  {
    if i < |cells| - 1 {
      ToEnd(cells, start, end, i + 1);
      assert Neighbours(cells[i], cells[i + 1]);
    }
  }

  // ----- the headers in memory -----

  function NextOf(cells: seq<Cell>, i: nat): nat { if i + 1 < |cells| then cells[i + 1].addr else 0 }

  function PrevOf(cells: seq<Cell>, i: nat): nat { if 0 < i <= |cells| then cells[i - 1].addr else 0 }

  function HeaderOf(cells: seq<Cell>, i: nat): Header
    requires i < |cells|
  {
    Header(cells[i].size, NextOf(cells, i), PrevOf(cells, i), MAGIC, cells[i].free)
  }

  /** The memory holds exactly these headers at the blocks' addresses. */
  ghost predicate InMemory(mem: map<nat, Header>, cells: seq<Cell>) {
    forall i :: 0 <= i < |cells| ==> cells[i].addr in mem && mem[cells[i].addr] == HeaderOf(cells, i)
  }

  /** kmalloc's rounding: at least the minimum, and a multiple of the alignment. */
  function Rounded(requested: nat): (size: nat)
    ensures size % ALIGNMENT == 0 && size >= MIN_SIZE && size >= requested
    ensures size < (if requested < MIN_SIZE then MIN_SIZE else requested) + ALIGNMENT
  {
    var size := if requested < MIN_SIZE then MIN_SIZE else requested;
    (size + ALIGNMENT - 1) / ALIGNMENT * ALIGNMENT
  }

  class KernelHeap {
    var mem: map<nat, Header>
    var head: nat
    var live: nat
    var peak: nat
    // The blocks in address order.
    ghost var cells: seq<Cell>

    ghost predicate Valid()
      reads this
    {
      && Tiled(cells, START, START + HEAP_BYTES) && InMemory(mem, cells) && head == START
      && live == Live(cells) <= peak
    }

    /** mm_init. */
    constructor ()
      ensures Valid() && cells == [Cell(START, HEAP_BYTES - HEADER, true)] && live == peak == 0
    {
      mem := map[START := Header(HEAP_BYTES - HEADER, 0, 0, MAGIC, true)];
      head, live, peak := START, 0, 0;
      cells := [Cell(START, HEAP_BYTES - HEADER, true)];
      new;
      assert [Cell(START, HEAP_BYTES - HEADER, true)][..0] == [];
    }

    /** split_block. */
    method SplitBlock(block: nat, size: nat, ghost i: nat)
      requires Tiled(cells, START, START + HEAP_BYTES) && InMemory(mem, cells) && i < |cells| && cells[i].addr == block
      requires cells[i].free && size <= cells[i].size && size % ALIGNMENT == 0 && size >= MIN_SIZE
      modifies `mem, `cells
      ensures InMemory(mem, cells) && cells == Split(old(cells), i, size)
    {
      hide *;
      TiledAddressed(cells, START, START + HEAP_BYTES);
      HeaderIn(mem, cells, i);
      var b := mem[block];
      SplitIs(cells, i, size);
      if b.size < size + HEADER + MIN_SIZE { return; }
      var remaining := block + HEADER + size;
      SplitInside(cells, START, START + HEAP_BYTES, i, size, remaining);
      ghost var mem0 := mem;
      mem := mem[remaining := Header(b.size - size - HEADER, b.next, block, MAGIC, true)];
      ghost var mem1 := mem;
      NextPlace(mem0, cells, i);
      if b.next != 0 {
        mem := mem[b.next := mem[b.next].(prev := remaining)];
      }
      SplitHeaders(cells, i, size, remaining, mem0, mem1, mem);
      mem := mem[block := b.(next := remaining, size := size)];
      cells := Split(cells, i, size);
    }

    /** merge_with_next. */
    method MergeWithNext(block: nat, ghost i: nat)
      requires Addressed(cells) && InMemory(mem, cells) && i < |cells| && cells[i].addr == block
      modifies `mem, `cells
      ensures InMemory(mem, cells) && cells == Merge(old(cells), i)
    {
      ghost var before := cells;
      var b := mem[block];
      assert b == HeaderOf(before, i);
      if b.next == 0 { return; }
      var next := mem[b.next];
      assert next == HeaderOf(before, i + 1);
      if !next.free { return; }
      mem := mem[block := b.(size := b.size + HEADER + next.size, next := next.next)];
      MergeHeaders(before, i, old(mem), mem);
      if next.next != 0 {
        mem := mem[next.next := mem[next.next].(prev := block)];
      }
      cells := Merge(before, i);
    }

    /** kmalloc; 0 stands for the panic when no free block is big enough.  The lowest one that is gets taken. */
    method Kmalloc(requested: nat) returns (p: nat, ghost i: nat)
      requires Valid()
      modifies this
      ensures Valid()
      ensures p == 0 <==> forall k :: 0 <= k < |old(cells)| ==>
        !(old(cells)[k].free && old(cells)[k].size >= Rounded(requested))
      ensures p == 0 ==> cells == old(cells) && live == old(live) && peak == old(peak)
      ensures p != 0 ==> i < |old(cells)| && old(cells)[i].free && old(cells)[i].size >= Rounded(requested)
      ensures p != 0 ==> forall k :: 0 <= k < i ==> !(old(cells)[k].free && old(cells)[k].size >= Rounded(requested))
      ensures p != 0 ==> cells == Take(old(cells), i, Rounded(requested)) && i < |cells| && p == cells[i].addr + HEADER && p % ALIGNMENT == 0
      ensures p != 0 ==> live == old(live) + cells[i].size && peak == if live > old(peak) then live else old(peak)
    {
      var size := Rounded(requested);
      var block := head;
      i := 0;
      while block != 0
        invariant i <= |cells| && block == (if i < |cells| then cells[i].addr else 0)
        invariant forall k :: 0 <= k < i ==> !(cells[k].free && cells[k].size >= size)
        decreases |cells| - i
      {
        var b := mem[block];
        assert CellOk(cells[i]) && b == HeaderOf(cells, i);
        if b.free && b.size >= size {
          p := TakeBlock(block, size, i);
          return;
        }
        if i + 1 < |cells| { assert CellOk(cells[i + 1]); }
        block := b.next;
        i := i + 1;
      }
      p := 0;
    }

    /** The body of kmalloc's loop for the block it takes. */
    method TakeBlock(block: nat, size: nat, ghost i: nat) returns (p: nat)
      requires Valid() && i < |cells| && cells[i].addr == block && cells[i].free
      requires size <= cells[i].size && size % ALIGNMENT == 0 && size >= MIN_SIZE
      modifies this
      ensures Valid() && cells == Take(old(cells), i, size) && i < |cells| && p == cells[i].addr + HEADER
      ensures p % ALIGNMENT == 0 && p != 0
      ensures live == old(live) + cells[i].size && peak == if live > old(peak) then live else old(peak)
    {
      hide *;
      ghost var before := cells;
      Meaning();
      TakeTiled(before, i, size, START, START + HEAP_BYTES);
      TiledAddressed(Take(before, i, size), START, START + HEAP_BYTES);
      TakenAddressed(before, i, size);
      Sides(Take(before, i, size), START, START + HEAP_BYTES, i);
      BlockPlace(Take(before, i, size)[i]);
      SplitBlock(block, size, i);
      HeaderIn(mem, cells, i);
      MarkHeaders(cells, i, false, mem);
      MarkedAt(cells, i, false);
      mem := mem[block := mem[block].(free := false)];
      live := live + mem[block].size;
      if live > peak { peak := live; }
      cells := Mark(cells, i, false);
      p := block + HEADER;
      Restore();
    }

    /** The invariant, taken apart and put together. */
    lemma Meaning()
      requires Valid()
      ensures Tiled(cells, START, START + HEAP_BYTES) && InMemory(mem, cells) && head == START
      ensures live == Live(cells) <= peak
    {
    }

    lemma Restore()
      requires Tiled(cells, START, START + HEAP_BYTES) && InMemory(mem, cells) && head == START
      requires live == Live(cells) <= peak
      ensures Valid()
    {
    }

    /** kfree; false stands for the panic: the pointer is outside the heap, or its header is bad or says free. */
    method Kfree(p: nat, ghost i: nat) returns (ok: bool)
      requires Valid()
      requires (p == 0 || p - HEADER < START || p - HEADER >= START + HEAP_BYTES || (i < |cells| && p == cells[i].addr + HEADER))
      modifies this
      ensures Valid() && peak == old(peak)
      ensures p == 0 ==> ok && cells == old(cells) && live == old(live)
      ensures p != 0 ==> (ok <==> START <= p - HEADER < START + HEAP_BYTES && !old(cells)[i].free)
      ensures !ok ==> cells == old(cells) && live == old(live)
      ensures ok && p != 0 ==> cells == Release(old(cells), i) && live == old(live) - old(cells)[i].size
    {
      if p == 0 { return true; }
      if p < HEADER + START || p >= HEADER + START + HEAP_BYTES { return false; }
      var block := p - HEADER;
      if mem[block].magic != MAGIC || mem[block].free { return false; }
      FreeBlock(block, i);
      ok := true;
    }

    /** What kfree does to a block in use. */
    method FreeBlock(block: nat, ghost i: nat)
      requires Valid() && i < |cells| && cells[i].addr == block && !cells[i].free
      modifies this
      ensures Valid() && peak == old(peak) && cells == Release(old(cells), i) && live == old(live) - old(cells)[i].size
    {
      hide *;
      ghost var before := cells;
      Meaning();
      ReleaseTiled(before, i, START, START + HEAP_BYTES);
      TiledAddressed(before, START, START + HEAP_BYTES);
      MarkedAddressed(before, i);
      ReleaseSteps(before, i);
      HeaderIn(mem, before, i);
      live := live - mem[block].size;
      MarkHeaders(before, i, true, mem);
      mem := mem[block := mem[block].(free := true)];
      cells := Mark(before, i, true);
      MergedAddressed(cells, i);
      MergeWithNext(block, i);
      HeaderIn(mem, cells, i);
      var b := mem[block];
      PrevPlace(mem, cells, i);
      if b.prev != 0 {
        if mem[b.prev].free { MergeWithNext(b.prev, i - 1); }
      }
      Restore();
    }
  }

  /** All addresses are different, and none is NULL: what following the links needs. */
  ghost predicate Addressed(cells: seq<Cell>) {
    && (forall i :: 0 <= i < |cells| ==> cells[i].addr > 0)
    && (forall i, j :: 0 <= i < j < |cells| ==> cells[i].addr != cells[j].addr)
  }

  lemma TiledAddressed(cells: seq<Cell>, start: nat, end: nat)
    requires Tiled(cells, start, end)
    ensures Addressed(cells)
  {
    forall i, j | 0 <= i < j < |cells| ensures cells[i].addr != cells[j].addr { Apart(cells, start, end, i, j); }
    assert forall i :: 0 <= i < |cells| ==> CellOk(cells[i]);
  }

  /** Splitting a block and taking its first part leave the same addresses. */
  lemma TakenAddressed(cells: seq<Cell>, i: nat, size: nat)
    requires i < |cells| && Addressed(Take(cells, i, size))
    ensures Addressed(Split(cells, i, size)) && i < |Split(cells, i, size)|
    ensures Split(cells, i, size)[i].addr == cells[i].addr
    ensures Take(cells, i, size) == Mark(Split(cells, i, size), i, false)
  {
    var a, b := Take(cells, i, size), Split(cells, i, size);
    forall k | 0 <= k < |b| ensures b[k].addr == a[k].addr {}
    assert |a| == |b|;
  }

  lemma MergedAddressed(cells: seq<Cell>, i: nat)
    requires Addressed(cells) && i < |cells|
    ensures Addressed(Merge(cells, i)) && i < |Merge(cells, i)| && Merge(cells, i)[i].addr == cells[i].addr
  {
  }

  lemma MarkedAddressed(cells: seq<Cell>, i: nat)
    requires Addressed(cells) && i < |cells|
    ensures Addressed(Mark(cells, i, true)) && |Mark(cells, i, true)| == |cells|
    ensures Mark(cells, i, true)[i].addr == cells[i].addr
  {
  }

  lemma PrevPlace(mem: map<nat, Header>, cells: seq<Cell>, i: nat)
    requires InMemory(mem, cells) && Addressed(cells) && i < |cells|
    ensures PrevOf(cells, i) != 0 <==> i > 0
    ensures i > 0 ==> PrevOf(cells, i) == cells[i - 1].addr && cells[i - 1].addr in mem && mem[cells[i - 1].addr].free == cells[i - 1].free
  {
  }

  /** Release, step by step. */
  lemma ReleaseSteps(cells: seq<Cell>, i: nat)
    requires i < |cells|
    ensures i < |Mark(cells, i, true)| && i < |Merge(Mark(cells, i, true), i)|
    ensures var merged := Merge(Mark(cells, i, true), i);
      Release(cells, i) == if i > 0 && merged[i - 1].free then Merge(merged, i - 1) else merged
  {
  }

  lemma MarkedAt(cells: seq<Cell>, i: nat, free: bool)
    requires i < |cells|
    ensures i < |Mark(cells, i, free)| && Mark(cells, i, free)[i] == cells[i].(free := free)
  {
  }

  lemma BlockPlace(c: Cell)
    requires CellOk(c)
    ensures c.addr + HEADER != 0 && ALIGNMENT > 0 && (c.addr + HEADER) % ALIGNMENT == 0
  {
  }

  /** The free flag of one header was changed. */
  lemma MarkHeaders(cells: seq<Cell>, i: nat, free: bool, mem: map<nat, Header>)
    requires Addressed(cells) && InMemory(mem, cells) && i < |cells|
    ensures InMemory(mem[cells[i].addr := mem[cells[i].addr].(free := free)], Mark(cells, i, free))
  {
    var mem', r := mem[cells[i].addr := mem[cells[i].addr].(free := free)], Mark(cells, i, free);
    forall k | 0 <= k < |r| ensures r[k].addr in mem' && mem'[r[k].addr] == HeaderOf(r, k) {
      assert mem[cells[k].addr] == HeaderOf(cells, k);
      if k < i { assert cells[k].addr != cells[i].addr; }
    }
  }

  /** The stores of split_block. */
  lemma SplitHeaders(cells: seq<Cell>, i: nat, size: nat, rest: nat, mem: map<nat, Header>, mem1: map<nat, Header>,
          mem2: map<nat, Header>)
    requires Addressed(cells) && InMemory(mem, cells) && i < |cells| && cells[i].size >= size + HEADER + MIN_SIZE
    requires rest == cells[i].addr + HEADER + size && forall k :: 0 <= k < |cells| ==> cells[k].addr != rest
    requires mem1 == mem[rest := Header(cells[i].size - size - HEADER, NextOf(cells, i), cells[i].addr, MAGIC, true)]
    requires mem2 == if i + 1 < |cells| then mem1[cells[i + 1].addr := mem1[cells[i + 1].addr].(prev := rest)] else mem1
    ensures InMemory(mem2[cells[i].addr := mem[cells[i].addr].(next := rest, size := size)], Split(cells, i, size))
  {
    var mem', r := mem2[cells[i].addr := mem[cells[i].addr].(next := rest, size := size)], Split(cells, i, size);
    forall k | 0 <= k < |r| ensures r[k].addr in mem' && mem'[r[k].addr] == HeaderOf(r, k) {
      if k <= i {
        SplitBefore(cells, i, size, rest, mem, mem1, mem2, k);
      } else {
        SplitAfter(cells, i, size, rest, mem, mem1, mem2, k);
      }
    }
  }

  lemma SplitBefore(cells: seq<Cell>, i: nat, size: nat, rest: nat, mem: map<nat, Header>, mem1: map<nat, Header>,
          mem2: map<nat, Header>, k: nat)
    requires Addressed(cells) && InMemory(mem, cells) && k <= i < |cells| && cells[i].size >= size + HEADER + MIN_SIZE
    requires rest == cells[i].addr + HEADER + size && forall k :: 0 <= k < |cells| ==> cells[k].addr != rest
    requires mem1 == mem[rest := Header(cells[i].size - size - HEADER, NextOf(cells, i), cells[i].addr, MAGIC, true)]
    requires mem2 == if i + 1 < |cells| then mem1[cells[i + 1].addr := mem1[cells[i + 1].addr].(prev := rest)] else mem1
    ensures var mem', r := mem2[cells[i].addr := mem[cells[i].addr].(next := rest, size := size)], Split(cells, i,
        size);
      k < |r| && r[k].addr in mem' && mem'[r[k].addr] == HeaderOf(r, k)
  {
    SplitShape(cells, i, size);
    hide Split;
    assert mem[cells[k].addr] == HeaderOf(cells, k);
    if i + 1 < |cells| { assert cells[k].addr != cells[i + 1].addr; }
  }

  lemma SplitAfter(cells: seq<Cell>, i: nat, size: nat, rest: nat, mem: map<nat, Header>, mem1: map<nat, Header>,
          mem2: map<nat, Header>, k: nat)
    requires Addressed(cells) && InMemory(mem, cells) && i < |cells| && i < k < |Split(cells, i, size)|
    requires cells[i].size >= size + HEADER + MIN_SIZE
    requires rest == cells[i].addr + HEADER + size && forall k :: 0 <= k < |cells| ==> cells[k].addr != rest
    requires mem1 == mem[rest := Header(cells[i].size - size - HEADER, NextOf(cells, i), cells[i].addr, MAGIC, true)]
    requires mem2 == if i + 1 < |cells| then mem1[cells[i + 1].addr := mem1[cells[i + 1].addr].(prev := rest)] else mem1
    ensures var mem', r := mem2[cells[i].addr := mem[cells[i].addr].(next := rest, size := size)], Split(cells, i,
        size);
      r[k].addr in mem' && mem'[r[k].addr] == HeaderOf(r, k)
  {
    SplitShape(cells, i, size);
    var r := Split(cells, i, size);
    hide Split;
    if k == i + 1 {
      assert cells[i].addr != rest;
      if i + 1 < |cells| { assert cells[i + 1].addr != rest; }
    } else {
      assert r[k] == cells[k - 1] && mem[cells[k - 1].addr] == HeaderOf(cells, k - 1);
      assert cells[i].addr != cells[k - 1].addr && cells[k - 1].addr != rest;
      if k > i + 2 { assert cells[i + 1].addr != cells[k - 1].addr; }
      hide Addressed, InMemory;
    }
  }

  /** The stores of merge_with_next. */
  lemma MergeHeaders(cells: seq<Cell>, i: nat, mem: map<nat, Header>, mem1: map<nat, Header>)
    requires Addressed(cells) && InMemory(mem, cells) && i + 1 < |cells| && cells[i + 1].free
    requires mem1 == mem[cells[i].addr := mem[cells[i].addr].(size := cells[i].size + HEADER + cells[i + 1].size,
        next := NextOf(cells, i + 1))]
    ensures i + 2 < |cells| ==> cells[i + 2].addr in mem1
    ensures InMemory(if i + 2 < |cells| then mem1[cells[i + 2].addr := mem1[cells[i + 2].addr].(prev := cells[i].addr)] else mem1, Merge(cells, i))
  {
    if i + 2 < |cells| { assert mem[cells[i + 2].addr] == HeaderOf(cells,
        i + 2) && cells[i].addr != cells[i + 2].addr; }
    var r := Merge(cells, i);
    var mem' := if i + 2 < |cells| then mem1[cells[i + 2].addr := mem1[cells[i + 2].addr].(prev := cells[i].addr)] else mem1;
    MergeShape(cells, i);
    forall k | 0 <= k < |r| ensures r[k].addr in mem' && mem'[r[k].addr] == HeaderOf(r, k) {
      if k <= i {
        MergeBefore(cells, i, mem, mem1, mem', k);
      } else {
        MergeAfter(cells, i, mem, mem1, mem', k);
      }
    }
  }

  lemma MergeBefore(cells: seq<Cell>, i: nat, mem: map<nat, Header>, mem1: map<nat, Header>, mem': map<nat, Header>,
          k: nat)
    requires Addressed(cells) && InMemory(mem, cells) && k <= i && i + 1 < |cells| && cells[i + 1].free
    requires mem1 == mem[cells[i].addr := mem[cells[i].addr].(size := cells[i].size + HEADER + cells[i + 1].size,
        next := NextOf(cells, i + 1))]
    requires i + 2 < |cells| ==> cells[i + 2].addr in mem1
    requires mem' == if i + 2 < |cells| then mem1[cells[i + 2].addr := mem1[cells[i + 2].addr].(prev := cells[i].addr)] else mem1
    ensures var r := Merge(cells, i); k < |r| && r[k].addr in mem' && mem'[r[k].addr] == HeaderOf(r, k)
  {
    MergeShape(cells, i);
    hide Merge;
    assert mem[cells[k].addr] == HeaderOf(cells, k);
    if k < i { assert cells[k].addr != cells[i].addr; }
    if i + 2 < |cells| { assert cells[k].addr != cells[i + 2].addr; }
    hide Addressed, InMemory;
  }

  lemma MergeAfter(cells: seq<Cell>, i: nat, mem: map<nat, Header>, mem1: map<nat, Header>, mem': map<nat, Header>,
          k: nat)
    requires Addressed(cells) && InMemory(mem, cells) && i + 1 < |cells| && cells[i + 1].free
    requires i < k < |Merge(cells, i)|
    requires mem1 == mem[cells[i].addr := mem[cells[i].addr].(size := cells[i].size + HEADER + cells[i + 1].size,
        next := NextOf(cells, i + 1))]
    requires i + 2 < |cells| ==> cells[i + 2].addr in mem1
    requires mem' == if i + 2 < |cells| then mem1[cells[i + 2].addr := mem1[cells[i + 2].addr].(prev := cells[i].addr)] else mem1
    ensures var r := Merge(cells, i); r[k].addr in mem' && mem'[r[k].addr] == HeaderOf(r, k)
  {
    MergeShape(cells, i);
    var r := Merge(cells, i);
    hide Merge;
    assert r[k] == cells[k + 1] && mem[cells[k + 1].addr] == HeaderOf(cells,
        k + 1) && cells[i].addr != cells[k + 1].addr;
    if k > i + 1 { assert cells[i + 2].addr != cells[k + 1].addr; }
    hide Addressed, InMemory;
  }

  lemma HeaderIn(mem: map<nat, Header>, cells: seq<Cell>, i: nat)
    requires InMemory(mem, cells) && i < |cells|
    ensures cells[i].addr in mem
    ensures mem[cells[i].addr] == Header(cells[i].size, NextOf(cells, i), PrevOf(cells, i), MAGIC, cells[i].free)
  {
  }

  /** The next link leads to the next block's header. */
  lemma NextPlace(mem: map<nat, Header>, cells: seq<Cell>, i: nat)
    requires InMemory(mem, cells) && Addressed(cells) && i < |cells|
    ensures NextOf(cells, i) != 0 <==> i + 1 < |cells|
    ensures i + 1 < |cells| ==> NextOf(cells, i) == cells[i + 1].addr && cells[i + 1].addr in mem
    ensures i + 1 < |cells| ==> mem[cells[i + 1].addr] == Header(cells[i + 1].size, NextOf(cells, i + 1),
        PrevOf(cells, i + 1), MAGIC, cells[i + 1].free)
  {
  }

  lemma SplitIs(cells: seq<Cell>, i: nat, size: nat)
    requires i < |cells|
    ensures cells[i].size < size + HEADER + MIN_SIZE ==> Split(cells, i, size) == cells
  {
  }

  /** The header split_block writes lies strictly inside the block it splits. */
  lemma SplitInside(cells: seq<Cell>, start: nat, end: nat, i: nat, size: nat, rest: nat)
    requires Tiled(cells, start, end) && i < |cells| && rest == cells[i].addr + HEADER + size
    requires cells[i].size >= size + HEADER + MIN_SIZE
    ensures cells[i].size - size - HEADER >= 0
    ensures forall k :: 0 <= k < |cells| ==> cells[k].addr != rest
  {
    forall k | 0 <= k < |cells| ensures cells[k].addr != rest {
      if k < i { Apart(cells, start, end, k, i); }
      if i < k { Apart(cells, start, end, i, k); }
    }
  }
}
