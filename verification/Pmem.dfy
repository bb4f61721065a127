// The page-frame allocator (mm/pmem.c): an allocation bitmap in 64-bit words and an array
// of 16-bit reference counts, changed in place.  Frame numbers are relative to the first
// usable region, and frame 0 doubles as "none".
module Bitmap {
  import opened Words

  const BITS: nat := 64

  function Pow2(n: nat): (r: nat)
    ensures r > 0
  {
    if n == 0 then 1 else 2 * Pow2(n - 1)
  }

  /** word & (1 << b), as a truth value. */
  predicate Bit(w: nat, b: nat) {
    if b == 0 then w % 2 == 1 else Bit(w / 2, b - 1)
  }

  /** word | (1 << b), or word & ~(1 << b). */
  function PutBit(w: nat, b: nat, on: bool): nat {
    if b == 0 then w - w % 2 + (if on then 1 else 0) else 2 * PutBit(w / 2, b - 1, on) + w % 2
  }

  lemma {:induction false} BitAfterPut(w: nat, b: nat, on: bool, c: nat)
    ensures Bit(PutBit(w, b, on), c) <==> if c == b then on else Bit(w, c)
  {
    if b > 0 {
      assert PutBit(w, b, on) / 2 == PutBit(w / 2, b - 1, on);
      if c > 0 { BitAfterPut(w / 2, b - 1, on, c - 1); }
    }
  }

  lemma {:induction false} PutBound(w: nat, b: nat, on: bool, n: nat)
    requires b < n && w < Pow2(n)
    ensures PutBit(w, b, on) < Pow2(n)
  {
    if b > 0 { PutBound(w / 2, b - 1, on, n - 1); }
  }

  lemma Pow2Of64()
    ensures Pow2(64) == 0x1_0000_0000_0000_0000
  {
    assert Pow2(8) == 256;
    assert Pow2(16) == 0x1_0000;
    assert Pow2(24) == 0x100_0000;
    assert Pow2(32) == 0x1_0000_0000;
    assert Pow2(40) == 0x100_0000_0000;
    assert Pow2(48) == 0x1_0000_0000_0000;
    assert Pow2(56) == 0x100_0000_0000_0000;
  }

  function Put(w: Word, b: nat, on: bool): (r: Word)
    requires b < BITS
  {
    Pow2Of64();
    PutBound(w, b, on, 64);
    PutBit(w, b, on)
  }

  /** The first n bits of the bitmap, one truth value a page. */
  function Bits(words: seq<Word>, n: nat): (r: seq<bool>)
    requires n <= |words| * BITS
    ensures |r| == n
  {
    seq(n, p requires 0 <= p < n => Bit(words[p / BITS], p % BITS))
  }

  lemma {:induction false} ZeroBit(b: nat)
    ensures !Bit(0, b)
  {
    if b > 0 { ZeroBit(b - 1); }
  }

  lemma BitsAfterPut(words: seq<Word>, n: nat, p: nat, on: bool)
    requires n <= |words| * BITS && p < n
    ensures Bits(words[p / BITS := Put(words[p / BITS], p % BITS, on)], n) == Bits(words, n)[p := on]
  {
    var words' := words[p / BITS := Put(words[p / BITS], p % BITS, on)];
    forall q | 0 <= q < n ensures Bits(words', n)[q] == Bits(words, n)[p := on][q] {
      BitAfterPut(words[p / BITS], p % BITS, on, q % BITS);
    }
  }
}

module Pmem {
  import opened Words
  import opened Bitmap
  import opened PageTree

  /** Every page in [start, start + count) is free. */
  ghost predicate FreeRun(used: seq<bool>, start: nat, count: nat) {
    start + count <= |used| && forall p :: start <= p < start + count ==> !used[p]
  }

  ghost predicate Exhausted(used: seq<bool>) { forall p :: 0 <= p < |used| ==> used[p] }

  /** The state after frames [start, start + count) are handed out, one reference each. */
  function AllocRun(m: Mem, start: nat, count: nat): (r: Mem)
    requires start + count <= |m.used| == |m.refs|
    ensures |r.used| == |m.used| && |r.refs| == |m.refs| && r.ram == m.ram
    decreases count
  {
    if count == 0 then m else Alloc(AllocRun(m, start, count - 1), start + count - 1)
  }

  function HoldRun(held: seq<nat>, start: nat, count: nat): (r: seq<nat>)
    requires start + count <= |held|
    ensures |r| == |held|
    decreases count
  {
    if count == 0 then held else Hold(HoldRun(held, start, count - 1), start + count - 1)
  }

  class PhysMem {
    const bitmap: array<Word>
    const refs: array<nat>
    const ram: array<Page>
    ghost const reserved: nat
    // Who owns the references counted in refs: the nodes of the page-table trees, and everybody else.
    ghost var tree: Tree
    ghost var held: seq<nat>

    ghost predicate Apart() {
      && refs.Length == ram.Length <= bitmap.Length * BITS
      && bitmap as object != refs && bitmap as object != ram && refs as object != ram
    }

    ghost function Abs(): Mem
      requires Apart()
      reads bitmap, refs, ram
    {
      Mem(Bits(bitmap[..], refs.Length), refs[..], ram[..])
    }

    ghost predicate Valid()
      reads this, bitmap, refs, ram
      ensures Valid() ==> Apart()
    {
      Apart() && Sound(Abs(), tree, held, reserved)
    }

    /** The allocator as the boot code leaves it: a reserved prefix, and nothing allocated. */
    constructor (pages: nat, prefix: nat)
      requires 1 <= prefix <= pages <= MAX_FRAME
      ensures Valid() && fresh(bitmap) && fresh(refs) && fresh(ram)
      ensures tree == map[] && ram.Length == pages && reserved == prefix && held == seq(pages, _ => 0)
    {
      bitmap := new Word[pages / BITS + 1](_ => 0);
      refs := new nat[pages](_ => 0);
      ram := new Page[pages](_ => ZeroPage());
      reserved := prefix;
      tree := map[];
      held := seq(pages, _ => 0);
      new;
      forall q | 0 <= q < pages ensures !Bits(bitmap[..], pages)[q] { ZeroBit(q % BITS); }
      var p := 0;
      while p < prefix
        invariant p <= prefix && fresh(bitmap) && Apart() && tree == map[]
        invariant refs[..] == seq(pages, _ => 0) && held == seq(pages, _ => 0)
        invariant forall q :: 0 <= q < pages ==> Bits(bitmap[..], pages)[q] == (q < p)
      {
        BitsAfterPut(bitmap[..], pages, p, true);
        bitmap[p / BITS] := Put(bitmap[p / BITS], p % BITS, true);
        p := p + 1;
      }
      assert forall f :: 0 <= f < pages ==> Holders(tree, f) == {};
    }

    /** Store a table entry. */
    method WriteEntry(table: nat, i: nat, e: Word)
      requires Apart() && table < ram.Length && i < ENTRIES
      modifies ram
      ensures Abs() == old(Abs()).(ram := SetEntry(old(Abs()).ram, table, i, e))
    {
      ram[table] := WriteWord(ram[table], i, e);
      assert ram[..] == SetEntry(old(ram[..]), table, i, e);
    }

    method ReadPage(f: nat) returns (c: Page)
      requires Apart() && f < ram.Length
      ensures c == Abs().ram[f]
    {
      c := ram[f];
    }

    method WritePage(f: nat, c: Page)
      requires Apart() && f < ram.Length
      modifies ram
      ensures Abs() == Fill(old(Abs()), f, c)
    {
      ram[f] := c;
      assert ram[..] == old(ram[..])[f := c];
    }

    /** memcpy64 of one page. */
    method CopyPage(dst: nat, src: nat)
      requires Apart() && dst < ram.Length && src < ram.Length
      modifies ram
      ensures Abs() == Fill(old(Abs()), dst, old(Abs()).ram[src])
    {
      ram[dst] := ram[src];
      assert ram[..] == old(ram[..])[dst := old(ram[src])];
    }

    /** Record who owns the references from now on. */
    ghost method Own(t: Tree, h: seq<nat>)
      requires Apart() && Sound(Abs(), t, h, reserved)
      modifies `tree, `held
      ensures Valid() && tree == t && held == h
    {
      tree, held := t, h;
    }

    lemma Soundness()
      requires Valid()
      ensures Sound(Abs(), tree, held, reserved) && |held| == |Abs().ram|
      ensures |Abs().ram| == ram.Length == refs.Length == |Abs().used| && Abs().ram == ram[..] && Abs().refs == refs[..]
    {
    }

    /** The first free page, or 0. */
    method FindFirstFree() returns (page: nat)
      requires Valid()
      ensures page == 0 ==> Exhausted(Abs().used)
      ensures page > 0 ==> page < ram.Length && !Abs().used[page] && forall p :: 0 <= p < page ==> Abs().used[p]
    {
      page := 0;
      while page < refs.Length
        invariant page <= refs.Length
        invariant forall p :: 0 <= p < page ==> Abs().used[p]
      {
        if !Bit(bitmap[page / BITS], page % BITS) { return; }
        page := page + 1;
      }
      page := 0;
    }

    /** The start of the first run of `count` free pages, or 0. */
    method FindFirstChunk(count: nat) returns (start: nat)
      requires Valid()
      ensures start > 0 ==> count > 0 && FreeRun(Abs().used, start, count)
      ensures start > 0 ==> forall s :: 0 <= s < start ==> !FreeRun(Abs().used, s, count)
      ensures start == 0 && count > 0 ==> forall s :: 0 <= s ==> !FreeRun(Abs().used, s, count)
    {
      ghost var used := Abs().used;
      assert used[0];
      var page, run := 0, 0;
      while page < refs.Length
        invariant run <= page <= refs.Length && (count > 0 ==> run < count)
        invariant page < refs.Length ==> run <= page
        invariant forall p :: page - run <= p < page ==> !used[p]
        invariant page > run ==> used[page - run - 1]
        invariant page == run ==> page == 0
        invariant forall s :: 0 <= s < page - run ==> !FreeRun(used, s, count) || count == 0
      {
        if !Bit(bitmap[page / BITS], page % BITS) {
          run := run + 1;
          if run == count {
            return page + 1 - count;
          }
        } else {
          forall s | page - run <= s <= page && count > 0 ensures !FreeRun(used, s, count) {
            assert used[page];
          }
          run := 0;
        }
        page := page + 1;
      }
      start := 0;
    }

    /** Mark the free frame f allocated, with one reference. */
    method Take(f: nat)
      requires Valid() && f < refs.Length && !Abs().used[f]
      modifies `held, bitmap, refs
      ensures Valid() && |held| == old(|held|) == refs.Length && held == Hold(old(held), f)
      ensures Abs() == Alloc(old(Abs()), f)
    {
      hide Linked, Exclusive, Counted, Shaped, Bitmapped, Holders;
      BitsAfterPut(bitmap[..], refs.Length, f, true);
      AllocSound(Abs(), tree, held, reserved, f);
      bitmap[f / BITS] := Put(bitmap[f / BITS], f % BITS, true);
      refs[f] := 1;
      held := Hold(held, f);
      assert Abs() == Alloc(old(Abs()), f);
    }

    /** pmem_try_alloc_page: 0 when memory is exhausted. */
    method TryAllocPage() returns (f: nat)
      requires Valid()
      modifies `held, bitmap, refs
      ensures Valid()
      ensures f == 0 ==> Exhausted(Abs().used) && Abs() == old(Abs()) && held == old(held)
      ensures f > 0 ==> f < ram.Length && !old(Abs().used)[f] && forall p :: 0 <= p < f ==> old(Abs().used)[p]
      ensures f > 0 ==> Abs() == Alloc(old(Abs()), f) && held == Hold(old(held), f)
    {
      hide Linked, Exclusive, Counted, Shaped, Bitmapped, Holders;
      f := FindFirstFree();
      if f == 0 { return; }
      Take(f);
    }

    /** pmem_try_alloc_zero_page. */
    method TryAllocZeroPage() returns (f: nat)
      requires Valid()
      modifies `held, bitmap, refs, ram
      ensures Valid()
      ensures f == 0 ==> Exhausted(Abs().used) && Abs() == old(Abs()) && held == old(held)
      ensures f > 0 ==> f < ram.Length && !old(Abs().used)[f]
      ensures f > 0 ==> Abs() == Fill(Alloc(old(Abs()), f), f, ZeroPage()) && held == Hold(old(held), f)
    {
      f := TryAllocPage();
      if f != 0 {
        FreeIsUnnamed(old(Abs()), tree, old(held), reserved, f);
        FillSound(Abs(), tree, held, reserved, f, ZeroPage());
        ram[f] := ZeroPage();
        assert Abs() == Fill(Alloc(old(Abs()), f), f, ZeroPage());
      }
    }

    /** pmem_alloc_block: 0 stands for the panic. */
    method AllocBlock(count: nat) returns (start: nat)
      requires Valid()
      modifies `held, bitmap, refs
      ensures Valid()
      ensures start == 0 ==> Abs() == old(Abs()) && held == old(held)
      ensures start == 0 && count > 0 ==> forall s :: 0 <= s ==> !FreeRun(Abs().used, s, count)
      ensures start > 0 ==> FreeRun(old(Abs()).used, start, count)
      ensures start > 0 ==> forall s :: 0 <= s < start ==> !FreeRun(old(Abs()).used, s, count)
      ensures start > 0 ==> Abs() == AllocRun(old(Abs()), start, count) && held == HoldRun(old(held), start, count)
    {
      hide Linked, Exclusive, Counted, Shaped, Bitmapped, Holders;
      start := FindFirstChunk(count);
      if start == 0 { return; }
      var i := 0;
      while i < count
        invariant i <= count && Valid()
        invariant Abs() == AllocRun(old(Abs()), start, i) && held == HoldRun(old(held), start, i)
        invariant forall p :: start + i <= p < start + count ==> !Abs().used[p]
      {
        Take(start + i);
        i := i + 1;
      }
    }

    /** pmem_free_block by a caller that holds the reference; false stands for the panic. */
    method FreeBlock(f: nat) returns (ok: bool)
      requires Valid()
      requires f < refs.Length && refs[f] > 0 ==> held[f] > 0
      modifies `held, bitmap, refs
      ensures Valid()
      ensures ok <==> f < refs.Length && old(refs[..])[f] > 0
      ensures ok ==> Abs() == Release(old(Abs()), f) && held == Drop(old(held), f)
      ensures !ok ==> Abs() == old(Abs()) && held == old(held)
    {
      hide Linked, Exclusive, Counted, Shaped, Bitmapped, Holders;
      if f >= refs.Length || refs[f] == 0 { return false; }
      BitsAfterPut(bitmap[..], refs.Length, f, false);
      ReleaseSound(Abs(), tree, held, reserved, f);
      refs[f] := refs[f] - 1;
      if refs[f] == 0 {
        bitmap[f / BITS] := Put(bitmap[f / BITS], f % BITS, false);
      }
      held := Drop(held, f);
      assert Abs() == Release(old(Abs()), f);
      ok := true;
    }

    /** pmem_retain_page; false stands for the panic. */
    method RetainPage(f: nat) returns (ok: bool)
      requires Valid()
      requires forall n :: n in tree && IsTable(n) ==> tree[n] != f
      modifies `held, refs
      ensures Valid()
      ensures ok <==> f < refs.Length && 0 < old(refs[..])[f] < MAX_REFS
      ensures ok ==> Abs() == Retain(old(Abs()), f) && held == Hold(old(held), f)
      ensures !ok ==> Abs() == old(Abs()) && held == old(held)
    {
      hide Linked, Exclusive, Counted, Shaped, Bitmapped, Holders;
      if f >= refs.Length || refs[f] == 0 || refs[f] == MAX_REFS { return false; }
      RefsBound(Abs(), tree, held, reserved, f);
      RetainSound(Abs(), tree, held, reserved, f);
      refs[f] := refs[f] + 1;
      held := Hold(held, f);
      assert Abs() == Retain(old(Abs()), f);
      ok := true;
    }

    /** pmem_page_refcount. */
    method PageRefcount(f: nat) returns (count: nat)
      requires Valid()
      ensures count == if f < refs.Length then |Holders(tree, f)| + held[f] else 0
    {
      count := if f < refs.Length then refs[f] else 0;
    }
  }
}
