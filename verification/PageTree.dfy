// Physical memory with its reference counts, and the tree of page tables and mapped
// pages that the counts account for.  Every reference to a frame is either a node of
// the tree (a table, or a mapped page) or is held outside it.
module PageTree {
  import opened Words

  /** Physical memory as mm/pmem.c sees it: allocation bits, reference counts, contents. */
  datatype Mem = Mem(used: seq<bool>, refs: seq<nat>, ram: seq<Page>)

  /** A reference to a frame made by an address space: the table reached from the root of
      `space` by the entry indices `path`, or, when the path has four indices, the page mapped there. */
  datatype Node = Node(space: nat, path: seq<nat>)

  type Tree = map<Node, nat>

  const DEPTH: nat := 4
  const MAX_REFS: nat := 0xffff

  function Child(n: Node, i: nat): Node { Node(n.space, n.path + [i]) }

  function Parent(n: Node): Node
    requires n.path != []
  {
    Node(n.space, n.path[..|n.path| - 1])
  }

  predicate IsTable(n: Node) { |n.path| < DEPTH }

  /** The references that name frame f. */
  function Holders(t: Tree, f: nat): set<Node> { set n | n in t && t[n] == f }

  // ----- the invariant of physical memory -----

  ghost predicate Sized(m: Mem, held: seq<nat>, reserved: nat) {
    && |m.used| == |m.refs| == |m.ram| == |held|
    && 1 <= reserved <= |m.ram| <= MAX_FRAME
  }

  ghost predicate Bitmapped(used: seq<bool>, refs: seq<nat>, reserved: nat)
    requires |used| == |refs|
  {
    forall f :: 0 <= f < |refs| ==>
      && (used[f] <==> f < reserved || refs[f] > 0)
      && (f < reserved ==> refs[f] == 0)
  }

  ghost predicate Counted(refs: seq<nat>, t: Tree, held: seq<nat>)
    requires |refs| == |held|
  {
    forall f :: 0 <= f < |refs| ==> refs[f] == |Holders(t, f)| + held[f] && refs[f] <= MAX_REFS
  }

  ghost predicate NodeOk(t: Tree, n: Node, size: nat)
    requires n in t
  {
    && |n.path| <= DEPTH
    && (forall k :: 0 <= k < |n.path| ==> n.path[k] < ENTRIES)
    && t[n] < size
    && (n.path != [] ==> Parent(n) in t)
  }

  ghost predicate Shaped(t: Tree, size: nat) {
    forall n :: n in t ==> NodeOk(t, n, size)
  }

  /** A table frame is named once, and by nobody outside the tree. */
  ghost predicate Exclusive(t: Tree, held: seq<nat>)
    requires Shaped(t, |held|)
  {
    forall n :: n in t && IsTable(n) ==>
      NodeOk(t, n, |held|) && held[t[n]] == 0 && forall k :: k in t && t[k] == t[n] ==> k == n
  }

  /** The entry at index i of table n. */
  function Entry(ram: seq<Page>, t: Tree, n: Node, i: nat): Word
    requires n in t && t[n] < |ram| && i < ENTRIES
  {
    ReadWord(ram[t[n]], i)
  }

  ghost predicate EntryOk(ram: seq<Page>, t: Tree, n: Node, i: nat)
    requires n in t && t[n] < |ram| && i < ENTRIES
  {
    var e := Entry(ram, t, n, i);
    && (Present(e) <==> Child(n, i) in t)
    && (Present(e) ==> FrameOf(e) == t[Child(n, i)])
    && (Present(e) && |n.path| < DEPTH - 1 ==> FlagsOf(e) == USER_PAGE)
    && (!Present(e) ==> e == 0)
  }

  /** The entries stored in the tables are exactly the edges of the tree. */
  ghost predicate Linked(ram: seq<Page>, t: Tree)
    requires Shaped(t, |ram|)
  {
    forall n, i :: n in t && IsTable(n) && 0 <= i < ENTRIES ==> NodeOk(t, n, |ram|) && EntryOk(ram, t, n, i)
  }

  ghost predicate Sound(m: Mem, t: Tree, held: seq<nat>, reserved: nat) {
    && Sized(m, held, reserved)
    && Bitmapped(m.used, m.refs, reserved)
    && Counted(m.refs, t, held)
    && Shaped(t, |m.ram|)
    && Exclusive(t, held)
    && Linked(m.ram, t)
  }

  // ----- counting references -----

  lemma HoldersAddAt(t: Tree, n: Node, f: nat, g: nat)
    requires n !in t
    ensures |Holders(t[n := f], g)| == |Holders(t, g)| + (if g == f then 1 else 0)
  {
    assert Holders(t[n := f], g) == Holders(t, g) + if g == f then {n} else {};
  }

  lemma HoldersAdd(t: Tree, n: Node, f: nat)
    requires n !in t
    ensures forall g :: |Holders(t[n := f], g)| == |Holders(t, g)| + (if g == f then 1 else 0)
  {
    forall g ensures |Holders(t[n := f], g)| == |Holders(t, g)| + (if g == f then 1 else 0) {
      HoldersAddAt(t, n, f, g);
    }
  }

  lemma HoldersRemove(t: Tree, n: Node)
    requires n in t
    ensures forall g :: |Holders(t - {n}, g)| == |Holders(t, g)| - (if g == t[n] then 1 else 0)
  {
    HoldersAdd(t - {n}, n, t[n]);
    assert (t - {n})[n := t[n]] == t;
  }

  lemma NamedIsCounted(t: Tree, n: Node)
    requires n in t
    ensures |Holders(t, t[n])| >= 1
  {
    assert n in Holders(t, t[n]);
  }

  /** held with one reference to f gone. */
  function Drop(held: seq<nat>, f: nat): (r: seq<nat>)
    requires f < |held| && held[f] > 0
    ensures |r| == |held|
  {
    held[f := held[f] - 1]
  }

  /** held with one more reference to f. */
  function Hold(held: seq<nat>, f: nat): (r: seq<nat>)
    requires f < |held|
    ensures |r| == |held| && r[f] > 0 && Drop(r, f) == held
  {
    held[f := held[f] + 1]
  }

  // ----- allocation and release (mm/pmem.c) -----

  function Alloc(m: Mem, f: nat): Mem
    requires f < |m.used| == |m.refs|
  {
    Mem(m.used[f := true], m.refs[f := 1], m.ram)
  }

  function Fill(m: Mem, f: nat, c: Page): Mem
    requires f < |m.ram|
  {
    Mem(m.used, m.refs, m.ram[f := c])
  }

  function Release(m: Mem, f: nat): Mem
    requires f < |m.used| == |m.refs| && m.refs[f] > 0
  {
    Mem(if m.refs[f] == 1 then m.used[f := false] else m.used, m.refs[f := m.refs[f] - 1], m.ram)
  }

  function Retain(m: Mem, f: nat): Mem
    requires f < |m.refs|
  {
    Mem(m.used, m.refs[f := m.refs[f] + 1], m.ram)
  }

  lemma RefsBound(m: Mem, t: Tree, held: seq<nat>, reserved: nat, f: nat)
    requires Sound(m, t, held, reserved) && f < |m.refs|
    ensures m.refs[f] == |Holders(t, f)| + held[f] <= MAX_REFS
  {
  }

  lemma FreeIsUnnamed(m: Mem, t: Tree, held: seq<nat>, reserved: nat, f: nat)
    requires Sound(m, t, held, reserved) && f < |m.used| && !m.used[f]
    ensures m.refs[f] == 0 && held[f] == 0 && f >= reserved
    ensures forall n :: n in t ==> t[n] != f
  {
    forall n | n in t ensures t[n] != f {
      NamedIsCounted(t, n);
    }
  }

  lemma AllocSound(m: Mem, t: Tree, held: seq<nat>, reserved: nat, f: nat)
    requires Sound(m, t, held, reserved) && f < |m.used| && !m.used[f]
    ensures Sound(Alloc(m, f), t, Hold(held, f), reserved)
  {
    FreeIsUnnamed(m, t, held, reserved, f);
    assert Holders(t, f) == {};
  }

  lemma FillSound(m: Mem, t: Tree, held: seq<nat>, reserved: nat, f: nat, c: Page)
    requires Sound(m, t, held, reserved) && f < |m.ram|
    requires forall n :: n in t && IsTable(n) ==> t[n] != f
    ensures Sound(Fill(m, f, c), t, held, reserved)
  {
    forall n, i | n in t && IsTable(n) && 0 <= i < ENTRIES
      ensures NodeOk(t, n, |m.ram|) && EntryOk(Fill(m, f, c).ram, t, n, i)
    {
      assert NodeOk(t, n, |m.ram|) && EntryOk(m.ram, t, n, i);
    }
  }

  lemma ReleaseSound(m: Mem, t: Tree, held: seq<nat>, reserved: nat, f: nat)
    requires Sound(m, t, held, reserved) && f < |m.refs| && held[f] > 0
    ensures m.refs[f] > 0 && Sound(Release(m, f), t, Drop(held, f), reserved)
  {
  }

  lemma RetainSound(m: Mem, t: Tree, held: seq<nat>, reserved: nat, f: nat)
    requires Sound(m, t, held, reserved) && f < |m.refs| && 0 < m.refs[f] < MAX_REFS
    requires forall n :: n in t && IsTable(n) ==> t[n] != f
    ensures Sound(Retain(m, f), t, Hold(held, f), reserved)
  {
  }

  lemma ExclusiveAdd(t: Tree, held: seq<nat>, n: Node, f: nat)
    requires Shaped(t, |held|) && Exclusive(t, held) && n !in t && Shaped(t[n := f], |held|)
    requires f < |held| && held[f] > 0
    requires IsTable(n) ==> held[f] == 1 && forall k :: k in t ==> t[k] != f
    ensures Exclusive(t[n := f], Drop(held, f))
  {
    var t', held' := t[n := f], Drop(held, f);
    forall k | k in t' && IsTable(k)
      ensures NodeOk(t', k, |held'|) && held'[t'[k]] == 0 && forall l :: l in t' && t'[l] == t'[k] ==> l == k
    {
      assert NodeOk(t', k, |held|);
    }
  }

  lemma CountedAdd(refs: seq<nat>, t: Tree, held: seq<nat>, n: Node, f: nat)
    requires |refs| == |held| && Counted(refs, t, held) && n !in t && f < |held| && held[f] > 0
    ensures Counted(refs, t[n := f], Drop(held, f))
  {
    HoldersAdd(t, n, f);
  }

  // ----- storing table entries (mm/paging.c) -----

  function SetEntry(ram: seq<Page>, f: nat, i: nat, e: Word): (r: seq<Page>)
    requires f < |ram| && i < ENTRIES
    ensures |r| == |ram|
  {
    ram[f := WriteWord(ram[f], i, e)]
  }

  /** Storing entry e at index i of table n changes that entry and no other. */
  lemma SetEntryReads(ram: seq<Page>, t: Tree, held: seq<nat>, n: Node, i: nat, e: Word, ram': seq<Page>)
    requires Shaped(t, |ram|) && |held| == |ram| && Exclusive(t, held) && n in t && IsTable(n) && i < ENTRIES
    requires t[n] < |ram| && ram' == SetEntry(ram, t[n], i, e)
    ensures forall k :: k in t ==> t[k] < |ram|
    ensures forall k, j :: k in t && IsTable(k) && 0 <= j < ENTRIES ==>
      Entry(ram', t, k, j) == if k == n && j == i then e else Entry(ram, t, k, j)
  {
    forall k | k in t ensures t[k] < |ram| { assert NodeOk(t, k, |ram|); }
    forall k, j | k in t && IsTable(k) && 0 <= j < ENTRIES
      ensures Entry(ram', t, k, j) == if k == n && j == i then e else Entry(ram, t, k, j)
    {
      ReadAfterWrite(ram[t[n]], i, e, j);
    }
  }

  lemma ChildInjective(k: Node, j: nat, n: Node, i: nat)
    requires Child(k, j) == Child(n, i)
    ensures k == n && j == i
  {
    assert k.path == Child(k, j).path[..|k.path|] == n.path;
    assert Child(k, j).path[|k.path|] == j;
    assert Child(n, i).path[|n.path|] == i;
  }

  lemma LinkShape(t: Tree, size: nat, n: Node, i: nat, f: nat)
    requires Shaped(t, size) && n in t && IsTable(n) && i < ENTRIES && f < size
    ensures Shaped(t[Child(n, i) := f], size)
  {
    var c := Child(n, i);
    var t' := t[c := f];
    forall k | k in t' ensures NodeOk(t', k, size) {
      assert NodeOk(t, n, size);
      if k != c { assert NodeOk(t, k, size); } else { assert Parent(c) == n; }
    }
  }

  /** Storing e, which names f, at the free slot i of table n adds exactly that edge. */
  lemma LinkEdge(ram: seq<Page>, t: Tree, held: seq<nat>, n: Node, i: nat, f: nat, e: Word, ram': seq<Page>, t': Tree)
    requires Shaped(t, |ram|) && |held| == |ram| && Exclusive(t, held) && Linked(ram, t)
    requires n in t && IsTable(n) && i < ENTRIES && Child(n, i) !in t
    requires f < |ram| && Present(e) && FrameOf(e) == f && (|n.path| < DEPTH - 1 ==> FlagsOf(e) == USER_PAGE)
    requires t[n] < |ram| && ram' == SetEntry(ram, t[n], i, e) && t' == t[Child(n, i) := f]
    ensures forall k :: k in t ==> t[k] < |ram|
    ensures forall k, j :: k in t && IsTable(k) && 0 <= j < ENTRIES ==> EntryOk(ram', t', k, j)
  {
    SetEntryReads(ram, t, held, n, i, e, ram');
    forall k, j | k in t && IsTable(k) && 0 <= j < ENTRIES ensures EntryOk(ram', t', k, j) {
      assert NodeOk(t, k, |ram|) && EntryOk(ram, t, k, j);
      assert Entry(ram', t', k, j) == if k == n && j == i then e else Entry(ram, t, k, j);
      if Child(k, j) == Child(n, i) { ChildInjective(k, j, n, i); }
    }
  }

  /** A node that is not in the tree has no descendants there. */
  lemma NoOrphans(t: Tree, size: nat, c: Node, j: nat)
    requires Shaped(t, size) && c !in t
    ensures Child(c, j) !in t
  {
    assert Child(c, j).path[..|c.path|] == c.path;
  }

  /** The entries of a zeroed frame hung under table n are all absent, as its empty subtree requires. */
  lemma LinkTableEdges(ram: seq<Page>, t: Tree, held: seq<nat>, n: Node, i: nat, f: nat)
    requires Shaped(t, |ram|) && |held| == |ram| && Exclusive(t, held) && Linked(ram, t)
    requires n in t && |n.path| < DEPTH - 1 && i < ENTRIES && Child(n, i) !in t
    requires f < |ram| <= MAX_FRAME && ram[f] == ZeroPage() && forall k :: k in t ==> t[k] != f
    ensures t[n] < |ram| && Shaped(t[Child(n, i) := f], |ram|)
    ensures Linked(SetEntry(ram, t[n], i, TableEntry(f)), t[Child(n, i) := f])
  {
    assert NodeOk(t, n, |ram|);
    var c := Child(n, i);
    var ram', t' := SetEntry(ram, t[n], i, TableEntry(f)), t[c := f];
    LinkShape(t, |ram|, n, i, f);
    LinkEdge(ram, t, held, n, i, f, TableEntry(f), ram', t');
    forall k, j | k in t' && IsTable(k) && 0 <= j < ENTRIES ensures NodeOk(t', k, |ram'|) && EntryOk(ram', t', k, j) {
      if k == c {
        NoOrphans(t, |ram|, c, j);
        ZeroEntry(j);
        assert Child(c, j) != c;
      }
    }
  }

  /** Hanging a zeroed, otherwise unreferenced frame under table n as a new table. */
  lemma LinkTableSound(m: Mem, t: Tree, held: seq<nat>, reserved: nat, n: Node, i: nat, f: nat)
    requires Sound(m, t, held, reserved)
    requires n in t && |n.path| < DEPTH - 1 && i < ENTRIES && Child(n, i) !in t
    requires f < |m.ram| && m.refs[f] == 1 && held[f] == 1 && m.ram[f] == ZeroPage()
    ensures t[n] < |m.ram|
    ensures Sound(m.(ram := SetEntry(m.ram, t[n], i, TableEntry(f))), t[Child(n, i) := f], Drop(held, f), reserved)
  {
    assert forall k :: k in t ==> t[k] != f by {
      forall k | k in t ensures t[k] != f {
        NamedIsCounted(t, k);
      }
    }
    hide Linked, Exclusive, Counted, Holders;
    LinkTableEdges(m.ram, t, held, n, i, f);
    CountedAdd(m.refs, t, held, Child(n, i), f);
    ExclusiveAdd(t, held, Child(n, i), f);
  }

  /** Mapping the held frame f at a free slot of a leaf table moves the held reference into the tree. */
  lemma LinkLeafSound(m: Mem, t: Tree, held: seq<nat>, reserved: nat, n: Node, i: nat, f: nat, e: Word)
    requires Sound(m, t, held, reserved)
    requires n in t && |n.path| == DEPTH - 1 && i < ENTRIES && Child(n, i) !in t
    requires f < |m.ram| && held[f] > 0 && Present(e) && FrameOf(e) == f
    ensures t[n] < |m.ram|
    ensures Sound(m.(ram := SetEntry(m.ram, t[n], i, e)), t[Child(n, i) := f], Drop(held, f), reserved)
  {
    assert NodeOk(t, n, |m.ram|);
    var c := Child(n, i);
    var ram', t' := SetEntry(m.ram, t[n], i, e), t[c := f];
    LinkShape(t, |m.ram|, n, i, f);
    LinkEdge(m.ram, t, held, n, i, f, e, ram', t');
    CountedAdd(m.refs, t, held, c, f);
    ExclusiveAdd(t, held, c, f);
    forall k, j | k in t' && IsTable(k) && 0 <= j < ENTRIES ensures NodeOk(t', k, |ram'|) && EntryOk(ram', t', k, j) {
      assert k in t;
    }
  }

  /** Overwriting the leaf entry at a mapped slot redirects exactly that edge. */
  lemma RedirectEdge(ram: seq<Page>, t: Tree, held: seq<nat>, n: Node, i: nat, f: nat, e: Word)
    requires Shaped(t, |ram|) && |held| == |ram| && Exclusive(t, held) && Linked(ram, t)
    requires n in t && |n.path| == DEPTH - 1 && i < ENTRIES && Child(n, i) in t
    requires f < |ram| && Present(e) && FrameOf(e) == f
    ensures t[n] < |ram| && Shaped(t[Child(n, i) := f], |ram|)
    ensures Linked(SetEntry(ram, t[n], i, e), t[Child(n, i) := f])
  {
    assert NodeOk(t, n, |ram|);
    var ram', t' := SetEntry(ram, t[n], i, e), t[Child(n, i) := f];
    LinkShape(t, |ram|, n, i, f);
    SetEntryReads(ram, t, held, n, i, e, ram');
    forall k, j | k in t' && IsTable(k) && 0 <= j < ENTRIES ensures NodeOk(t', k, |ram'|) && EntryOk(ram', t', k, j) {
      assert NodeOk(t, k, |ram|) && EntryOk(ram, t, k, j);
      assert Entry(ram', t', k, j) == if k == n && j == i then e else Entry(ram, t, k, j);
      if Child(k, j) == Child(n, i) { ChildInjective(k, j, n, i); }
    }
  }

  /** Changing a present leaf entry without changing the page it names. */
  lemma RewriteLeafSound(m: Mem, t: Tree, held: seq<nat>, reserved: nat, n: Node, i: nat, e: Word)
    requires Sound(m, t, held, reserved)
    requires n in t && |n.path| == DEPTH - 1 && i < ENTRIES && Child(n, i) in t
    requires Present(e) && FrameOf(e) == t[Child(n, i)]
    ensures t[n] < |m.ram|
    ensures Sound(m.(ram := SetEntry(m.ram, t[n], i, e)), t, held, reserved)
  {
    assert NodeOk(t, Child(n, i), |m.ram|);
    RedirectEdge(m.ram, t, held, n, i, FrameOf(e), e);
    assert t == t[Child(n, i) := FrameOf(e)];
  }

  /** The held references after the tree takes f from the holder and gives back g. */
  function Exchange(held: seq<nat>, f: nat, g: nat): seq<nat>
    requires f < |held| && g < |held| && f != g && held[f] > 0
  {
    Hold(Drop(held, f), g)
  }

  lemma ExclusiveSwap(t: Tree, held: seq<nat>, c: Node, f: nat)
    requires Shaped(t, |held|) && Exclusive(t, held) && c in t && !IsTable(c) && Shaped(t[c := f], |held|)
    requires f < |held| && held[f] > 0 && t[c] < |held| && t[c] != f
    ensures Exclusive(t[c := f], Exchange(held, f, t[c]))
  {
    var t', held' := t[c := f], Exchange(held, f, t[c]);
    forall k | k in t' && IsTable(k)
      ensures NodeOk(t', k, |held'|) && held'[t'[k]] == 0 && forall l :: l in t' && t'[l] == t'[k] ==> l == k
    {
      assert NodeOk(t', k, |held|);
    }
  }

  lemma CountedSwap(refs: seq<nat>, t: Tree, held: seq<nat>, c: Node, f: nat)
    requires |refs| == |held| && Counted(refs, t, held) && c in t
    requires f < |held| && held[f] > 0 && t[c] < |held| && t[c] != f
    ensures Counted(refs, t[c := f], Exchange(held, f, t[c]))
  {
    HoldersRemove(t, c);
    HoldersAdd(t - {c}, c, f);
    assert t[c := f] == (t - {c})[c := f];
  }

  /** Making a present leaf entry name another, held frame: the old reference becomes a held one. */
  lemma SwapLeafSound(m: Mem, t: Tree, held: seq<nat>, reserved: nat, n: Node, i: nat, f: nat, e: Word)
    requires Sound(m, t, held, reserved)
    requires n in t && |n.path| == DEPTH - 1 && i < ENTRIES && Child(n, i) in t
    requires f < |m.ram| && held[f] > 0 && Present(e) && FrameOf(e) == f && t[Child(n, i)] != f
    ensures t[n] < |m.ram| && t[Child(n, i)] < |held|
    ensures Sound(m.(ram := SetEntry(m.ram, t[n], i, e)), t[Child(n, i) := f], Exchange(held, f, t[Child(n, i)]),
        reserved)
  {
    var c := Child(n, i);
    assert NodeOk(t, c, |m.ram|) && NodeOk(t, n, |m.ram|);
    hide Linked, Exclusive, Counted, Holders;
    RedirectEdge(m.ram, t, held, n, i, f, e);
    CountedSwap(m.refs, t, held, c, f);
    ExclusiveSwap(t, held, c, f);
  }

  /** A zeroed frame becomes the root table of a space that has no tables yet. */
  lemma LinkRootSound(m: Mem, t: Tree, held: seq<nat>, reserved: nat, s: nat, f: nat)
    requires Sound(m, t, held, reserved) && forall n :: n in t ==> n.space != s
    requires f < |m.ram| && m.refs[f] == 1 && held[f] == 1 && m.ram[f] == ZeroPage()
    ensures Sound(m, t[Node(s, []) := f], Drop(held, f), reserved)
  {
    var c := Node(s, []);
    var t' := t[c := f];
    forall k | k in t ensures t[k] != f {
      NamedIsCounted(t, k);
    }
    forall k | k in t' ensures NodeOk(t', k, |m.ram|) {
      if k != c { assert NodeOk(t, k, |m.ram|); }
    }
    CountedAdd(m.refs, t, held, c, f);
    ExclusiveAdd(t, held, c, f);
    forall k, j | k in t' && IsTable(k) && 0 <= j < ENTRIES ensures NodeOk(t', k, |m.ram|) && EntryOk(m.ram, t', k, j) {
      if k == c {
        ZeroEntry(j);
        assert Child(c, j).space == s;
      } else {
        assert EntryOk(m.ram, t, k, j);
        assert |Child(k, j).path| > 0;
      }
    }
  }
}
