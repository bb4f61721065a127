// The flat map from virtual page numbers to entries that a four-level table stands for,
// and what each store into a table does to it.
module FlatMap {
  import opened Words
  import opened PageTree

  // 48-bit virtual addresses: 36 bits of page number.
  const VPNS: nat := 0x10_0000_0000

  /** The four table indices of a page number (the VIRT_TO_* macros). */
  function Path(v: nat): (p: seq<nat>)
    ensures |p| == DEPTH
  {
    [v / 512 / 512 / 512 % 512, v / 512 / 512 % 512, v / 512 % 512, v % 512]
  }

  /** The table of depth d that translating page v of a space goes through. */
  function TableNode(space: nat, v: nat, d: nat): (n: Node)
    requires d <= DEPTH
    ensures |n.path| == d
  {
    Node(space, Path(v)[..d])
  }

  /** The mapping of page v: entry v % 512 of its leaf table. */
  function LeafNode(space: nat, v: nat): (n: Node)
    ensures |n.path| == DEPTH
  {
    Child(TableNode(space, v, 3), v % 512)
  }

  lemma LeafPath(space: nat, v: nat)
    ensures LeafNode(space, v) == Node(space, Path(v)) == TableNode(space, v, 4)
  {
    assert Path(v)[..4] == Path(v) == Path(v)[..3] + [v % 512];
  }

  /** The entry that translates page v of a space; 0 when a table on the way is missing. */
  function Pte(ram: seq<Page>, t: Tree, space: nat, v: nat): Word {
    var n := TableNode(space, v, 3);
    if n in t && t[n] < |ram| then ReadWord(ram[t[n]], v % 512) else 0
  }

  /** What the page behind entry e holds. */
  function Content(ram: seq<Page>, e: Word): Page {
    if FrameOf(e) < |ram| then ram[FrameOf(e)] else ZeroPage()
  }

  lemma SoundSizes(m: Mem, t: Tree, held: seq<nat>, reserved: nat)
    requires Sound(m, t, held, reserved)
    ensures (forall n :: n in t ==> t[n] < |m.ram|) && |m.used| == |m.refs| == |m.ram| == |held| <= MAX_FRAME
  {
    forall n | n in t ensures t[n] < |m.ram| { assert NodeOk(t, n, |m.ram|); }
  }

  /** A page number is its four indices and the bits the tables ignore. */
  lemma Digits(v: nat)
    ensures v % VPNS == ((Path(v)[0] * 512 + Path(v)[1]) * 512 + Path(v)[2]) * 512 + Path(v)[3]
    ensures v == v / 512 / 512 / 512 / 512 * VPNS + v % VPNS
  {
    var q := v / 512 / 512 / 512 / 512;
    var r := ((Path(v)[0] * 512 + Path(v)[1]) * 512 + Path(v)[2]) * 512 + Path(v)[3];
    assert v == q * VPNS + r && r < VPNS;
    assert v / VPNS == q;
  }

  lemma SameDigits(p: seq<nat>, r: seq<nat>)
    requires |p| == |r| == 4 && forall k :: 0 <= k < 4 ==> p[k] < 512 && r[k] < 512
    requires ((p[0] * 512 + p[1]) * 512 + p[2]) * 512 + p[3] == ((r[0] * 512 + r[1]) * 512 + r[2]) * 512 + r[3]
    ensures p == r
  {
    LastDigit((p[0] * 512 + p[1]) * 512 + p[2], p[3], (r[0] * 512 + r[1]) * 512 + r[2], r[3]);
    LastDigit(p[0] * 512 + p[1], p[2], r[0] * 512 + r[1], r[2]);
    LastDigit(p[0], p[1], r[0], r[1]);
  }

  lemma LastDigit(x: nat, a: nat, y: nat, b: nat)
    requires a < 512 && b < 512 && x * 512 + a == y * 512 + b
    ensures x == y && a == b
  {
  }

  /** Two page numbers share a translation exactly when they agree in their low 36 bits. */
  lemma PathEqual(v: nat, w: nat)
    ensures Path(v) == Path(w) <==> v % VPNS == w % VPNS
  {
    Digits(v);
    Digits(w);
    if v % VPNS == w % VPNS {
      SameDigits(Path(v), Path(w));
    }
  }

  lemma LeafInjective(s: nat, v: nat, s': nat, w: nat)
    requires v < VPNS && w < VPNS && LeafNode(s, v) == LeafNode(s', w)
    ensures s == s' && v == w
  {
    LeafPath(s, v);
    LeafPath(s', w);
    PathEqual(v, w);
  }

  /** A present entry is a leaf of the tree and names the leaf's frame. */
  lemma PteMeaning(m: Mem, t: Tree, held: seq<nat>, reserved: nat, s: nat, v: nat)
    requires Sound(m, t, held, reserved)
    ensures Present(Pte(m.ram, t, s, v)) <==> LeafNode(s, v) in t
    ensures Present(Pte(m.ram, t, s, v)) ==>
      FrameOf(Pte(m.ram, t, s, v)) == t[LeafNode(s, v)] < |m.ram| && TableNode(s, v, 3) in t
    ensures !Present(Pte(m.ram, t, s, v)) ==> Pte(m.ram, t, s, v) == 0
  {
    SoundSizes(m, t, held, reserved);
    LinkedPte(m.ram, t, s, v);
  }

  lemma LinkedPte(ram: seq<Page>, t: Tree, s: nat, v: nat)
    requires Shaped(t, |ram|) && Linked(ram, t)
    ensures Present(Pte(ram, t, s, v)) <==> LeafNode(s, v) in t
    ensures Present(Pte(ram, t, s, v)) ==>
      FrameOf(Pte(ram, t, s, v)) == t[LeafNode(s, v)] < |ram| && TableNode(s, v, 3) in t
    ensures !Present(Pte(ram, t, s, v)) ==> Pte(ram, t, s, v) == 0
  {
    var n := TableNode(s, v, 3);
    if n in t {
      assert EntryOk(ram, t, n, v % 512);
    } else {
      NoOrphans(t, |ram|, n, v % 512);
    }
  }

  /** Page v of space s is translated and filled in the second state as in the first. */
  ghost predicate SamePage(ram: seq<Page>, t: Tree, ram': seq<Page>, t': Tree, s: nat, v: nat)
  {
    && Pte(ram', t', s, v) == Pte(ram, t, s, v)
    && (Present(Pte(ram, t, s, v)) ==> Content(ram', Pte(ram, t, s, v)) == Content(ram, Pte(ram, t, s, v)))
  }

  /** No page other than those in `except` changes its translation or contents. */
  ghost predicate Undisturbed(ram: seq<Page>, t: Tree, ram': seq<Page>, t': Tree, except: set<Node>)
  {
    forall s: nat, v: nat :: LeafNode(s, v) !in except ==> SamePage(ram, t, ram', t', s, v)
  }

  lemma UndisturbedTrans(ram: seq<Page>, t: Tree, ram': seq<Page>, t': Tree, ram'': seq<Page>, t'': Tree, x: set<Node>,
          y: set<Node>)
    requires Undisturbed(ram, t, ram', t', x) && Undisturbed(ram', t', ram'', t'', y)
    ensures Undisturbed(ram, t, ram'', t'', x + y)
  {
    forall s: nat, v: nat | LeafNode(s, v) !in x + y ensures SamePage(ram, t, ram'', t'', s, v) {
      assert SamePage(ram, t, ram', t', s, v) && SamePage(ram', t', ram'', t'', s, v);
    }
  }

  /** Filling a frame no node names disturbs no page. */
  lemma FillUndisturbed(m: Mem, t: Tree, held: seq<nat>, reserved: nat, f: nat, c: Page, ram': seq<Page>)
    requires Sound(m, t, held, reserved) && f < |m.ram| && forall n :: n in t ==> t[n] != f
    requires ram' == m.ram[f := c]
    ensures Undisturbed(m.ram, t, ram', t, {})
  {
    SoundSizes(m, t, held, reserved);
    forall s: nat, v: nat ensures SamePage(m.ram, t, ram', t, s, v) {
      PteMeaning(m, t, held, reserved, s, v);
    }
  }

  /** A store into table n disturbs no page that is not translated by the stored entry. */
  lemma StoreUndisturbed(m: Mem, t: Tree, held: seq<nat>, reserved: nat, n: Node, i: nat, e: Word, ram': seq<Page>)
    requires Sound(m, t, held, reserved) && n in t && IsTable(n) && i < ENTRIES && t[n] < |m.ram|
    requires ram' == SetEntry(m.ram, t[n], i, e)
    ensures Undisturbed(m.ram, t, ram', t, {Child(n, i)})
    ensures forall s: nat, v: nat :: LeafNode(s, v) == Child(n, i) ==> Pte(ram', t, s, v) == e
  {
    SoundSizes(m, t, held, reserved);
    SetEntryReads(m.ram, t, held, n, i, e, ram');
    forall s: nat, v: nat
      ensures LeafNode(s, v) == Child(n, i) ==> Pte(ram', t, s, v) == e
      ensures LeafNode(s, v) != Child(n, i) ==> SamePage(m.ram, t, ram', t, s, v)
    {
      PteMeaning(m, t, held, reserved, s, v);
      var k := TableNode(s, v, 3);
      if LeafNode(s, v) == Child(n, i) { ChildInjective(k, v % 512, n, i); }
      if k in t {
        assert Entry(ram', t, k, v % 512) == if k == n && v % 512 == i then e else Entry(m.ram, t, k, v % 512);
      }
      if Present(Pte(m.ram, t, s, v)) {
        assert t[LeafNode(s, v)] != t[n];
      }
    }
  }

  /** Adding a node that is no leaf table's parent entry, or a leaf, leaves the reading of tables alone. */
  lemma LinkTableFlat(m: Mem, t: Tree, held: seq<nat>, reserved: nat, n: Node, i: nat, f: nat, ram': seq<Page>,
          t': Tree)
    requires Sound(m, t, held, reserved)
    requires n in t && |n.path| < DEPTH - 1 && i < ENTRIES && Child(n, i) !in t
    requires f < |m.ram| && m.refs[f] == 1 && held[f] == 1 && m.ram[f] == ZeroPage() && t[n] < |m.ram|
    requires ram' == SetEntry(m.ram, t[n], i, TableEntry(f)) && t' == t[Child(n, i) := f]
    ensures Undisturbed(m.ram, t, ram', t', {})
  {
    var c := Child(n, i);
    StoreUndisturbed(m, t, held, reserved, n, i, TableEntry(f), ram');
    assert ram'[f] == ZeroPage() by { NamedIsCounted(t, n); }
    forall s: nat, v: nat ensures SamePage(m.ram, t, ram', t', s, v) {
      NewTablePage(m, t, held, reserved, c, f, ram', s, v);
    }
  }

  lemma NewTablePage(m: Mem, t: Tree, held: seq<nat>, reserved: nat, c: Node, f: nat, ram': seq<Page>, s: nat, v: nat)
    requires Sound(m, t, held, reserved) && c !in t && |c.path| < DEPTH && f < |ram'| && ram'[f] == ZeroPage()
    requires LeafNode(s, v) != c ==> SamePage(m.ram, t, ram', t, s, v)
    ensures SamePage(m.ram, t, ram', t[c := f], s, v)
  {
    hide Sound, Sized, Bitmapped, Counted, Shaped, Exclusive, Linked, Holders;
    if TableNode(s, v, 3) == c {
      PteMeaning(m, t, held, reserved, s, v);
      ZeroEntry(v % 512);
    }
  }

  /** Mapping or remapping a page changes the translation of that page only. */
  lemma LeafFlat(m: Mem, t: Tree, held: seq<nat>, reserved: nat, n: Node, i: nat, f: nat, e: Word, ram': seq<Page>,
          t': Tree)
    requires Sound(m, t, held, reserved)
    requires n in t && |n.path| == DEPTH - 1 && i < ENTRIES && f < |m.ram| && t[n] < |m.ram|
    requires ram' == SetEntry(m.ram, t[n], i, e) && t' == t[Child(n, i) := f]
    ensures Undisturbed(m.ram, t, ram', t', {Child(n, i)})
    ensures forall s: nat, v: nat :: LeafNode(s, v) == Child(n, i) ==> Pte(ram', t', s, v) == e
  {
    StoreUndisturbed(m, t, held, reserved, n, i, e, ram');
    forall s: nat, v: nat
      ensures Pte(ram', t', s, v) == Pte(ram', t, s, v)
      ensures LeafNode(s, v) != Child(n, i) ==> SamePage(m.ram, t, ram', t', s, v)
    {
      assert |TableNode(s, v, 3).path| == 3;
      if LeafNode(s, v) != Child(n, i) { assert SamePage(m.ram, t, ram', t, s, v); }
    }
  }
}
