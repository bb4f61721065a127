// All the files of a volume together: whatever is written, truncated and removed in whatever order, the
// chains stay apart, every directory entry is in step, and the volume is a map from files to bytes.
module FatStore {
  import opened Words
  import opened Disk
  import opened FatTable
  import opened FatFiles
  import opened Fat

  /** A file of the volume: its chain and size, and where its directory entry is. */
  datatype Stored = Stored(chain: seq<nat>, size: nat, dc: nat, off: nat)

  type Table = map<nat, Stored>

  /** The file is in order, and its directory entry, outside its own clusters, says where it begins and how long it is.
      */
  ghost predicate StoredOk(g: Geometry, v: Volume, s: Stored) {
    && FileOk(g, v, s.chain, s.size) && DirectoryOk(g, v, s.chain, s.dc, s.off) && s.off % ENTRY == 0
    && EntryFirst(g, v.disk, s.dc, s.off) == First(s.chain) && EntrySize(g, v.disk, s.dc, s.off) == s.size % ENTRY_SIZES
  }

  /** Two files share no cluster, neither has the other's directory entry in it, and the entries are different ones. */
  ghost predicate Separate(a: Stored, b: Stored) {
    FatTable.Apart(a.chain, b.chain) && a.dc !in b.chain && b.dc !in a.chain && (a.dc != b.dc || a.off != b.off)
  }

  ghost predicate AllOk(g: Geometry, v: Volume, t: Table) {
    && Mirrored(g, v) && (forall i :: i in t ==> StoredOk(g, v, t[i]))
    && forall i, j :: i in t && j in t && i != j ==> Separate(t[i], t[j])
  }

  /** What the files hold. */
  ghost function View(g: Geometry, v: Volume, t: Table): map<nat, seq<Byte>> {
    map i | i in t :: Content(g, v.disk, t[i].chain, t[i].size)
  }

  /** The fields of the entry at `off` in cluster dc are as before. */
  ghost predicate FieldsKept(g: Geometry, v: Volume, v': Volume, dc: nat, off: nat) {
    forall k: nat :: EntryField(off, k) ==> ByteIn(g, v'.disk, dc, k) == ByteIn(g, v.disk, dc, k)
  }

  lemma SameFields(g: Geometry, v: Volume, v': Volume, dc: nat, off: nat)
    requires FieldsKept(g, v, v', dc, off)
    ensures EntryFirst(g, v'.disk, dc, off) == EntryFirst(g, v.disk, dc, off)
    ensures EntrySize(g, v'.disk, dc, off) == EntrySize(g, v.disk, dc, off)
  {
    hide ByteIn, Join;
    assert EntryField(off, off + 20) && EntryField(off, off + 21) && EntryField(off, off + 26) && EntryField(off,
        off + 27);
    assert EntryField(off, off + 28) && EntryField(off, off + 29) && EntryField(off, off + 30) && EntryField(off,
        off + 31);
  }

  /** Changing one entry leaves the fields of all others. */
  lemma OtherFields(g: Geometry, v: Volume, v': Volume, dc: nat, off: nat, off': nat)
    requires EntryOnly(g, v, v', dc, off) && off % ENTRY == off' % ENTRY == 0 && off != off'
    requires off' + ENTRY <= ClusterSize(g)
    ensures FieldsKept(g, v, v', dc, off')
  {
    hide ByteIn, ClusterSize;
    forall k: nat | EntryField(off', k) ensures !EntryField(off, k) && k < ClusterSize(g) {
      if off < off' { assert off + ENTRY <= off'; } else { assert off' + ENTRY <= off; }
    }
  }

  /** Marking records as unused leaves the fields of all entries. */
  lemma MarkedFields(g: Geometry, v: Volume, v': Volume, dc: nat, off: nat, off': nat, n: nat)
    requires Deleted(ClusterOf(g, v.disk, dc), ClusterOf(g, v'.disk, dc), off, n) && off % ENTRY == off' % ENTRY == 0
    requires off' + ENTRY <= ClusterSize(g)
    ensures FieldsKept(g, v, v', dc, off')
  {
    hide ByteIn, ClusterSize, LongNameAt;
    forall k: nat | EntryField(off', k) ensures ByteIn(g, v'.disk, dc, k) == ByteIn(g, v.disk, dc, k) {
      assert k % ENTRY == k - off' > 0;
      Misaligned(off, k);
      assert ClusterOf(g, v'.disk, dc)[k] == ClusterOf(g, v.disk, dc)[k];
    }
  }

  lemma Misaligned(off: nat, k: nat)
    requires off % ENTRY == 0 && k % ENTRY != 0
    ensures (off - k) % ENTRY != 0
  {
    assert off - k == ENTRY * (off / ENTRY - k / ENTRY - 1) + (ENTRY - k % ENTRY);
  }

  /** A file that has no part in a change stays in order and keeps its contents. */
  lemma StoredStays(g: Geometry, v: Volume, v': Volume, touched: seq<nat>, dc: nat, s: Stored)
    requires StoredOk(g, v, s) && Mirrored(g, v') && OthersKept(g, v, v', touched + [dc])
    requires FatTable.Apart(s.chain, touched) && dc !in s.chain && s.dc !in touched
    requires s.dc == dc ==> dc < |v.fat| == |v'.fat| && v'.fat[dc] == v.fat[dc] && FieldsKept(g, v, v', dc, s.off)
    ensures StoredOk(g, v', s) && Content(g, v'.disk, s.chain, s.size) == Content(g, v.disk, s.chain, s.size)
  {
    NotTouched(s.chain, touched, dc);
    OtherBytes(g, v, v', touched + [dc], s.chain, s.size);
    if s.dc != dc { ElsewhereKept(g, v, v', touched, dc, s.dc, s.off); }
    hide FileOk, Content, Mirrored, ByteIn, FieldsKept, OthersKept, ClusterSize, EntryFirst, EntrySize;
    SameFields(g, v, v', s.dc, s.off);
  }

  lemma NotTouched(chain: seq<nat>, touched: seq<nat>, dc: nat)
    requires FatTable.Apart(chain, touched) && dc !in chain
    ensures FatTable.Apart(chain, touched + [dc])
  {
  }

  lemma ElsewhereKept(g: Geometry, v: Volume, v': Volume, touched: seq<nat>, dc: nat, other: nat, off: nat)
    requires OthersKept(g, v, v', touched + [dc]) && other != dc && other !in touched && 2 <= other < |v.fat|
    requires off + ENTRY <= ClusterSize(g)
    ensures |v'.fat| == |v.fat| && v'.fat[other] == v.fat[other] && FieldsKept(g, v, v', other, off)
  {
    assert other !in touched + [dc];
    hide ByteIn, ClusterSize;
    assert ClusterSame(g, v.disk, v'.disk, other);
  }

  /** One file was changed; of the others nothing was. */
  ghost predicate OneChanged(g: Geometry, v: Volume, v': Volume, t: Table, id: nat, touched: seq<nat>)
    requires id in t
  {
    && Mirrored(g, v') && OthersKept(g, v, v', touched + [t[id].dc])
    && (forall j :: j in t && j != id ==> FatTable.Apart(t[j].chain, touched) && t[j].dc !in touched)
    && t[id].dc < |v.fat| == |v'.fat| && v'.fat[t[id].dc] == v.fat[t[id].dc]
    && (forall j :: j in t && j != id && t[j].dc == t[id].dc ==> FieldsKept(g, v, v', t[id].dc, t[j].off))
  }

  lemma OthersStay(g: Geometry, v: Volume, v': Volume, t: Table, id: nat, touched: seq<nat>)
    requires AllOk(g, v, t) && id in t && OneChanged(g, v, v', t, id, touched)
    ensures AllOk(g, v', t - {id}) && View(g, v', t - {id}) == View(g, v, t) - {id}
  {
    hide StoredOk, Separate, Mirrored, OthersKept, FieldsKept, Content;
    forall j | j in t && j != id
      ensures StoredOk(g, v', t[j])
      ensures Content(g, v'.disk, t[j].chain, t[j].size) == Content(g, v.disk, t[j].chain, t[j].size)
    {
      SeparateFrom(t[j], t[id]);
      StoredStays(g, v, v', touched, t[id].dc, t[j]);
    }
  }

  lemma SeparateFrom(a: Stored, b: Stored)
    requires Separate(a, b)
    ensures b.dc !in a.chain
  {
  }

  /** The changed file takes its place among the others again. */
  lemma PutBack(g: Geometry, v: Volume, t: Table, id: nat, s: Stored)
    requires AllOk(g, v, t - {id}) && id in t && StoredOk(g, v, s)
    requires forall j :: j in t && j != id ==> Separate(t[j], s) && Separate(s, t[j])
    ensures AllOk(g, v, t[id := s])
    ensures View(g, v, t[id := s]) == View(g, v, t - {id})[id := Content(g, v.disk, s.chain, s.size)]
  {
    hide StoredOk, Separate, Mirrored, Content;
    forall j | j in t && j != id ensures j in t - {id} && (t - {id})[j] == t[j] == t[id := s][j] {}
  }

  // ----- what each operation does to the table -----

  /** The clusters a write took were free, so they are no other file's and hold no directory. */
  lemma WriteTouches(g: Geometry, v: Volume, t: Table, id: nat, j: nat, chain: seq<nat>)
    requires AllOk(g, v, t) && id in t && j in t && j != id && t[id].chain <= chain
    requires forall i :: |t[id].chain| <= i < |chain| ==> chain[i] < |v.fat| && v.fat[chain[i]] == 0
    ensures FatTable.Apart(t[j].chain, chain) && t[j].dc !in chain && FatTable.Apart(chain, t[j].chain)
  {
    assert Separate(t[j], t[id]) && StoredOk(g, v, t[j]);
    var a, b := t[j].chain, t[id].chain;
    hide Mirrored, GeometryOk, ByteAt, ClusterSize;
    forall i | 0 <= i < |a| ensures 2 <= a[i] < |v.fat| && v.fat[a[i]] != 0 { InChain(v.fat, a, i); }
    forall i | 0 <= i < |b| ensures b[i] == chain[i] {}
  }

  lemma WriteKeepsAll(g: Geometry, v: Volume, v': Volume, t: Table, id: nat, chain: seq<nat>, size: nat)
    requires AllOk(g, v, t) && id in t && t[id].chain <= chain && FileOk(g, v', chain, size)
    requires forall i :: |t[id].chain| <= i < |chain| ==> chain[i] < |v.fat| && v.fat[chain[i]] == 0
    requires OthersKept(g, v, v', chain + [t[id].dc]) && EntryOnly(g, v, v', t[id].dc, t[id].off)
    requires EntryFirst(g, v'.disk, t[id].dc, t[id].off) == First(chain)
    requires EntrySize(g, v'.disk, t[id].dc, t[id].off) == size % ENTRY_SIZES
    ensures AllOk(g, v', t[id := Stored(chain, size, t[id].dc, t[id].off)])
    ensures View(g, v', t[id := Stored(chain, size, t[id].dc, t[id].off)]) == View(g, v,
        t)[id := Content(g, v'.disk, chain, size)]
  {
    var s := Stored(chain, size, t[id].dc, t[id].off);
    OwnDirectory(g, v, t, id, chain);
    forall j | j in t && j != id
      ensures FatTable.Apart(t[j].chain, chain) && t[j].dc !in chain && Separate(t[j], s) && Separate(s, t[j])
      ensures t[j].dc == s.dc ==> FieldsKept(g, v, v', s.dc, t[j].off)
    {
      WriteTouches(g, v, t, id, j, chain);
      assert Separate(t[j], t[id]) && Separate(t[id], t[j]) && StoredOk(g, v, t[j]) && StoredOk(g, v, t[id]);
      if t[j].dc == s.dc { OtherFields(g, v, v', s.dc, s.off, t[j].off); }
    }
    StoredAfter(g, v, v', t, id, s);
    hide StoredOk, Separate, OthersKept, FieldsKept, Content, Mirrored, AllOk, View, FileOk;
    MirroredOf(g, v', chain, size);
    ChangedIs(g, v, v', t, id, chain);
    OthersStay(g, v, v', t, id, chain);
    PutBack(g, v', t, id, s);
    BackInView(g, v, t, id, Content(g, v'.disk, chain, size));
  }

  lemma MirroredOf(g: Geometry, v: Volume, chain: seq<nat>, size: nat)
    requires FileOk(g, v, chain, size)
    ensures Mirrored(g, v)
  {
  }

  lemma ChangedIs(g: Geometry, v: Volume, v': Volume, t: Table, id: nat, touched: seq<nat>)
    requires id in t && Mirrored(g, v') && OthersKept(g, v, v', touched + [t[id].dc])
    requires EntryOnly(g, v, v', t[id].dc, t[id].off)
    requires forall j :: j in t && j != id ==> FatTable.Apart(t[j].chain, touched) && t[j].dc !in touched
    requires forall j :: j in t && j != id && t[j].dc == t[id].dc ==> FieldsKept(g, v, v', t[id].dc, t[j].off)
    ensures OneChanged(g, v, v', t, id, touched)
  {
    hide OthersKept, FieldsKept, Mirrored;
  }

  lemma BackInView(g: Geometry, v: Volume, t: Table, id: nat, content: seq<Byte>)
    ensures (View(g, v, t) - {id})[id := content] == View(g, v, t)[id := content]
  {
    hide Content;
  }

  /** The file's own directory is not among the clusters the write took. */
  lemma OwnDirectory(g: Geometry, v: Volume, t: Table, id: nat, chain: seq<nat>)
    requires AllOk(g, v, t) && id in t && t[id].chain <= chain
    requires forall i :: |t[id].chain| <= i < |chain| ==> chain[i] < |v.fat| && v.fat[chain[i]] == 0
    ensures t[id].dc !in chain && t[id].dc < |v.fat| && v.fat[t[id].dc] != 0 && 2 <= t[id].dc < g.end
    ensures t[id].off + ENTRY <= ClusterSize(g) && t[id].off % ENTRY == 0
  {
    assert StoredOk(g, v, t[id]);
    hide FileOk, ClusterSize, EntryFirst, EntrySize;
    forall i | 0 <= i < |chain| ensures chain[i] != t[id].dc {
      if i < |t[id].chain| { assert chain[i] == t[id].chain[i]; }
    }
  }

  lemma StoredAfter(g: Geometry, v: Volume, v': Volume, t: Table, id: nat, s: Stored)
    requires id in t && s.dc == t[id].dc && s.off == t[id].off && FileOk(g, v', s.chain, s.size)
    requires EntryOnly(g, v, v', s.dc, s.off)
    requires s.dc !in s.chain && s.dc < |v.fat| && v.fat[s.dc] != 0 && 2 <= s.dc < g.end
    requires s.off + ENTRY <= ClusterSize(g) && s.off % ENTRY == 0
    requires EntryFirst(g, v'.disk, s.dc, s.off) == First(s.chain)
    requires EntrySize(g, v'.disk, s.dc, s.off) == s.size % ENTRY_SIZES
    ensures StoredOk(g, v', s)
  {
    hide FileOk, ClusterSize, EntryFirst, EntrySize, ByteIn;
  }

  lemma TruncateKeepsAll(g: Geometry, v: Volume, v': Volume, t: Table, id: nat)
    requires AllOk(g, v, t) && id in t && FileOk(g, v', [], 0)
    requires OthersKept(g, v, v', t[id].chain + [t[id].dc]) && EntryOnly(g, v, v', t[id].dc, t[id].off)
    requires EntryFirst(g, v'.disk, t[id].dc, t[id].off) == EntrySize(g, v'.disk, t[id].dc, t[id].off) == 0
    ensures AllOk(g, v', t[id := Stored([], 0, t[id].dc, t[id].off)])
    ensures View(g, v', t[id := Stored([], 0, t[id].dc, t[id].off)]) == View(g, v, t)[id := []]
  {
    var s := Stored([], 0, t[id].dc, t[id].off);
    OwnDirectory(g, v, t, id, t[id].chain);
    forall j | j in t && j != id
      ensures FatTable.Apart(t[j].chain, t[id].chain) && t[j].dc !in t[id].chain && Separate(t[j], s)
      ensures Separate(s, t[j])
      ensures t[j].dc == s.dc ==> FieldsKept(g, v, v', s.dc, t[j].off)
    {
      assert Separate(t[j], t[id]) && Separate(t[id], t[j]) && StoredOk(g, v, t[j]);
      if t[j].dc == s.dc { OtherFields(g, v, v', s.dc, s.off, t[j].off); }
    }
    StoredAfter(g, v, v', t, id, s);
    hide StoredOk, Separate, OthersKept, FieldsKept, Mirrored, AllOk, View, FileOk;
    MirroredOf(g, v', [], 0);
    ChangedIs(g, v, v', t, id, t[id].chain);
    OthersStay(g, v, v', t, id, t[id].chain);
    PutBack(g, v', t, id, s);
    BackInView(g, v, t, id, []);
  }

  lemma RemoveKeepsAll(g: Geometry, v: Volume, v': Volume, t: Table, id: nat, n: nat)
    requires AllOk(g, v, t) && id in t && Mirrored(g, v') && IsFreed(v.fat, v'.fat, t[id].chain)
    requires OthersKept(g, v, v', t[id].chain + [t[id].dc])
    requires Deleted(ClusterOf(g, v.disk, t[id].dc), ClusterOf(g, v'.disk, t[id].dc), t[id].off, n)
    ensures AllOk(g, v', t - {id}) && View(g, v', t - {id}) == View(g, v, t) - {id}
  {
    OwnDirectory(g, v, t, id, t[id].chain);
    var dc, off := t[id].dc, t[id].off;
    forall j | j in t && j != id
      ensures FatTable.Apart(t[j].chain, t[id].chain) && t[j].dc !in t[id].chain
      ensures t[j].dc == dc ==> FieldsKept(g, v, v', dc, t[j].off)
    {
      assert Separate(t[j], t[id]) && Separate(t[id], t[j]) && StoredOk(g, v, t[j]);
      if t[j].dc == dc { MarkedFields(g, v, v', dc, off, t[j].off, n); }
    }
    assert v'.fat[dc] == v.fat[dc];
    hide StoredOk, Separate, OthersKept, FieldsKept, Mirrored, AllOk, View, Deleted;
    OthersStay(g, v, v', t, id, t[id].chain);
  }

  /** A file apart from all others joins them. */
  lemma AddKeepsAll(g: Geometry, v: Volume, t: Table, id: nat, s: Stored)
    requires AllOk(g, v, t) && id !in t && StoredOk(g, v, s)
    requires forall j :: j in t ==> Separate(t[j], s) && Separate(s, t[j])
    ensures AllOk(g, v, t[id := s])
    ensures View(g, v, t[id := s]) == View(g, v, t)[id := Content(g, v.disk, s.chain, s.size)]
  {
    hide StoredOk, Separate, Mirrored, Content;
  }

  // ----- the files of a mounted volume -----

  /** The table has the file as it is. */
  ghost predicate InTable(t: Table, id: nat, chain: seq<nat>, f: OpenFile)
    reads f
  {
    id in t && t[id] == Stored(chain, f.size, f.dirCluster, f.dirOffset) && f.isFile && f.first == First(chain)
  }

  class Store {
    const fs: FatFs
    var files: map<nat, OpenFile>
    ghost var chains: map<nat, seq<nat>>

    ghost function Table(): Table
      requires chains.Keys == files.Keys
      reads this, files.Values
    {
      map i | i in files :: Stored(chains[i], files[i].size, files[i].dirCluster, files[i].dirOffset)
    }

    ghost predicate Shape()
      reads this, files.Values
    {
      && chains.Keys == files.Keys && (forall i: nat, j: nat :: i in files && j in files && i != j ==> files[i] != files[j])
      && forall i: nat :: i in files ==> files[i].isFile && files[i].first == First(chains[i])
    }

    /** Every file in order and apart from all others. */
    ghost predicate Valid()
      reads this, files.Values, fs.ata.disk, fs.ata.cacheSector, fs.ata.cacheValid, fs.ata.cacheData, fs.fat
    {
      Shape() && fs.Valid() && AllOk(fs.g, fs.Vol(), Table())
    }

    /** What the files hold. */
    ghost function Contents(): map<nat, seq<Byte>>
      requires chains.Keys == files.Keys
      reads this, files.Values, fs.ata.disk, fs.fat
    {
      View(fs.g, fs.Vol(), Table())
    }

    /** A volume with no file opened yet. */
    constructor (fs: FatFs)
      requires fs.Valid()
      ensures Valid() && this.fs == fs && files == map[] && Contents() == map[]
    {
      this.fs := fs;
      files, chains := map[], map[];
    }

    lemma FileOf(id: nat)
      requires Valid() && id in files
      ensures id in Table()
      ensures Table()[id] == Stored(chains[id], files[id].size, files[id].dirCluster, files[id].dirOffset)
      ensures FileOk(fs.g, fs.Vol(), chains[id], files[id].size) && files[id].first == First(chains[id])
      ensures files[id].isFile
      ensures DirectoryOk(fs.g, fs.Vol(), chains[id], files[id].dirCluster, files[id].dirOffset)
      ensures files[id].dirCluster >= 2
      ensures id in Contents() && Contents()[id] == Content(fs.g, fs.Vol().disk, chains[id], files[id].size)
    {
      assert StoredOk(fs.g, fs.Vol(), Table()[id]);
    }

    /** Write at the file's position; the volume has room for it. */
    method Write(id: nat, f: OpenFile, data: seq<Byte>) returns (r: int)
      requires Valid() && id in files && files[id] == f
      requires data != [] && f.pos + |data| < WRAP ==>
        |FreeClusters(fs.g, fs.Vol().fat)| + |chains[id]| > Quot(f.pos + |data| - 1, ClusterSize(fs.g))
      modifies `chains, f`first, f`size, fs.ata.disk, fs.ata.cacheSector, fs.ata.cacheValid, fs.ata.cacheData, fs.fat
      ensures Valid() && r == if data != [] && f.pos + |data| >= WRAP then -1 else |data|
      ensures r <= 0 ==> Contents() == old(Contents())
      ensures r > 0 ==> Contents() == old(Contents())[id := Written(old(Contents())[id], f.pos, data,
          Larger(old(f.size), f.pos + |data|))]
    {
      hide InTable, Valid, Shape, Table, Contents, AllOk, View, StoredOk, Separate, FileOk, DirectoryOk, OthersKept,
        EntryOnly, IsFreed, Content, FatFiles.Written, FreeClusters, Quot, FatFs.Valid, FatFs.Vol, Mirrored, EntryFirst,
        EntrySize, Deleted, ClusterOf, ByteIn, ClusterSize, Larger;
      Facts();
      FileOf(id);
      ghost var v, t := fs.Vol(), Table();
      ghost var chain;
      r, chain := fs.WriteFile(f, data, chains[id]);
      Relink(id, f, chain, t);
      if r > 0 { Wrote(v, t, id, f, chain); } else { assert t[id := t[id]] == t; }
      Again();
    }

    /** The file's chain is now this one; the others are as the table has them. */
    ghost method Relink(id: nat, f: OpenFile, chain: seq<nat>, t: Table)
      requires id in files && files[id] == f && chains.Keys == files.Keys == t.Keys && f.isFile
      requires f.first == First(chain)
      requires forall i: nat :: i in files && i != id ==> InTable(t, i, chains[i], files[i])
      requires forall i: nat, j: nat :: i in files && j in files && i != j ==> files[i] != files[j]
      modifies `chains
      ensures Shape() && Table() == t[id := Stored(chain, f.size, f.dirCluster, f.dirOffset)]
    {
      hide InTable;
      chains := chains[id := chain];
      TableIs(t, id);
    }

    lemma Wrote(v: Volume, t: Table, id: nat, f: OpenFile, chain: seq<nat>)
      requires AllOk(fs.g, v, t) && id in t && t[id].dc == f.dirCluster && t[id].off == f.dirOffset
      requires t[id].chain <= chain
      requires FileOk(fs.g, fs.Vol(), chain, f.size) && f.first == First(chain)
      requires forall i :: |t[id].chain| <= i < |chain| ==> chain[i] < |v.fat| && v.fat[chain[i]] == 0
      requires OthersKept(fs.g, v, fs.Vol(), chain + [f.dirCluster])
      requires EntryOnly(fs.g, v, fs.Vol(), f.dirCluster, f.dirOffset)
      requires EntryFirst(fs.g, fs.Vol().disk, f.dirCluster, f.dirOffset) == f.first
      requires EntrySize(fs.g, fs.Vol().disk, f.dirCluster, f.dirOffset) == f.size % ENTRY_SIZES
      requires Shape() && Table() == t[id := Stored(chain, f.size, f.dirCluster, f.dirOffset)]
      ensures AllOk(fs.g, fs.Vol(), Table())
      ensures View(fs.g, fs.Vol(), Table()) == View(fs.g, v, t)[id := Content(fs.g, fs.Vol().disk, chain, f.size)]
    {
      hide *;
      WriteKeepsAll(fs.g, v, fs.Vol(), t, id, chain, f.size);
    }

    lemma MountedStill()
      requires fs.Valid()
      ensures Mirrored(fs.g, fs.Vol())
    {
      hide Mirrored;
    }

    /** Read at the file's position. */
    method Read(id: nat, f: OpenFile, count: nat) returns (data: seq<Byte>)
      requires Valid() && id in files && files[id] == f
      modifies fs.ata.cacheSector, fs.ata.cacheValid, fs.ata.cacheData
      ensures Valid() && Contents() == old(Contents()) && id in Contents() && |Contents()[id]| == f.size
      ensures data == if f.pos >= f.size then [] else Contents()[id][f.pos..f.pos + Least(count, f.size - f.pos)]
    {
      hide InTable, Valid, Shape, Table, Contents, AllOk, View, StoredOk, Separate, FileOk, DirectoryOk, OthersKept,
        EntryOnly, IsFreed, Content, FatFiles.Written, FreeClusters, Quot, FatFs.Valid, FatFs.Vol, Mirrored, EntryFirst,
        EntrySize, Deleted, ClusterOf, ByteIn, ClusterSize, Larger;
      Facts();
      FileOf(id);
      data := fs.ReadFile(f, count, chains[id]);
      Again();
    }

    method Truncate(id: nat, f: OpenFile)
      requires Valid() && id in files && files[id] == f
      modifies `chains, f`first, f`size, f`pos, fs.ata.disk, fs.ata.cacheSector, fs.ata.cacheValid, fs.ata.cacheData,
        fs.fat
      ensures Valid() && Contents() == old(Contents())[id := []]
    {
      hide InTable, Valid, Shape, Table, Contents, AllOk, View, StoredOk, Separate, FileOk, DirectoryOk, OthersKept,
        EntryOnly, IsFreed, Content, FatFiles.Written, FreeClusters, Quot, FatFs.Valid, FatFs.Vol, Mirrored, EntryFirst,
        EntrySize, Deleted, ClusterOf, ByteIn, ClusterSize, Larger;
      Facts();
      FileOf(id);
      ghost var v, t := fs.Vol(), Table();
      var ok := fs.TruncateFile(f, chains[id]);
      Relink(id, f, [], t);
      TruncateKeepsAll(fs.g, v, fs.Vol(), t, id);
      Again();
    }

    /** A file whose entry says that it is not in use stays. */
    method Remove(id: nat, f: OpenFile) returns (ok: bool)
      requires Valid() && id in files && files[id] == f
      modifies `files, `chains, fs.ata.disk, fs.ata.cacheSector, fs.ata.cacheValid, fs.ata.cacheData, fs.fat
      ensures Valid() && Contents() == if ok then old(Contents()) - {id} else old(Contents())
      ensures ok <==> ByteIn(fs.g, old(fs.Vol()).disk, f.dirCluster, f.dirOffset) !in [0, UNUSED]
    {
      hide InTable, Valid, Shape, Table, Contents, AllOk, View, StoredOk, Separate, FileOk, DirectoryOk, OthersKept,
        EntryOnly, IsFreed, Content, FatFiles.Written, FreeClusters, Quot, FatFs.Valid, FatFs.Vol, Mirrored, EntryFirst,
        EntrySize, Deleted, ClusterOf, ByteIn, ClusterSize, Larger;
      Facts();
      FileOf(id);
      ghost var v, t := fs.Vol(), Table();
      ok := fs.RemoveFile(f.first, f.dirCluster, f.dirOffset, chains[id], f.size);
      if ok {
        ghost var n: nat :| Deleted(ClusterOf(fs.g, v.disk, f.dirCluster),
            ClusterOf(fs.g, fs.Vol().disk, f.dirCluster), f.dirOffset, n);
        files, chains := files - {id}, chains - {id};
        TableWithout(t, id);
        MountedStill();
        RemoveKeepsAll(fs.g, v, fs.Vol(), t, id, n);
      }
      Again();
    }

    /** A file of the volume is opened: one that was there, or a new one, of no bytes yet. */
    method Open(id: nat, f: OpenFile, ghost chain: seq<nat>)
      requires Valid() && id !in files && f !in files.Values && f.isFile && f.first == First(chain)
      requires StoredOk(fs.g, fs.Vol(), Stored(chain, f.size, f.dirCluster, f.dirOffset))
      requires forall j :: j in files ==> Separate(Table()[j], Stored(chain, f.size, f.dirCluster, f.dirOffset))
      modifies `files, `chains
      ensures Valid() && files == old(files)[id := f]
      ensures Contents() == old(Contents())[id := Content(fs.g, fs.Vol().disk, chain, f.size)]
    {
      ghost var s, t := Stored(chain, f.size, f.dirCluster, f.dirOffset), Table();
      Facts();
      BothSeparate(s);
      hide InTable, StoredOk, Separate, AllOk, View, Valid, Shape, Table, Contents, FatFs.Valid, FatFs.Vol, Mirrored,
        FileOk, Content;
      AddKeepsAll(fs.g, fs.Vol(), t, id, s);
      Insert(id, f, chain);
      Again();
    }

    method Insert(id: nat, f: OpenFile, ghost chain: seq<nat>)
      requires Shape() && id !in files && f !in files.Values && f.isFile && f.first == First(chain)
      modifies `files, `chains
      ensures Shape() && files == old(files)[id := f]
      ensures Table() == old(Table())[id := Stored(chain, f.size, f.dirCluster, f.dirOffset)]
    {
      hide InTable;
      ghost var t := Table();
      forall i: nat | i in files ensures files[i] in files.Values && InTable(t, i, chains[i], files[i]) { Entry(i); }
      files, chains := files[id := f], chains[id := chain];
      TableIs(t, id);
    }

    lemma Entry(i: nat)
      requires Shape() && i in files
      ensures i in Table() && InTable(Table(), i, chains[i], files[i])
    {
    }

    lemma BothSeparate(s: Stored)
      requires chains.Keys == files.Keys && forall j :: j in files ==> Separate(Table()[j], s)
      ensures forall j :: j in Table() ==> Separate(Table()[j], s) && Separate(s, Table()[j])
    {
      forall j | j in files ensures Separate(s, Table()[j]) { assert Separate(Table()[j], s); }
    }

    lemma Facts()
      requires Valid()
      ensures Shape() && fs.Valid() && AllOk(fs.g, fs.Vol(), Table()) && Contents() == View(fs.g, fs.Vol(), Table())
      ensures chains.Keys == files.Keys == Table().Keys
      ensures forall i: nat :: i in files ==> InTable(Table(), i, chains[i], files[i])
      ensures forall i: nat, j: nat :: i in files && j in files && i != j ==> files[i] != files[j]
    {
    }

    lemma Again()
      requires Shape() && fs.Valid() && AllOk(fs.g, fs.Vol(), Table())
      ensures Valid() && Contents() == View(fs.g, fs.Vol(), Table())
    {
    }

    /** The table after a change of one file. */
    lemma TableIs(t: Table, id: nat)
      requires id in files && chains.Keys == files.Keys == t.Keys + {id} && files[id].isFile
      requires files[id].first == First(chains[id])
      requires forall i: nat :: i in files && i != id ==> InTable(t, i, chains[i], files[i]) && files[i] != files[id]
      requires forall i: nat, j: nat :: i in files && j in files && i != j ==> files[i] != files[j]
      ensures Shape()
      ensures Table() == t[id := Stored(chains[id], files[id].size, files[id].dirCluster, files[id].dirOffset)]
    {
    }

    /** The table after a file has gone. */
    lemma TableWithout(t: Table, id: nat)
      requires chains.Keys == files.Keys == t.Keys - {id} && id in t
      requires forall i: nat :: i in files ==> InTable(t, i, chains[i], files[i])
      requires forall i: nat, j: nat :: i in files && j in files && i != j ==> files[i] != files[j]
      ensures Shape() && Table() == t - {id}
    {
    }
  }
}
