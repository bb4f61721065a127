// The FAT32 driver (fs/fat.c) over the sector cache: the allocation table and the clusters are changed in
// place.  Disk commands succeed; what a failing command does to the cache is in Disk.dfy.
module Fat {
  import opened Words
  import opened Disk
  import opened FatTable
  import opened FatFiles

  // ----- four bytes of a table entry -----

  function Bytes32(w: nat): (s: seq<Byte>)
    ensures |s| == 4
  {
    [w % 256, w / 256 % 256, w / 0x1_0000 % 256, w / 0x100_0000 % 256]
  }

  lemma Bytes32Value(w: nat)
    requires w < 0x1_0000_0000
    ensures Value32(Bytes32(w), 0) == w
  {
    var a, b, c := w / 256, w / 0x1_0000, w / 0x100_0000;
    assert w == 256 * a + w % 256;
    assert a == 256 * b + a % 256;
    assert b == 256 * c + b % 256;
  }

  lemma ValueBound(d: seq<Byte>, at: nat)
    requires at + 4 <= |d|
    ensures Value32(d, at) < 0x1_0000_0000
  {
  }

  /** Patching four bytes of a sector and writing it back patches four bytes of the disk. */
  lemma PatchSector(d: seq<Byte>, s: nat, ent: nat, x: seq<Byte>)
    requires SECTOR * (s + 1) <= |d| && ent + |x| <= SECTOR
    ensures Splice(d, SECTOR * s, Splice(SectorOf(d, s), ent, x)) == Splice(d, SECTOR * s + ent, x)
    ensures ent + 4 <= SECTOR ==> Value32(SectorOf(d, s), ent) == Value32(d, SECTOR * s + ent)
  {
    var t := Splice(SectorOf(d, s), ent, x);
    var a, b := Splice(d, SECTOR * s, t), Splice(d, SECTOR * s + ent, x);
    forall k | 0 <= k < |d| ensures a[k] == b[k] {
    }
  }

  /** The sector and offset write_fat_ptr computes. */
  lemma EntrySector(g: Geometry, size: nat, copy: nat, c: nat)
    requires GeometryOk(g, size) && copy < g.copies && c < Clusters(g)
    ensures var s := g.fatStart + copy * g.fatSize + c * 4 / SECTOR;
      && s < SECTORS && SECTOR * (s + 1) <= size && SECTOR * s + c * 4 % SECTOR == EntryAt(g, copy, c)
      && c * 4 % SECTOR + 4 <= SECTOR
    ensures EntryAt(g, copy, c) + 4 <= size
  {
    EntryInside(g, size, copy, c);
    EntryPlace(g, copy, c);
    assert size <= SECTOR * SECTORS && size >= SECTOR * g.dataStart;
    hide GeometryOk, EntryAt;
    assert g.fatStart + (copy + 1) * g.fatSize <= g.dataStart;
    assert c * 4 / SECTOR < g.fatSize && (copy + 1) * g.fatSize == copy * g.fatSize + g.fatSize;
  }

  lemma MergedFits(old_value: nat, value: nat)
    requires old_value < 0x1_0000_0000 && value < MASK
    ensures Merge32(old_value, value) < 0x1_0000_0000 && Merge32(old_value, value) % MASK == value
  {
  }

  lemma EntryPlace(g: Geometry, copy: nat, c: nat)
    ensures EntryAt(g, copy, c) == SECTOR * (g.fatStart + copy * g.fatSize + c * 4 / SECTOR) + c * 4 % SECTOR
    ensures c * 4 % SECTOR + 4 <= SECTOR
  {
    var q, r := c * 4 / SECTOR, c * 4 % SECTOR;
    assert c * 4 == SECTOR * q + r && r == 4 * (c - 128 * q);
  }

  /** The first n table copies have the new entry of cluster c. */
  ghost predicate CopiesSet(g: Geometry, d: seq<Byte>, d': seq<Byte>, c: nat, value: nat, n: nat) {
    && |d'| == |d|
    && (forall copy :: 0 <= copy < n && EntryAt(g, copy, c) + 4 <= |d| ==>
         Value32(d', EntryAt(g, copy, c)) == Merge32(Value32(d, EntryAt(g, copy, c)), value))
    && (forall k :: 0 <= k < |d| && !InFirst(g, c, k, n) ==> d'[k] == d[k])
  }

  ghost predicate InFirst(g: Geometry, c: nat, k: nat, n: nat) {
    exists copy :: 0 <= copy < n && EntryAt(g, copy, c) <= k < EntryAt(g, copy, c) + 4
  }

  lemma NextEntry(g: Geometry, d0: seq<Byte>, d: seq<Byte>, d': seq<Byte>, c: nat, value: nat, n: nat)
    requires CopiesSet(g, d0, d, c, value, n) && EntryAt(g, n, c) + 4 <= |d| && value < MASK
    requires forall copy :: 0 <= copy < n ==> EntryAt(g, copy, c) + 4 <= EntryAt(g, n, c)
    requires d' == Splice(d, EntryAt(g, n, c), Bytes32(Merge32(Value32(d, EntryAt(g, n, c)), value)))
    ensures Value32(d', EntryAt(g, n, c)) == Merge32(Value32(d0, EntryAt(g, n, c)), value)
  {
    var at := EntryAt(g, n, c);
    ValueBound(d, at);
    hide EntryAt, Value32;
    forall k | at <= k < at + 4 ensures !InFirst(g, c, k, n) {}
    SameValue32(d0, d, at);
    SpliceValue(d, at, Bytes32(Merge32(Value32(d, at), value)));
    Bytes32Value(Merge32(Value32(d, at), value));
  }

  lemma EarlierEntry(g: Geometry, d: seq<Byte>, d': seq<Byte>, c: nat, x: seq<Byte>, n: nat, copy: nat)
    requires copy < n && EntryAt(g, copy, c) + 4 <= EntryAt(g, n, c) && EntryAt(g, n, c) + 4 <= |d| && |x| == 4
    requires d' == Splice(d, EntryAt(g, n, c), x)
    ensures Value32(d', EntryAt(g, copy, c)) == Value32(d, EntryAt(g, copy, c))
  {
    hide EntryAt, Value32;
    SameValue32(d, d', EntryAt(g, copy, c));
  }

  lemma NextRest(g: Geometry, d0: seq<Byte>, d: seq<Byte>, d': seq<Byte>, c: nat, value: nat, x: seq<Byte>, n: nat,
          k: nat)
    requires CopiesSet(g, d0, d, c, value, n) && EntryAt(g, n, c) + 4 <= |d| && |x| == 4
    requires d' == Splice(d, EntryAt(g, n, c), x) && k < |d| && !InFirst(g, c, k, n + 1)
    ensures d'[k] == d0[k]
  {
    hide EntryAt, Value32;
    assert !InFirst(g, c, k, n) && !(EntryAt(g, n, c) <= k < EntryAt(g, n, c) + 4);
  }

  lemma NextCopy(g: Geometry, size: nat, d0: seq<Byte>, d: seq<Byte>, d': seq<Byte>, c: nat, value: nat, n: nat)
    requires GeometryOk(g, size) && |d0| == size && c < Clusters(g) && n < g.copies && value < MASK
    requires CopiesSet(g, d0, d, c, value, n) && EntryAt(g, n, c) + 4 <= |d|
    requires d' == Splice(d, EntryAt(g, n, c), Bytes32(Merge32(Value32(d, EntryAt(g, n, c)), value)))
    ensures CopiesSet(g, d0, d', c, value, n + 1)
  {
    forall copy | 0 <= copy < n ensures EntryAt(g, copy, c) + 4 <= EntryAt(g, n,
        c) { CopyApart(g, size, copy, n, c, c); }
    hide *;
    SameLength(g, d0, d, c, value, n);
    NextEntry(g, d0, d, d', c, value, n);
    forall copy | 0 <= copy < n ensures Value32(d', EntryAt(g, copy, c)) == Value32(d, EntryAt(g, copy, c)) {
      EarlierEntry(g, d, d', c, Bytes32(Merge32(Value32(d, EntryAt(g, n, c)), value)), n, copy);
    }
    forall k | 0 <= k < |d| && !InFirst(g, c, k, n + 1) ensures d'[k] == d0[k] {
      NextRest(g, d0, d, d', c, value, Bytes32(Merge32(Value32(d, EntryAt(g, n, c)), value)), n, k);
    }
    CopiesUpTo(g, d0, d, d', c, value, n);
  }

  lemma SameLength(g: Geometry, d0: seq<Byte>, d: seq<Byte>, c: nat, value: nat, n: nat)
    requires CopiesSet(g, d0, d, c, value, n)
    ensures |d| == |d0|
  {
  }

  lemma CopiesUpTo(g: Geometry, d0: seq<Byte>, d: seq<Byte>, d': seq<Byte>, c: nat, value: nat, n: nat)
    requires CopiesSet(g, d0, d, c, value, n) && |d'| == |d| && EntryAt(g, n, c) + 4 <= |d|
    requires forall copy :: 0 <= copy < n ==> EntryAt(g, copy, c) + 4 <= EntryAt(g, n, c)
    requires Value32(d', EntryAt(g, n, c)) == Merge32(Value32(d0, EntryAt(g, n, c)), value)
    requires forall copy :: 0 <= copy < n ==> Value32(d', EntryAt(g, copy, c)) == Value32(d, EntryAt(g, copy, c))
    requires forall k :: 0 <= k < |d| && !InFirst(g, c, k, n + 1) ==> d'[k] == d0[k]
    ensures CopiesSet(g, d0, d', c, value, n + 1)
  {
    hide EntryAt, Value32, InFirst, Merge32;
  }

  lemma SpliceValue(d: seq<Byte>, at: nat, x: seq<Byte>)
    requires at + 4 <= |d| && |x| == 4
    ensures Value32(Splice(d, at, x), at) == Value32(x, 0)
  {
  }

  /** What the first copy says of cluster c. */
  function FirstCopy(g: Geometry, d: seq<Byte>, c: nat): nat {
    if EntryAt(g, 0, c) + 4 <= |d| then Value32(d, EntryAt(g, 0, c)) % MASK else 0
  }

  ghost predicate CopiesAgree(g: Geometry, d: seq<Byte>) {
    forall copy, c :: 0 <= copy < g.copies && 0 <= c < Clusters(g) && EntryAt(g, copy, c) + 4 <= |d| ==>
      Value32(d, EntryAt(g, copy, c)) % MASK == FirstCopy(g, d, c)
  }

  lemma SliceValue(d: seq<Byte>, start: nat, table: seq<Byte>, at: nat)
    requires at + 4 <= |table| && start + |table| <= |d| && table == d[start..start + |table|]
    ensures Value32(table, at) == Value32(d, start + at)
  {
  }

  lemma TableInside(g: Geometry, size: nat)
    requires GeometryOk(g, size)
    ensures g.fatStart + g.fatSize < SECTORS && SECTOR * (g.fatStart + g.fatSize) <= size
  {
    EntryInside(g, size, 0, 0);
    MulMono(1, g.copies, g.fatSize);
    ClusterInside(g, size, 2);
  }

  /** Entry i of the table as it was read. */
  lemma MountedEntry(g: Geometry, d: seq<Byte>, table: seq<Byte>, i: nat)
    requires SECTOR * (g.fatStart + g.fatSize) <= |d|
    requires table == d[SECTOR * g.fatStart..SECTOR * (g.fatStart + g.fatSize)] && i < Clusters(g)
    ensures 4 * i + 4 <= |table| && Value32(table, 4 * i) % MASK == FirstCopy(g, d, i)
  {
    assert EntryAt(g, 0, i) == SECTOR * g.fatStart + 4 * i;
    SliceValue(d, SECTOR * g.fatStart, table, 4 * i);
  }

  lemma MountMirrors(g: Geometry, v: Volume)
    requires GeometryOk(g, |v.disk|) && |v.fat| == Clusters(g)
    requires forall c :: 0 <= c < Clusters(g) ==> v.fat[c] == FirstCopy(g, v.disk, c)
    ensures Mirrored(g, v) <==> CopiesAgree(g, v.disk)
  {
    forall copy, c | 0 <= copy < g.copies && 0 <= c < Clusters(g) ensures EntryAt(g, copy, c) + 4 <= |v.disk| {
      EntryInside(g, |v.disk|, copy, c);
    }
    hide EntryAt, Value32, GeometryOk, FirstCopy;
  }

  lemma SliceMore(d: seq<Byte>, a: nat, b: nat, c: nat)
    requires a <= b <= c <= |d|
    ensures d[a..b] + d[b..c] == d[a..c]
  {
  }

  lemma SpliceMore(d: seq<Byte>, at: nat, x: seq<Byte>, n: nat, m: nat)
    requires n <= m <= |x| && at + |x| <= |d|
    ensures Splice(Splice(d, at, x[..n]), at + n, x[n..m]) == Splice(d, at, x[..m])
  {
    var a, b := Splice(Splice(d, at, x[..n]), at + n, x[n..m]), Splice(d, at, x[..m]);
    forall k | 0 <= k < |d| ensures a[k] == b[k] {
    }
  }

  /** clust2sec, for a cluster of the volume. */
  lemma ClusterSectors(g: Geometry, size: nat, c: nat)
    requires GeometryOk(g, size) && 2 <= c < g.end
    ensures var s := g.dataStart + (c - 2) * g.spc;
      s >= 0 && s + g.spc <= SECTORS && SECTOR * (s + g.spc) <= size && SECTOR * s == Base(g,
          c) && SECTOR * (s + g.spc) == Base(g, c) + ClusterSize(g)
  {
    ClusterInside(g, size, c);
  }

  lemma MirrorSizes(g: Geometry, v: Volume)
    requires Mirrored(g, v)
    ensures GeometryOk(g, |v.disk|) && |v.fat| == Clusters(g) <= EOC && ClusterSize(g) > 0
  {
  }

  lemma LinkValue(g: Geometry, v: Volume, v1: Volume, ch: seq<nat>, c: nat)
    requires ch != [] && |v.fat| == Clusters(g) <= EOC && ch[|ch| - 1] < Clusters(g) && c < |v.fat|
    requires v1.fat == v.fat[c := EOC]
    ensures MASK > 0 && c % MASK == c && c < 0x1_0000_0000 && v1.fat[ch[|ch| - 1] := c] == Extend(v.fat, ch, c)
  {
  }

  lemma ZeroedCluster(g: Geometry, v: Volume, c: nat, v1: Volume)
    requires GeometryOk(g, |v.disk|) && 2 <= c < g.end <= |v.fat| && Base(g, c) + ClusterSize(g) <= |v.disk|
    requires v1 == Volume(Splice(v.disk, Base(g, c), Zeros(ClusterSize(g))), v.fat)
    ensures forall k :: 0 <= k < ClusterSize(g) ==> ByteIn(g, v1.disk, c, k) == 0
    ensures forall e :: 2 <= e < |v.fat| && e != c ==> ClusterSame(g, v.disk, v1.disk, e)
  {
    forall k | 0 <= k < ClusterSize(g) ensures ByteIn(g, v1.disk, c, k) == 0 {
      ByteAfterWrite(g, v.disk, c, Zeros(ClusterSize(g)), c, k);
    }
    forall e | 2 <= e < |v.fat| && e != c ensures ClusterSame(g, v.disk, v1.disk, e) {
      OtherClusterSame(g, v.disk, c, Zeros(ClusterSize(g)), e);
    }
  }

  lemma SetFacts(g: Geometry, v: Volume, v': Volume, c: nat, value: nat)
    requires Mirrored(g, v) && EntrySet(g, v, v', c, value) && DataKept(g, v.disk, v'.disk)
    ensures c < |v.fat| && v'.fat == v.fat[c := value] && |v'.disk| == |v.disk|
    ensures forall e :: 2 <= e < |v.fat| ==> ClusterSame(g, v.disk, v'.disk, e)
  {
    forall e | 2 <= e < |v.fat| ensures ClusterSame(g, v.disk, v'.disk, e) {
      forall k | 0 <= k < ClusterSize(g) ensures ByteIn(g, v'.disk, e, k) == ByteIn(g, v.disk, e, k) {
        ClusterKept(g, v.disk, v'.disk, e, k);
      }
    }
  }

  lemma KeptClusters(g: Geometry, v: Volume, v1: Volume, v2: Volume, c: nat)
    requires |v1.fat| == |v.fat| == |v2.fat| && 2 <= c < |v.fat|
    requires forall k :: 0 <= k < ClusterSize(g) ==> ByteIn(g, v1.disk, c, k) == 0
    requires forall e :: 2 <= e < |v.fat| && e != c ==> ClusterSame(g, v.disk, v1.disk, e)
    requires forall e :: 2 <= e < |v1.fat| ==> ClusterSame(g, v1.disk, v2.disk, e)
    ensures forall k :: 0 <= k < ClusterSize(g) ==> ByteIn(g, v2.disk, c, k) == 0
    ensures forall e :: 2 <= e < |v2.fat| && e != c ==> ClusterSame(g, v.disk, v2.disk, e)
  {
    hide ByteIn, ClusterSize;
    assert ClusterSame(g, v1.disk, v2.disk, c);
    forall e | 2 <= e < |v2.fat| && e != c ensures ClusterSame(g, v.disk, v2.disk, e) {
      assert ClusterSame(g, v.disk, v1.disk, e) && ClusterSame(g, v1.disk, v2.disk, e);
    }
  }

  /** The next cluster of the chain being written, or its end. */
  lemma NextInChain(g: Geometry, v0: Volume, ch0: seq<nat>, v: Volume, ch: seq<nat>, i: nat)
    requires Grown(g, v0, ch0, v, ch) && i < |ch|
    ensures ch[i] < |v.fat|
    ensures if i < |ch| - 1 then v.fat[ch[i]] == ch[i + 1] < EOC else v.fat[ch[i]] >= EOC
  {
    hide OthersKept, FreeClusters;
    MirrorSizes(g, v);
    if i < |ch| - 1 { assert v.fat[ch[i]] == ch[i + 1]; }
  }

  lemma FirstOf(g: Geometry, v0: Volume, ch0: seq<nat>, v: Volume, ch: seq<nat>)
    requires Grown(g, v0, ch0, v, ch)
    ensures First(ch) == 0 <==> ch == []
  {
    ChainFacts(g, v0, ch0, v, ch);
  }

  lemma StillRoom(g: Geometry, v0: Volume, ch0: seq<nat>, v: Volume, old_: seq<Byte>, pos: nat, data: seq<Byte>, w: nat)
    requires Writing(g, v0, ch0, v, [], old_, pos, data, w) && w < |data|
    requires |FreeClusters(g, v0.fat)| + |ch0| > Quot(pos + |data| - 1, ClusterSize(g))
    ensures |FreeClusters(g, v.fat)| > 0
  {
    RoomLeft(g, v0, ch0, v, [], pos, |data|, w);
  }

  /** memzero8 over the part of the gap that lies in this cluster. */
  lemma ZeroedRange(buffer: seq<Byte>, zeroed: seq<Byte>, size: nat, pos: nat, start: nat, cs: nat, zero_start: nat,
          zero_end: nat)
    requires |buffer| == cs && zero_start == (if size > start then size else start)
    requires zero_end == (if pos < start + cs then pos else start + cs)
    requires if zero_start < zero_end then zeroed == Splice(buffer, zero_start - start,
        Zeros(zero_end - zero_start)) else zeroed == buffer
    ensures |zeroed| == cs && forall k :: 0 <= k < cs ==> zeroed[k] == if size <= start + k < pos then 0 else buffer[k]
  {
  }

  const WRAP: nat := 0x1_0000_0000_0000_0000

  function Larger(a: nat, b: nat): nat { if b > a then b else a }

  lemma LargerIs(a: nat, b: nat)
    ensures Larger(a, b) == if b > a then b else a
  {
  }

  /** The directory cluster belongs to the volume, is in use, and is not part of the file. */
  ghost predicate DirectoryOk(g: Geometry, v: Volume, ch: seq<nat>, dc: nat, off: nat) {
    2 <= dc < g.end && off + ENTRY <= ClusterSize(g) && dc !in ch && dc < |v.fat| && v.fat[dc] != 0
  }

  /** The entry's fields after the three stores into the directory buffer. */
  lemma EntryBytes(before: seq<Byte>, after: seq<Byte>, off: nat, first: nat, size: nat)
    requires off + ENTRY <= |before| && first < MASK
    requires after == Splice(Splice(Splice(before, off + 26, [first % 256, first / 256 % 256]), off + 20,
        [first / 0x1_0000 % 256, first / 0x100_0000 % 16]),
                             off + 28, Bytes32(size % ENTRY_SIZES))
    ensures |after| == |before| && Join(after[off + 26], after[off + 27], after[off + 20], after[off + 21]) == first
    ensures Join(after[off + 28], after[off + 29], after[off + 30], after[off + 31]) == size % ENTRY_SIZES
    ensures forall k :: 0 <= k < |before| && !EntryField(off, k) ==> after[k] == before[k]
  {
    FirstJoins(first);
    SizeJoins(size);
    hide Join, Bytes32;
  }

  lemma FirstJoins(first: nat)
    requires first < MASK
    ensures Join(first % 256, first / 256 % 256, first / 0x1_0000 % 256, first / 0x100_0000 % 16) == first
  {
    var a, b, c := first / 256, first / 0x1_0000, first / 0x100_0000;
    assert first == 256 * a + first % 256;
    assert a == 256 * b + a % 256;
    assert b == 256 * c + b % 256;
  }

  lemma SizeJoins(size: nat)
    ensures var s := Bytes32(size % ENTRY_SIZES); Join(s[0], s[1], s[2], s[3]) == size % ENTRY_SIZES
  {
    Bytes32Value(size % ENTRY_SIZES);
  }

  lemma NothingWritten(g: Geometry, v: Volume, ch: seq<nat>, dc: nat, size: nat)
    requires FileOk(g, v, ch, size)
    ensures OthersKept(g, v, v, ch + [dc]) && ClusterSize(g) > 0
  {
    hide ByteIn;
  }

  lemma GrownFacts(g: Geometry, v0: Volume, ch0: seq<nat>, v: Volume, ch: seq<nat>, dc: nat)
    requires Grown(g, v0, ch0, v, ch)
    ensures OthersKept(g, v0, v, ch) && OthersKept(g, v0, v, ch + [dc]) && ch0 <= ch
    ensures forall i :: |ch0| <= i < |ch| ==> ch[i] < |v0.fat| && v0.fat[ch[i]] == 0
  {
    OthersKeptMore(g, v0, v, ch, dc);
  }

  lemma DirectoryStays(g: Geometry, v0: Volume, v: Volume, ch0: seq<nat>, ch: seq<nat>, dc: nat, off: nat)
    requires DirectoryOk(g, v0, ch0, dc, off) && Grown(g, v0, ch0, v, ch)
    ensures 2 <= dc < g.end && off + ENTRY <= ClusterSize(g) && dc !in ch
  {
    NotTaken(g, v0, ch0, v, ch, dc);
  }

  lemma FirstFits(g: Geometry, v: Volume, ch: seq<nat>, size: nat)
    requires FileOk(g, v, ch, size)
    ensures First(ch) < MASK
  {
    hide ByteAt;
  }

  function Least(a: nat, b: nat): nat { if a < b then a else b }

  lemma FileSizes(g: Geometry, v: Volume, ch: seq<nat>, size: nat)
    requires FileOk(g, v, ch, size)
    ensures Mirrored(g, v) && IsChain(v.fat, ch) && size <= |ch| * ClusterSize(g)
    ensures 0 < ClusterSize(g) == g.spc * SECTOR
    ensures |v.fat| == Clusters(g) && 0 < g.spc <= MAX_COMMAND && forall i :: 0 <= i < |ch| ==> 2 <= ch[i] < |v.fat|
  {
  }

  /** The read loop has `data` of the file's bytes from pos on, and stands at the byte after them. */
  ghost predicate Reading(g: Geometry, v: Volume, ch: seq<nat>, size: nat, pos: nat, total: nat, data: seq<Byte>,
          remaining: nat, i: nat, cluster: nat, off: nat) {
    && |data| + remaining == total && pos + total <= size && data == Content(g, v.disk, ch, size)[pos..pos + |data|]
    && (remaining > 0 ==> i < |ch| && cluster == ch[i] && off < ClusterSize(g) && Offset(i, ClusterSize(g)) + off == pos + |data|)
  }

  lemma LeastIs(a: nat, b: nat)
    ensures Least(a, b) == if b < a then b else a
  {
  }

  lemma NothingRead(content: seq<Byte>, pos: nat, size: nat, count: nat)
    requires |content| == size && (count == 0 || pos >= size)
    ensures pos < size ==> pos + Least(count, size - pos) <= size && content[pos..pos + Least(count, size - pos)] == []
  {
  }

  lemma ReadStart(g: Geometry, v: Volume, ch: seq<nat>, size: nat, pos: nat, remaining: nat)
    requires FileOk(g, v, ch, size) && pos + remaining <= size && 0 < remaining
    ensures Quot(pos, ClusterSize(g)) < |ch|
    ensures Reading(g, v, ch, size, pos, remaining, [], remaining, Quot(pos, ClusterSize(g)),
        ch[Quot(pos, ClusterSize(g))], Rem(pos, ClusterSize(g)))
  {
    FileSizes(g, v, ch, size);
    hide FileOk, Mirrored, ClusterSize, IsChain, Quot, Rem, Offset;
    Within(pos, |ch|, ClusterSize(g));
    QuotRem(pos, ClusterSize(g));
  }

  lemma ReadReady(g: Geometry, v: Volume, ch: seq<nat>, size: nat, pos: nat, total: nat, data: seq<Byte>,
          remaining: nat, i: nat, cluster: nat, off: nat)
    requires FileOk(g, v, ch, size) && Reading(g, v, ch, size, pos, total, data, remaining, i, cluster, off)
    requires remaining > 0
    ensures i < |ch| && cluster == ch[i] && off < ClusterSize(g) && 2 <= cluster < |v.fat|
    ensures 0 <= Offset(i, ClusterSize(g))
    ensures Offset(i, ClusterSize(g)) + off == pos + |data| && Offset(i, ClusterSize(g)) + off + remaining <= size
  {
    InVolume(g, v, ch, size, i);
    hide FileOk, Content, Offset, ClusterSize;
  }

  lemma ReadOn(g: Geometry, v: Volume, ch: seq<nat>, size: nat, pos: nat, total: nat, data: seq<Byte>, remaining: nat,
          i: nat, cluster: nat, off: nat,
               more: seq<Byte>, i': nat, next: nat)
    requires FileOk(g, v, ch, size) && Reading(g, v, ch, size, pos, total, data, remaining, i, cluster, off)
    requires 0 < |more| <= remaining
    requires pos + |data| + |more| <= size && more == Content(g, v.disk, ch, size)[pos + |data|..pos + |data| + |more|]
    requires |more| < remaining ==> Offset(i', ClusterSize(g)) == pos + |data| + |more| && i' < |ch| && next == ch[i']
    ensures Reading(g, v, ch, size, pos, total, data + more, remaining - |more|, i', next, 0)
  {
    FileSizes(g, v, ch, size);
    hide FileOk, Content, Offset, ClusterSize, Mirrored, IsChain;
    SliceMore(Content(g, v.disk, ch, size), pos, pos + |data|, pos + |data| + |more|);
  }

  /** The loop cannot stop early: a file in order has the clusters its size calls for. */
  lemma ReadDone(g: Geometry, v: Volume, ch: seq<nat>, size: nat, pos: nat, total: nat, data: seq<Byte>,
          remaining: nat, i: nat, cluster: nat, off: nat)
    requires FileOk(g, v, ch, size) && Reading(g, v, ch, size, pos, total, data, remaining, i, cluster, off)
    requires remaining == 0 || cluster < 2 || cluster >= |v.fat|
    ensures data == Content(g, v.disk, ch, size)[pos..pos + total]
  {
    hide Content, Offset, ClusterSize;
    FileSizes(g, v, ch, size);
  }

  lemma InVolume(g: Geometry, v: Volume, ch: seq<nat>, size: nat, i: nat)
    requires FileOk(g, v, ch, size) && i < |ch|
    ensures 2 <= ch[i] < |v.fat| && 0 <= Offset(i, ClusterSize(g))
  {
  }

  /** Where the read goes on: after n clusters, while bytes remain. */
  lemma NextCluster(g: Geometry, v: Volume, ch: seq<nat>, size: nat, i: nat, n: nat, off: nat, bytes: nat,
          remaining: nat)
    requires FileOk(g, v, ch, size) && i + n <= |ch| && n > 0 && bytes <= remaining
    requires Offset(i, ClusterSize(g)) + off + remaining <= size
    requires bytes < remaining ==> off + bytes == n * ClusterSize(g)
    ensures bytes < remaining ==> Offset(i + n, ClusterSize(g)) == Offset(i, ClusterSize(g)) + off + bytes && i + n < |ch| && v.fat[ch[i + n - 1]] == ch[i + n]
  {
    FileSizes(g, v, ch, size);
    hide FileOk, Mirrored, GeometryOk, ClusterSize, ByteAt;
    SumOfProducts(i, n, ClusterSize(g));
    if bytes < remaining { MulLess(i + n, |ch|, ClusterSize(g)); }
  }

  /** At least one whole cluster fits into a command and into what remains. */
  lemma RunFits(spc: nat, remaining: nat, cs: nat)
    requires 0 < spc <= MAX_COMMAND && 0 < cs <= remaining
    ensures MAX_COMMAND / spc >= 1 && Quot(remaining, cs) >= 1
  {
    QuotRem(remaining, cs);
  }

  /** The coalesced command covers between 1 and 255 sectors, all on the disk and all of the file. */
  lemma CommandFits(g: Geometry, v: Volume, ch: seq<nat>, size: nat, i: nat, run: nat, most: nat, remaining: nat)
    requires FileOk(g, v, ch, size) && Adjacent(ch, i, run) && 1 <= run <= most && i < |ch|
    requires most <= MAX_COMMAND / g.spc && most <= Quot(remaining, ClusterSize(g))
    requires 0 <= Offset(i, ClusterSize(g)) && Offset(i, ClusterSize(g)) + remaining <= size
    ensures var s := g.dataStart + (ch[i] - 2) * g.spc;
      && 0 <= s < SECTORS && 0 < run * g.spc <= MAX_COMMAND && SECTOR * (s + run * g.spc) <= |v.disk|
      && SECTOR * s == Base(g, ch[i]) && SECTOR * (s + run * g.spc) == Base(g, ch[i]) + run * ClusterSize(g)
    ensures i + run <= |ch| && run * ClusterSize(g) <= remaining && 0 < run * ClusterSize(g)
    ensures Base(g, ch[i]) + run * ClusterSize(g) <= |v.disk|
  {
    FileSizes(g, v, ch, size);
    ClusterSectors(g, |v.disk|, ch[i]);
    RunLength(ch, i, run);
    RunInside(g, v, ch, i, run);
    hide FileOk, Mirrored, GeometryOk, ByteAt, IsChain, Adjacent;
    Sectors(run, g.spc);
    MulMono(run, MAX_COMMAND / g.spc, g.spc);
    QuotRem(remaining, ClusterSize(g));
    MulMono(run, Quot(remaining, ClusterSize(g)), ClusterSize(g));
    MulMono(1, run, ClusterSize(g));
    MulMono(1, run, g.spc);
  }

  lemma Sectors(run: nat, spc: nat)
    ensures run * (spc * SECTOR) == SECTOR * (run * spc)
    ensures spc > 0 ==> MAX_COMMAND / spc * spc <= MAX_COMMAND
  {
  }

  lemma FreeingStart(fat: seq<nat>, ch: seq<nat>)
    ensures Freeing(fat, fat, ch, 0, First(ch))
  {
  }

  lemma AlreadyFree(fat: seq<nat>, c: nat)
    requires c < |fat| && fat[c] == 0
    ensures fat[c := 0] == fat
  {
  }

  lemma FreeingEnd(g: Geometry, v: Volume, v': Volume, ch: seq<nat>, i: nat, cluster: nat)
    requires Freeing(v.fat, v'.fat, ch, i, cluster) && IsChain(v.fat, ch) && |v.fat| <= EOC
    requires (cluster < 2 || cluster >= |v.fat| || cluster >= EOC)
    ensures IsFreed(v.fat, v'.fat, ch)
  {
    assert ch[..|ch|] == ch;
  }

  lemma DirectoryPlace(g: Geometry, v: Volume, ch: seq<nat>, dc: nat, off: nat)
    requires DirectoryOk(g, v, ch, dc, off)
    ensures 2 <= dc < g.end && off + ENTRY <= ClusterSize(g) && dc !in ch && 0 < MASK && dc < |v.fat|
  {
  }

  lemma EmptyFile(g: Geometry, v: Volume, v': Volume, dc: nat)
    requires OnlyCluster(g, v, v', dc)
    ensures FileOk(g, v', [], 0) && v'.fat == v.fat && First([]) == 0
    ensures ENTRY_SIZES > 0 && 0 % ENTRY_SIZES == 0
  {
    hide GeometryOk;
  }

  /** The bytes of a cluster. */
  function ClusterOf(g: Geometry, d: seq<Byte>, c: nat): (s: seq<Byte>) { ClusterBytes(g, d, c, ClusterSize(g)) }

  function ClusterBytes(g: Geometry, d: seq<Byte>, c: nat, n: nat): (s: seq<Byte>)
    ensures |s| == n && forall k :: 0 <= k < n ==> s[k] == ByteIn(g, d, c, k)
  {
    if n == 0 then [] else ClusterBytes(g, d, c, n - 1) + [ByteIn(g, d, c, n - 1)]
  }

  lemma ClusterIs(g: Geometry, d: seq<Byte>, c: nat, s: seq<Byte>)
    requires |s| == ClusterSize(g) && forall k :: 0 <= k < ClusterSize(g) ==> s[k] == ByteIn(g, d, c, k)
    ensures s == ClusterOf(g, d, c)
  {
  }

  lemma UnusedIs()
    ensures UNUSED == 0xe5
  {
  }

  lemma OnlyFat(g: Geometry, v: Volume, v': Volume, dc: nat)
    requires OnlyCluster(g, v, v', dc)
    ensures v'.fat == v.fat && Mirrored(g, v')
  {
  }

  lemma RemovedKept(g: Geometry, v: Volume, v1: Volume, v2: Volume, ch: seq<nat>, dc: nat, marked: seq<Byte>)
    requires OnlyCluster(g, v, v1, dc) && OthersKept(g, v1, v2, ch) && dc !in ch && 2 <= dc < |v1.fat|
    requires |marked| == ClusterSize(g)
    requires forall k :: 0 <= k < ClusterSize(g) ==> ByteIn(g, v1.disk, dc, k) == marked[k]
    ensures OthersKept(g, v, v2, ch + [dc]) && ClusterOf(g, v2.disk, dc) == marked
  {
    hide Mirrored, ByteIn, ClusterSize;
    assert ClusterSame(g, v1.disk, v2.disk, dc);
    forall c | 0 <= c < |v.fat| && c !in ch + [dc] ensures v2.fat[c] == v.fat[c] && (c >= 2 ==> ClusterSame(g, v.disk,
        v2.disk, c)) {
      assert c !in ch && c !in [dc];
      if c >= 2 { assert ClusterSame(g, v.disk, v1.disk, c) && ClusterSame(g, v1.disk, v2.disk, c); }
    }
  }

  lemma EntryIsOnly(g: Geometry, v: Volume, v': Volume, dc: nat, off: nat, before: seq<Byte>, after: seq<Byte>)
    requires Mirrored(g, v) && OnlyCluster(g, v, v', dc) && dc < g.end && |before| == |after| == ClusterSize(g)
    requires forall k :: 0 <= k < ClusterSize(g) ==> before[k] == ByteIn(g, v.disk, dc, k)
    requires forall k :: 0 <= k < ClusterSize(g) ==> ByteIn(g, v'.disk, dc, k) == after[k]
    requires forall k :: 0 <= k < |before| && !EntryField(off, k) ==> after[k] == before[k]
    ensures EntryOnly(g, v, v', dc, off)
  {
    hide OthersKept, ByteIn, ClusterSize, EntryField, EntryAt, Value32;
  }

  /** The entry's cluster was not touched before the entry was. */
  lemma EntryKeptBefore(g: Geometry, v0: Volume, v1: Volume, v2: Volume, ch: seq<nat>, dc: nat, off: nat)
    requires OthersKept(g, v0, v1, ch) && dc !in ch && 2 <= dc < |v0.fat| && EntryOnly(g, v1, v2, dc, off)
    ensures EntryOnly(g, v0, v2, dc, off)
  {
    hide ByteIn, ClusterSize, EntryField;
    assert ClusterSame(g, v0.disk, v1.disk, dc);
  }

  lemma NothingChanged(g: Geometry, v: Volume, dc: nat, off: nat)
    ensures dc < |v.fat| ==> EntryOnly(g, v, v, dc, off)
  {
  }

  /** struct file with its inode. */
  class OpenFile {
    const isFile: bool
    const dirCluster: nat
    const dirOffset: nat
    var first: nat
    var size: nat
    var pos: nat

    constructor (isFile: bool, first: nat, size: nat, dirCluster: nat, dirOffset: nat)
      ensures this.isFile == isFile && this.first == first && this.size == size && pos == 0
      ensures this.dirCluster == dirCluster && this.dirOffset == dirOffset
    {
      this.isFile, this.first, this.size, this.dirCluster, this.dirOffset := isFile, first, size, dirCluster, dirOffset;
      pos := 0;
    }
  }

  class FatFs {
    const g: Geometry
    const ata: Ata
    const fat: array<nat>

    ghost function Vol(): Volume
      reads ata.disk, fat
    {
      Volume(ata.disk[..], fat[..])
    }

    ghost predicate Valid()
      reads ata.disk, ata.cacheSector, ata.cacheValid, ata.cacheData, fat
    {
      ata.Valid() && fat != ata.cacheSector && Mirrored(g, Vol())
    }

    /** Mounting: read_fat_to_mem takes the first table copy into memory, which is in step with the disk exactly when
        the copies agree in their low 28 bits. */
    constructor (ata: Ata, g: Geometry)
      requires ata.Valid() && GeometryOk(g, ata.disk.Length)
      modifies ata.cacheSector, ata.cacheValid, ata.cacheData
      ensures fresh(fat) && this.ata == ata && this.g == g && ata.disk[..] == old(ata.disk[..])
      ensures |Vol().fat| == Clusters(g)
      ensures forall c :: 0 <= c < Clusters(g) ==> Vol().fat[c] == FirstCopy(g, ata.disk[..], c)
      ensures Valid() <==> CopiesAgree(g, ata.disk[..])
    {
      this.ata, this.g := ata, g;
      fat := new nat[Clusters(g)](_ => 0);
      new;
      TableInside(g, ata.disk.Length);
      hide GeometryOk, Value32, FirstCopy, CopiesAgree, Mirrored;
      var table := ReadCluster(g.fatStart, g.fatSize);
      var i := 0;
      while i < fat.Length
        invariant i <= fat.Length && ata.Valid() && ata.disk[..] == old(ata.disk[..])
        invariant forall c :: 0 <= c < i ==> fat[c] == FirstCopy(g, ata.disk[..], c)
        modifies fat
      {
        MountedEntry(g, ata.disk[..], table, i);
        fat[i] := Value32(table, 4 * i) % MASK;
        i := i + 1;
      }
      MountMirrors(g, Vol());
    }

    /** read_cluster. */
    method ReadCluster(sector_start: nat, sectors_per_cluster: nat) returns (dest: seq<Byte>)
      requires ata.Valid() && sector_start + sectors_per_cluster <= SECTORS
      requires SECTOR * (sector_start + sectors_per_cluster) <= ata.disk.Length
      modifies ata.cacheSector, ata.cacheValid, ata.cacheData
      ensures ata.Valid() && dest == ata.disk[SECTOR * sector_start..SECTOR * (sector_start + sectors_per_cluster)]
    {
      dest := [];
      var start: nat, left: nat := sector_start, sectors_per_cluster;
      while left > 0
        invariant ata.Valid() && start + left == sector_start + sectors_per_cluster && sector_start <= start
        invariant dest == ata.disk[SECTOR * sector_start..SECTOR * start]
      {
        var sectors := if left > MAX_COMMAND then MAX_COMMAND else left;
        var ok, data := ata.ReadSectors(start, sectors, Success);
        SliceMore(ata.disk[..], SECTOR * sector_start, SECTOR * start, SECTOR * (start + sectors));
        dest := dest + data;
        start, left := start + sectors, left - sectors;
      }
    }

    /** write_cluster. */
    method WriteCluster(sector_start: nat, sectors_per_cluster: nat, data: seq<Byte>)
      requires ata.Valid() && sector_start + sectors_per_cluster <= SECTORS
      requires SECTOR * (sector_start + sectors_per_cluster) <= ata.disk.Length
      requires |data| == SECTOR * sectors_per_cluster
      modifies ata.disk, ata.cacheValid
      ensures ata.Valid() && ata.disk[..] == Splice(old(ata.disk[..]), SECTOR * sector_start, data)
    {
      hide Splice;
      var start: nat, left: nat, n: nat := sector_start, sectors_per_cluster, 0;
      assert data[..n] == [];
      while left > 0
        invariant ata.Valid() && start + left == sector_start + sectors_per_cluster
        invariant n == SECTOR * (start - sector_start) && sector_start <= start
        invariant ata.disk[..] == Splice(old(ata.disk[..]), SECTOR * sector_start, data[..n])
      {
        var count := if left > MAX_COMMAND then MAX_COMMAND else left;
        var ok := ata.WriteSectors(start, count, data[n..n + SECTOR * count], Success);
        SpliceMore(old(ata.disk[..]), SECTOR * sector_start, data, n, n + SECTOR * count);
        start, left, n := start + count, left - count, n + SECTOR * count;
      }
      assert data[..n] == data;
    }

    /** One copy of the table, in write_fat_ptr. */
    method WriteEntry(sector: nat, ent_offset: nat, new_value: nat) returns (merged: nat)
      requires ata.Valid() && sector < SECTORS && SECTOR * (sector + 1) <= ata.disk.Length && ent_offset + 4 <= SECTOR
      requires new_value < 0x1_0000_0000
      modifies ata.disk, ata.cacheSector, ata.cacheValid, ata.cacheData
      ensures ata.Valid()
      ensures merged == Merge32(Value32(old(ata.disk[..]), SECTOR * sector + ent_offset), new_value % MASK)
      ensures ata.disk[..] == Splice(old(ata.disk[..]), SECTOR * sector + ent_offset, Bytes32(merged))
    {
      hide Value32;
      var ok, table := ata.ReadSec(sector, Success);
      var old_value := Value32(table, ent_offset);
      merged := old_value / MASK * MASK + new_value % MASK;
      PatchSector(ata.disk[..], sector, ent_offset, Bytes32(merged));
      table := Splice(table, ent_offset, Bytes32(merged));
      ok := ata.WriteSectors(sector, 1, table, Success);
    }

    /** One turn of write_fat_ptr's loop. */
    method WriteCopy(c: nat, copy: nat, value: nat, ghost v: Volume) returns (merged: nat)
      requires ata.Valid() && GeometryOk(g, |v.disk|) && |v.disk| == ata.disk.Length && copy < g.copies
      requires c < Clusters(g) && value < 0x1_0000_0000
      requires CopiesSet(g, v.disk, ata.disk[..], c, value % MASK, copy)
      modifies ata.disk, ata.cacheSector, ata.cacheValid, ata.cacheData
      ensures ata.Valid() && merged % MASK == value % MASK && merged < 0x1_0000_0000
      ensures CopiesSet(g, v.disk, ata.disk[..], c, value % MASK, copy + 1)
    {
      ghost var d := ata.disk[..];
      EntrySector(g, |v.disk|, copy, c);
      hide GeometryOk, EntryAt, Value32, CopiesSet, Bytes32, Merge32, Splice, InFirst;
      ValueBound(d, EntryAt(g, copy, c));
      MergedFits(Value32(d, EntryAt(g, copy, c)), value % MASK);
      merged := WriteEntry(g.fatStart + copy * g.fatSize + c * 4 / SECTOR, c * 4 % SECTOR, value);
      NextCopy(g, |v.disk|, v.disk, d, ata.disk[..], c, value % MASK, copy);
    }

    /** write_fat_ptr: the entry in every copy on the disk, and in memory. */
    method WriteFatPtr(cluster_num: nat, value: nat)
      requires Valid() && cluster_num < Clusters(g) && value < 0x1_0000_0000
      modifies ata.disk, ata.cacheSector, ata.cacheValid, ata.cacheData, fat
      ensures Valid() && EntrySet(g, old(Vol()), Vol(), cluster_num, value % MASK)
      ensures DataKept(g, old(Vol()).disk, Vol().disk)
    {
      hide EntryAt, Value32, CopiesSet, Mirrored, EntrySet, DataKept;
      ghost var v := Vol();
      var copy: nat, new_value: nat := 0, value;
      NoCopies(g, v, cluster_num, value % MASK);
      while copy < g.copies
        invariant copy <= g.copies && ata.Valid() && fat[..] == v.fat && new_value % MASK == value % MASK
        invariant new_value < 0x1_0000_0000
        invariant CopiesSet(g, v.disk, ata.disk[..], cluster_num, value % MASK, copy)
      {
        new_value := WriteCopy(cluster_num, copy, new_value, v);
        copy := copy + 1;
      }
      fat[cluster_num] := new_value % MASK;
      AllCopies(g, v, Vol(), cluster_num, value % MASK);
      EntrySetKeeps(g, v, Vol(), cluster_num, value % MASK);
    }

    // ----- clusters -----

    /** Write a whole cluster. */
    method PutCluster(c: nat, data: seq<Byte>)
      requires Valid() && 2 <= c < g.end && |data| == ClusterSize(g)
      modifies ata.disk, ata.cacheValid
      ensures Valid() && Base(g, c) + |data| <= |old(Vol()).disk|
      ensures Vol() == Volume(Splice(old(Vol()).disk, Base(g, c), data), old(Vol()).fat)
    {
      ghost var v := Vol();
      ClusterSectors(g, |v.disk|, c);
      hide Mirrored, GeometryOk, Splice, Base, Clusters;
      WriteCluster(g.dataStart + (c - 2) * g.spc, g.spc, data);
      ClusterWritten(g, v, c, data, Vol());
    }

    /** Read a whole cluster. */
    method GetCluster(c: nat) returns (data: seq<Byte>)
      requires Valid() && 2 <= c < g.end
      modifies ata.cacheSector, ata.cacheValid, ata.cacheData
      ensures Valid() && Vol() == old(Vol())
      ensures |data| == ClusterSize(g) && forall k :: 0 <= k < ClusterSize(g) ==> data[k] == ByteIn(g, Vol().disk, c, k)
      ensures Base(g, c) + ClusterSize(g) <= |Vol().disk| && data == Vol().disk[Base(g, c)..Base(g, c) + ClusterSize(g)]
    {
      ghost var v := Vol();
      ClusterSectors(g, |v.disk|, c);
      hide Mirrored, GeometryOk, Clusters;
      data := ReadCluster(g.dataStart + (c - 2) * g.spc, g.spc);
    }

    /** find_free_cluster: the lowest free cluster, or 0. */
    method FindFree() returns (c: nat)
      requires Valid()
      ensures c == 0 ==> forall e :: 2 <= e < Clusters(g) ==> Vol().fat[e] != 0
      ensures c != 0 ==> 2 <= c < Clusters(g) && Vol().fat[c] == 0 && forall e :: 2 <= e < c ==> Vol().fat[e] != 0
      ensures |FreeClusters(g, Vol().fat)| > 0 ==> 2 <= c < g.end
    {
      MirrorSizes(g, Vol());
      hide Mirrored;
      c := 2;
      while c < fat.Length
        invariant 2 <= c && forall e :: 2 <= e < c && e < fat.Length ==> fat[e] != 0
      {
        if fat[c] == 0 { break; }
        c := c + 1;
      }
      if c >= fat.Length { c := 0; }
      if |FreeClusters(g, Vol().fat)| > 0 { LowestFree(g, Vol().fat, c); }
    }

    /** A free cluster, zeroed and marked as the end of a chain. */
    method NewCluster() returns (c: nat)
      requires Valid() && |FreeClusters(g, Vol().fat)| > 0
      modifies ata.disk, ata.cacheSector, ata.cacheValid, ata.cacheData, fat
      ensures Valid() && 2 <= c < |old(Vol()).fat| && c < g.end && old(Vol()).fat[c] == 0
      ensures Vol().fat == old(Vol()).fat[c := EOC] && |Vol().disk| == |old(Vol()).disk|
      ensures forall k :: 0 <= k < ClusterSize(g) ==> ByteIn(g, Vol().disk, c, k) == 0
      ensures forall e :: 2 <= e < |Vol().fat| && e != c ==> ClusterSame(g, old(Vol()).disk, Vol().disk, e)
    {
      ghost var v := Vol();
      MirrorSizes(g, v);
      hide Mirrored, GeometryOk, EntrySet, DataKept, ByteIn, Splice, Base, ClusterSize;
      c := FindFree();
      PutCluster(c, Zeros(ClusterSize(g)));
      ghost var v1 := Vol();
      ZeroedCluster(g, v, c, v1);
      WriteFatPtr(c, EOC);
      SetFacts(g, v1, Vol(), c, EOC % MASK);
      KeptClusters(g, v, v1, Vol(), c);
    }

    /** add_new_link_to_chain, for the last cluster of the chain being written. */
    method AddLink(last: nat, ghost v0: Volume, ghost ch0: seq<nat>, ghost ch: seq<nat>, ghost old_: seq<Byte>,
            ghost pos: nat, ghost data: seq<Byte>, ghost w: nat)
      returns (c: nat)
      requires Valid() && Writing(g, v0, ch0, Vol(), ch, old_, pos, data, w) && |FreeClusters(g, Vol().fat)| > 0
      requires ch != [] && last == ch[|ch| - 1]
      modifies ata.disk, ata.cacheSector, ata.cacheValid, ata.cacheData, fat
      ensures Valid() && Writing(g, v0, ch0, Vol(), ch + [c], old_, pos, data, w)
    {
      ghost var v := Vol();
      MirrorSizes(g, v);
      ChainFacts(g, v0, ch0, v, ch);
      hide *;
      c := NewCluster();
      ghost var v1 := Vol();
      LinkValue(g, v, v1, ch, c);
      WriteFatPtr(last, c);
      SetFacts(g, v1, Vol(), last, c % MASK);
      MirrorSizes(g, v1);
      KeptClusters(g, v, v1, Vol(), c);
      WritingExtend(g, v0, ch0, v, ch, old_, pos, data, w, c, Vol());
    }

    /** The first cluster of an empty file. */
    method StartChain(ghost v0: Volume, ghost ch0: seq<nat>, ghost old_: seq<Byte>, ghost pos: nat,
            ghost data: seq<Byte>, ghost w: nat) returns (c: nat)
      requires Valid() && Writing(g, v0, ch0, Vol(), [], old_, pos, data, w) && |FreeClusters(g, Vol().fat)| > 0
      modifies ata.disk, ata.cacheSector, ata.cacheValid, ata.cacheData, fat
      ensures Valid() && Writing(g, v0, ch0, Vol(), [c], old_, pos, data, w) && c >= 2
    {
      ghost var v := Vol();
      MirrorSizes(g, v);
      hide Mirrored, GeometryOk, EntrySet, DataKept, ByteIn, ClusterSame, Writing, ClusterSize;
      c := NewCluster();
      assert [] + [c] == [c];
      WritingExtend(g, v0, ch0, v, [], old_, pos, data, w, c, Vol());
    }

    // ----- fat_write_file -----

    /** The walk to the cluster at `index`, extending the chain where it ends too early. */
    method Reach(first: nat, index: nat, ghost v0: Volume, ghost ch0: seq<nat>, ghost ch: seq<nat>,
            ghost old_: seq<Byte>, ghost pos: nat, ghost data: seq<Byte>, ghost w: nat)
      returns (cluster: nat, ghost ch': seq<nat>)
      requires Valid() && Writing(g, v0, ch0, Vol(), ch, old_, pos, data, w) && ch != [] && first == ch[0]
      requires w < |data| && index == Quot(pos + w, ClusterSize(g))
      requires |FreeClusters(g, v0.fat)| + |ch0| > Quot(pos + |data| - 1, ClusterSize(g))
      modifies ata.disk, ata.cacheSector, ata.cacheValid, ata.cacheData, fat
      ensures Valid() && Writing(g, v0, ch0, Vol(), ch', old_, pos, data, w) && ch <= ch' && index < |ch'|
      ensures cluster == ch'[index]
    {
      hide Mirrored, GeometryOk, Holding, ClusterSize, Quot, FreeClusters, OthersKept;
      cluster, ch' := first, ch;
      var i := 0;
      while i < index
        invariant i <= index && Valid() && Writing(g, v0, ch0, Vol(), ch', old_, pos, data, w) && ch <= ch' && i < |ch'|
        invariant cluster == ch'[i]
      {
        NextInChain(g, v0, ch0, Vol(), ch', i);
        var next := fat[cluster];
        if next >= EOC {
          RoomLeft(g, v0, ch0, Vol(), ch', pos, |data|, w);
          next := AddLink(cluster, v0, ch0, ch', old_, pos, data, w);
          ch' := ch' + [next];
        }
        cluster := next;
        i := i + 1;
      }
    }

    /** The buffer of one turn of the write loop, put in place. */
    method FillCluster(cluster: nat, size: nat, pos: nat, data: seq<Byte>, w: nat, n: nat,
                       ghost v0: Volume, ghost ch0: seq<nat>, ghost ch: seq<nat>, ghost old_: seq<Byte>, ghost index: nat)
      requires Valid() && Writing(g, v0, ch0, Vol(), ch, old_, pos, data, w) && index < |ch| && cluster == ch[index]
      requires |old_| == size
      requires w + n <= |data| && index == Quot(pos + w, ClusterSize(g))
      requires Rem(pos + w, ClusterSize(g)) + n <= ClusterSize(g)
      modifies ata.disk, ata.cacheSector, ata.cacheValid, ata.cacheData
      ensures Valid() && Writing(g, v0, ch0, Vol(), ch, old_, pos, data, w + n)
    {
      ghost var v := Vol();
      MirrorSizes(g, v);
      ChainFacts(g, v0, ch0, v, ch);
      QuotRem(pos + w, ClusterSize(g));
      hide Mirrored, GeometryOk, Writing, ByteIn, Splice, Wanted, Base, Quot;
      var x := PrepareBuffer(cluster, size, pos, data, w, n, v0, ch0, ch, old_, index);
      PutCluster(cluster, x);
      WritingFill(g, v0, ch0, v, ch, old_, pos, data, w, n, index, x, Vol());
    }

    /** That buffer: the cluster's bytes, the gap zeroed, the new bytes put in. */
    method PrepareBuffer(cluster: nat, size: nat, pos: nat, data: seq<Byte>, w: nat, n: nat,
                         ghost v0: Volume, ghost ch0: seq<nat>, ghost ch: seq<nat>, ghost old_: seq<Byte>, ghost index: nat) returns (x: seq<Byte>)
      requires Valid() && Writing(g, v0, ch0, Vol(), ch, old_, pos, data, w) && index < |ch| && cluster == ch[index]
      requires |old_| == size
      requires w + n <= |data| && index == Quot(pos + w, ClusterSize(g))
      requires Rem(pos + w, ClusterSize(g)) + n <= ClusterSize(g)
      requires pos + w == Offset(index, ClusterSize(g)) + Rem(pos + w, ClusterSize(g)) && 2 <= cluster < g.end
      modifies ata.cacheSector, ata.cacheValid, ata.cacheData
      ensures Valid() && Vol() == old(Vol()) && |x| == ClusterSize(g)
      ensures forall k :: 0 <= k < ClusterSize(g) ==>
        x[k] == Wanted(old_, pos, data[..w + n], Offset(index, ClusterSize(g)) + k)
    {
      hide Mirrored, GeometryOk, Writing, ByteIn, Splice, Wanted, Base, Quot, Rem, Offset;
      ghost var v := Vol();
      var cluster_size := ClusterSize(g);
      var offset := pos + w;
      var cluster_offset := Rem(offset, cluster_size);
      var buffer;
      if n != cluster_size || cluster_offset != 0 || (size > offset && size < offset + n) {
        buffer := GetCluster(cluster);
        ReadsWanted(g, v0, ch0, v, ch, old_, pos, data, w, index, buffer);
      } else {
        buffer := Zeros(cluster_size);
      }
      var cluster_start := offset - cluster_offset;
      var zero_start := if size > cluster_start then size else cluster_start;
      var zero_end := if pos < cluster_start + cluster_size then pos else cluster_start + cluster_size;
      var zeroed := buffer;
      if zero_start < zero_end {
        zeroed := Splice(buffer, zero_start - cluster_start, Zeros(zero_end - zero_start));
      }
      ZeroedRange(buffer, zeroed, size, pos, cluster_start, cluster_size, zero_start, zero_end);
      x := Splice(zeroed, cluster_offset, data[w..w + n]);
      BufferRight(old_, pos, data, w, n, cluster_start, cluster_offset, cluster_size, buffer, zeroed, x);
    }

    /** One turn of the write loop. */
    method WriteNext(first: nat, size: nat, pos: nat, data: seq<Byte>, w: nat,
                     ghost v0: Volume, ghost ch0: seq<nat>, ghost ch: seq<nat>, ghost old_: seq<Byte>) returns (first': nat, n: nat, ghost ch': seq<nat>)
      requires Valid() && Writing(g, v0, ch0, Vol(), ch, old_, pos, data, w) && first == First(ch) && |old_| == size
      requires w < |data|
      requires |FreeClusters(g, v0.fat)| + |ch0| > Quot(pos + |data| - 1, ClusterSize(g))
      modifies ata.disk, ata.cacheSector, ata.cacheValid, ata.cacheData, fat
      ensures Valid() && n > 0 && w + n <= |data| && Writing(g, v0, ch0, Vol(), ch', old_, pos, data, w + n)
      ensures ch <= ch' && first' == First(ch')
    {
      MirrorSizes(g, Vol());
      FirstOf(g, v0, ch0, Vol(), ch);
      QuotRem(pos + w, ClusterSize(g));
      hide Mirrored, GeometryOk, Writing, Quot, Rem, ClusterSize, FreeClusters;
      var cluster_size := ClusterSize(g);
      var cluster_index, cluster_offset := Quot(pos + w, cluster_size), Rem(pos + w, cluster_size);
      first', ch' := first, ch;
      if first == 0 {
        StillRoom(g, v0, ch0, Vol(), old_, pos, data, w);
        first' := StartChain(v0, ch0, old_, pos, data, w);
        ch' := [first'];
      }
      var cluster;
      cluster, ch' := Reach(first', cluster_index, v0, ch0, ch', old_, pos, data, w);
      n := cluster_size - cluster_offset;
      if n > |data| - w { n := |data| - w; }
      FillCluster(cluster, size, pos, data, w, n, v0, ch0, ch', old_, cluster_index);
    }

    /** Bring the directory entry of a file up to date. */
    method UpdateEntry(dc: nat, off: nat, first: nat, size: nat)
      requires Valid() && 2 <= dc < g.end && off + ENTRY <= ClusterSize(g) && first < MASK
      modifies ata.disk, ata.cacheSector, ata.cacheValid, ata.cacheData
      ensures Valid() && OnlyCluster(g, old(Vol()), Vol(), dc)
      ensures EntryFirst(g, Vol().disk, dc, off) == first && EntrySize(g, Vol().disk, dc, off) == size % ENTRY_SIZES
      ensures EntryOnly(g, old(Vol()), Vol(), dc, off)
    {
      hide Mirrored, GeometryOk, ByteIn, Splice, Base, Clusters, ClusterSize, OnlyCluster, EntryOnly, EntryField;
      ghost var v := Vol();
      var directory := GetCluster(dc);
      ghost var before := directory;
      directory := Splice(directory, off + 26, [first % 256, first / 256 % 256]);
      directory := Splice(directory, off + 20, [first / 0x1_0000 % 256, first / 0x100_0000 % 16]);
      directory := Splice(directory, off + 28, Bytes32(size % ENTRY_SIZES));
      EntryBytes(before, directory, off, first, size);
      PutCluster(dc, directory);
      PutIsOnly(g, v, dc, directory, Vol());
      EntryIsOnly(g, v, Vol(), dc, off, before, directory);
    }

    /** fat_write_file: -1 for a bad request, else the number of bytes written.  Enough clusters are free. */
    method WriteFile(f: OpenFile, data: seq<Byte>, ghost ch: seq<nat>) returns (r: int, ghost ch': seq<nat>)
      requires Valid() && FileOk(g, Vol(), ch, f.size) && f.first == First(ch)
      requires data != [] && f.pos + |data| < WRAP ==>
        |FreeClusters(g, Vol().fat)| + |ch| > Quot(f.pos + |data| - 1, ClusterSize(g))
      requires f.dirCluster >= 2 ==> DirectoryOk(g, Vol(), ch, f.dirCluster, f.dirOffset)
      modifies ata.disk, ata.cacheSector, ata.cacheValid, ata.cacheData, fat, f`first, f`size
      ensures Valid() && FileOk(g, Vol(), ch', f.size) && f.first == First(ch') && ch <= ch'
      ensures r == if !f.isFile || (data != [] && f.pos + |data| >= WRAP) then -1 else |data|
      ensures r <= 0 ==> Vol() == old(Vol()) && ch' == ch && f.size == old(f.size)
      ensures r > 0 ==> f.size == Larger(old(f.size), f.pos + |data|)
      ensures r > 0 ==> Content(g, Vol().disk, ch', f.size) == Written(Content(g, old(Vol()).disk, ch, old(f.size)),
          f.pos, data, f.size)
      ensures r > 0 && f.dirCluster >= 2 ==>
        EntryFirst(g, Vol().disk, f.dirCluster, f.dirOffset) == f.first && EntrySize(g, Vol().disk, f.dirCluster,
            f.dirOffset) == f.size % ENTRY_SIZES
      ensures f.dirCluster >= 2 ==> EntryOnly(g, old(Vol()), Vol(), f.dirCluster, f.dirOffset)
      ensures OthersKept(g, old(Vol()), Vol(), ch' + [f.dirCluster])
      ensures forall i :: |ch| <= i < |ch'| ==> ch'[i] < |old(Vol()).fat| && old(Vol()).fat[ch'[i]] == 0
    {
      hide *;
      ghost var v0, old_, size := Vol(), Content(g, Vol().disk, ch, f.size), f.size;
      ch' := ch;
      NothingWritten(g, v0, ch, f.dirCluster, f.size);
      NothingChanged(g, v0, f.dirCluster, f.dirOffset);
      if f.dirCluster >= 2 { DirectoryPlace(g, v0, ch, f.dirCluster, f.dirOffset); }
      if !f.isFile { return -1, ch; }
      if |data| == 0 { return 0, ch; }
      if f.pos + |data| >= WRAP { return -1, ch; }
      WritingStart(g, v0, ch, f.size, f.pos, data);
      LargerIs(size, f.pos + |data|);
      ch' := WriteAll(f, data, v0, ch, old_);
      ghost var v1 := Vol();
      WritingEnd(g, v0, ch, v1, ch', old_, f.pos, data, f.size);
      GrownFacts(g, v0, ch, v1, ch', f.dirCluster);
      if f.dirCluster >= 2 {
        DirectoryStays(g, v0, v1, ch, ch', f.dirCluster, f.dirOffset);
        FirstFits(g, v1, ch', f.size);
        UpdateEntry(f.dirCluster, f.dirOffset, f.first, f.size);
        FileAfterOnly(g, v1, Vol(), f.dirCluster, ch', f.size);
        OthersKeptBoth(g, v0, v1, Vol(), ch', f.dirCluster);
        EntryKeptBefore(g, v0, v1, Vol(), ch', f.dirCluster, f.dirOffset);
      }
      r := |data|;
    }

    /** The write loop, and the inode's new first cluster and size. */
    method WriteAll(f: OpenFile, data: seq<Byte>, ghost v0: Volume, ghost ch: seq<nat>,
            ghost old_: seq<Byte>) returns (ghost ch': seq<nat>)
      requires Valid() && data != [] && f.first == First(ch) && |old_| == f.size
      requires Writing(g, v0, ch, Vol(), ch, old_, f.pos, data, 0)
      requires |FreeClusters(g, v0.fat)| + |ch| > Quot(f.pos + |data| - 1, ClusterSize(g))
      modifies ata.disk, ata.cacheSector, ata.cacheValid, ata.cacheData, fat, f`first, f`size
      ensures Valid() && Writing(g, v0, ch, Vol(), ch', old_, f.pos, data, |data|) && ch <= ch' && f.first == First(ch')
      ensures f.size == Larger(old(f.size), f.pos + |data|)
    {
      hide *;
      var first, written: nat, size := f.first, 0, f.size;
      ch' := ch;
      while written < |data|
        invariant written <= |data| && Valid() && Writing(g, v0, ch, Vol(), ch', old_, f.pos, data, written)
        invariant ch <= ch' && first == First(ch')
        invariant f.size == size == old(f.size)
      {
        var n;
        first, n, ch' := WriteNext(first, size, f.pos, data, written, v0, ch, ch', old_);
        written := written + n;
      }
      var end := f.pos + written;
      f.first := first;
      LargerIs(size, end);
      if end > f.size { f.size := end; }
    }

    // ----- read_inode_file -----

    /** The walk to the cluster that holds the position; the file is long enough. */
    method Skip(first: nat, skip: nat, ghost ch: seq<nat>) returns (cluster: nat)
      requires Valid() && IsChain(Vol().fat, ch) && skip < |ch| && first == First(ch)
      ensures cluster == ch[skip]
    {
      hide Mirrored;
      var i := 0;
      cluster := first;
      while i < skip
        invariant i <= skip && cluster == ch[i]
      {
        assert fat[ch[i]] == ch[i + 1];
        cluster := fat[cluster];
        i := i + 1;
      }
    }

    /** How many clusters from ch[i] on are adjacent on the disk, at most `most`. */
    method Coalesce(cluster: nat, most: nat, ghost ch: seq<nat>, ghost i: nat) returns (run: nat, next: nat)
      requires Valid() && IsChain(Vol().fat, ch) && i < |ch| && cluster == ch[i] && most >= 1
      ensures 1 <= run <= most && Adjacent(ch, i, run)
      ensures run == most || i + run == |ch| || ch[i + run] != ch[i + run - 1] + 1
      ensures next == Vol().fat[ch[i + run - 1]]
    {
      MirrorSizes(g, Vol());
      hide Mirrored;
      run := 1;
      var last := cluster;
      while run < most
        invariant 1 <= run <= most && Adjacent(ch, i, run) && last == ch[i + run - 1]
      {
        next := fat[last];
        if i + run < |ch| { assert fat[ch[i + run - 1]] == ch[i + run] < EOC; }
        if next != last + 1 || next >= fat.Length || next >= EOC { break; }
        if i + run < |ch| { assert fat[ch[i + run - 1]] == ch[i + run]; }
        last := next;
        run := run + 1;
      }
      next := fat[last];
    }

    /** One turn of the read loop: some more bytes of the file. */
    method ReadNext(cluster: nat, cluster_offset: nat, remaining: nat, ghost ch: seq<nat>, ghost size: nat,
            ghost i: nat)
      returns (data: seq<Byte>, next: nat, ghost i': nat)
      requires Valid() && FileOk(g, Vol(), ch, size) && i < |ch| && cluster == ch[i] && 0 < remaining
      requires cluster_offset < ClusterSize(g)
      requires 0 <= Offset(i, ClusterSize(g)) && Offset(i, ClusterSize(g)) + cluster_offset + remaining <= size
      modifies ata.cacheSector, ata.cacheValid, ata.cacheData
      ensures Valid() && Vol() == old(Vol()) && 0 < |data| <= remaining
      ensures data == Content(g, Vol().disk, ch, size)[Offset(i, ClusterSize(g)) + cluster_offset..Offset(i,
          ClusterSize(g)) + cluster_offset + |data|]
      ensures i < i' && (|data| < remaining ==> Offset(i', ClusterSize(g)) == Offset(i, ClusterSize(g)) + cluster_offset + |data| && i' < |ch| && next == ch[i'])
    {
      hide *;
      if cluster_offset != 0 || remaining < ClusterSize(g) {
        data, next := ReadPart(cluster, cluster_offset, remaining, ch, size, i);
        i' := i + 1;
      } else {
        data, next, i' := ReadRun(cluster, remaining, ch, size, i);
      }
    }

    /** A partial cluster goes through a bounce buffer. */
    method ReadPart(cluster: nat, cluster_offset: nat, remaining: nat, ghost ch: seq<nat>, ghost size: nat,
            ghost i: nat)
      returns (data: seq<Byte>, next: nat)
      requires Valid() && FileOk(g, Vol(), ch, size) && i < |ch| && cluster == ch[i] && 0 < remaining
      requires cluster_offset < ClusterSize(g)
      requires 0 <= Offset(i, ClusterSize(g)) && Offset(i, ClusterSize(g)) + cluster_offset + remaining <= size
      modifies ata.cacheSector, ata.cacheValid, ata.cacheData
      ensures Valid() && Vol() == old(Vol()) && 0 < |data| <= remaining
      ensures data == Content(g, Vol().disk, ch, size)[Offset(i, ClusterSize(g)) + cluster_offset..Offset(i,
          ClusterSize(g)) + cluster_offset + |data|]
      ensures |data| < remaining ==> Offset(i + 1, ClusterSize(g)) == Offset(i, ClusterSize(g)) + cluster_offset + |data| && i + 1 < |ch| && next == ch[i + 1]
    {
      ghost var v := Vol();
      FileSizes(g, v, ch, size);
      hide Mirrored, GeometryOk, FileOk, Content, ByteIn, Base, ClusterSize, Offset;
      var bytes := ClusterSize(g) - cluster_offset;
      if bytes > remaining { bytes := remaining; }
      var cluster_buffer := GetCluster(cluster);
      PartBytes(g, v, ch, size, i, cluster_offset, bytes, cluster_buffer);
      data := cluster_buffer[cluster_offset..cluster_offset + bytes];
      next := fat[cluster];
      NextCluster(g, v, ch, size, i, 1, cluster_offset, bytes, remaining);
    }

    /** Whole clusters that are adjacent on the disk are read with one command. */
    method ReadRun(cluster: nat, remaining: nat, ghost ch: seq<nat>, ghost size: nat, ghost i: nat)
      returns (data: seq<Byte>, next: nat, ghost i': nat)
      requires Valid() && FileOk(g, Vol(), ch, size) && i < |ch| && cluster == ch[i] && ClusterSize(g) <= remaining
      requires 0 <= Offset(i, ClusterSize(g)) && Offset(i, ClusterSize(g)) + remaining <= size
      modifies ata.cacheSector, ata.cacheValid, ata.cacheData
      ensures Valid() && Vol() == old(Vol()) && 0 < |data| <= remaining
      ensures data == Content(g, Vol().disk, ch, size)[Offset(i, ClusterSize(g))..Offset(i, ClusterSize(g)) + |data|]
      ensures i < i' && (|data| < remaining ==> Offset(i', ClusterSize(g)) == Offset(i, ClusterSize(g)) + |data| && i' < |ch| && next == ch[i'])
    {
      ghost var v := Vol();
      FileSizes(g, v, ch, size);
      hide Mirrored, GeometryOk, FileOk, Content, ByteIn, Base, ClusterSize, Adjacent, Offset, Quot;
      var max_clusters := MAX_COMMAND / g.spc;
      var wanted_clusters := Quot(remaining, ClusterSize(g));
      RunFits(g.spc, remaining, ClusterSize(g));
      if wanted_clusters < max_clusters { max_clusters := wanted_clusters; }
      var run;
      run, next := Coalesce(cluster, max_clusters, ch, i);
      CommandFits(g, v, ch, size, i, run, max_clusters, remaining);
      var ok;
      ok, data := ata.ReadSectors(g.dataStart + (cluster - 2) * g.spc, run * g.spc, Success);
      i' := i + run;
      RunBytes(g, v, ch, size, i, run, data);
      NextCluster(g, v, ch, size, i, run, 0, |data|, remaining);
    }

    lemma TableSize()
      ensures |Vol().fat| == fat.Length
    {
    }

    /** read_inode_file: the bytes from pos on, fewer at the end of the file. */
    method ReadFile(f: OpenFile, count: nat, ghost ch: seq<nat>) returns (data: seq<Byte>)
      requires Valid() && FileOk(g, Vol(), ch, f.size) && f.first == First(ch)
      modifies ata.cacheSector, ata.cacheValid, ata.cacheData
      ensures Valid() && Vol() == old(Vol())
      ensures data == if f.pos >= f.size then [] else Content(g, Vol().disk, ch,
          f.size)[f.pos..f.pos + Least(count, f.size - f.pos)]
    {
      hide *;
      ghost var v, content := Vol(), Content(g, Vol().disk, ch, f.size);
      data := [];
      if count == 0 || f.pos >= f.size {
        NothingRead(content, f.pos, f.size, count);
        return;
      }
      var remaining: nat := count;
      if remaining > f.size - f.pos { remaining := f.size - f.pos; }
      TableSize();
      LeastIs(count, f.size - f.pos);
      ghost var total := remaining;
      FileSizes(g, v, ch, f.size);
      ReadStart(g, v, ch, f.size, f.pos, remaining);
      var cluster_size := ClusterSize(g);
      var cluster: nat := Skip(f.first, Quot(f.pos, cluster_size), ch);
      var cluster_offset: nat := Rem(f.pos, cluster_size);
      ghost var i: nat := Quot(f.pos, cluster_size);
      while remaining > 0 && cluster >= 2 && cluster < fat.Length
        invariant Valid() && Vol() == v
        invariant Reading(g, v, ch, f.size, f.pos, total, data, remaining, i, cluster, cluster_offset)
        decreases remaining
      {
        data, remaining, cluster, i := ReadTurn(data, remaining, cluster, cluster_offset, ch, f.size, f.pos, total, i);
        cluster_offset := 0;
      }
      ReadDone(g, v, ch, f.size, f.pos, total, data, remaining, i, cluster, cluster_offset);
    }

    /** The body of the read loop. */
    method ReadTurn(data: seq<Byte>, remaining: nat, cluster: nat, cluster_offset: nat,
                    ghost ch: seq<nat>, ghost size: nat, ghost pos: nat, ghost total: nat, ghost i: nat)
      returns (data': seq<Byte>, remaining': nat, next: nat, ghost i': nat)
      requires Valid() && FileOk(g, Vol(), ch, size) && remaining > 0
      requires Reading(g, Vol(), ch, size, pos, total, data, remaining, i, cluster, cluster_offset)
      modifies ata.cacheSector, ata.cacheValid, ata.cacheData
      ensures Valid() && Vol() == old(Vol()) && remaining' < remaining
      ensures Reading(g, Vol(), ch, size, pos, total, data', remaining', i', next, 0)
    {
      hide *;
      ghost var v := Vol();
      ReadReady(g, v, ch, size, pos, total, data, remaining, i, cluster, cluster_offset);
      var more;
      more, next, i' := ReadNext(cluster, cluster_offset, remaining, ch, size, i);
      ReadOn(g, v, ch, size, pos, total, data, remaining, i, cluster, cluster_offset, more, i', next);
      data', remaining' := data + more, remaining - |more|;
    }

    // ----- truncating and removing -----

    /** The freeing loop, on any table at all, even one with a cycle: it stops, and only frees; started on a chain
        it frees exactly that chain. */
    method FreeChain(start: nat, ghost ch: seq<nat>)
      requires Valid()
      modifies ata.disk, ata.cacheSector, ata.cacheValid, ata.cacheData, fat
      ensures Valid() && DataKept(g, old(Vol()).disk, Vol().disk) && |Vol().fat| == |old(Vol()).fat|
      ensures forall c :: 0 <= c < |old(Vol()).fat| ==> Vol().fat[c] == old(Vol()).fat[c] || Vol().fat[c] == 0
      ensures IsChain(old(Vol()).fat, ch) && start == First(ch) ==> IsFreed(old(Vol()).fat, Vol().fat, ch)
    {
      hide Mirrored, GeometryOk, EntrySet, IsFreed, Freeing, NonZero, IsChain;
      ghost var v := Vol();
      ghost var chained := IsChain(v.fat, ch) && start == First(ch);
      FreeingStart(v.fat, ch);
      MirrorSizes(g, v);
      var cluster: nat := start;
      ghost var i: nat := 0;
      while cluster >= 2 && cluster < fat.Length && !(cluster >= EOC)
        invariant Valid() && DataKept(g, v.disk, Vol().disk) && |Vol().fat| == |v.fat|
        invariant forall c :: 0 <= c < |v.fat| ==> fat[c] == v.fat[c] || fat[c] == 0
        invariant chained ==> Freeing(v.fat, fat[..], ch, i, cluster)
        decreases |NonZero(fat[..])|, if cluster < 2 then 0 else 1
      {
        ghost var v1 := Vol();
        MirrorSizes(g, v1);
        var next := fat[cluster];
        if chained { FreeingNext(v.fat, v1.fat, ch, i, cluster); }
        if next != 0 { NonZeroShrinks(v1.fat, cluster); } else { AlreadyFree(v1.fat, cluster); }
        WriteFatPtr(cluster, 0);
        SetFacts(g, v1, Vol(), cluster, 0);
        cluster := next;
        i := i + 1;
      }
      if chained { FreeingEnd(g, v, Vol(), ch, i, cluster); }
    }

    /** fat_truncate_file. */
    method TruncateFile(f: OpenFile, ghost ch: seq<nat>) returns (ok: bool)
      requires Valid() && FileOk(g, Vol(), ch, f.size) && f.first == First(ch)
      requires f.dirCluster >= 2 && f.dirOffset < ClusterSize(g) ==>
        DirectoryOk(g, Vol(), ch, f.dirCluster, f.dirOffset)
      modifies ata.disk, ata.cacheSector, ata.cacheValid, ata.cacheData, fat, f`first, f`size, f`pos
      ensures Valid() && (ok <==> f.isFile && f.dirCluster >= 2 && f.dirOffset < ClusterSize(g))
      ensures !ok ==> Vol() == old(Vol()) && f.first == old(f.first) && f.size == old(f.size) && f.pos == old(f.pos)
      ensures ok ==> f.first == f.size == f.pos == 0 && FileOk(g, Vol(), [], 0)
      ensures ok ==> IsFreed(old(Vol()).fat, Vol().fat, ch) && OthersKept(g, old(Vol()), Vol(), ch + [f.dirCluster])
      ensures ok ==>
        EntryFirst(g, Vol().disk, f.dirCluster, f.dirOffset) == EntrySize(g, Vol().disk, f.dirCluster, f.dirOffset) == 0
      ensures ok ==> EntryOnly(g, old(Vol()), Vol(), f.dirCluster, f.dirOffset)
    {
      hide *;
      if !f.isFile || f.dirCluster < 2 || f.dirOffset >= ClusterSize(g) { return false; }
      ghost var v := Vol();
      FileSizes(g, v, ch, f.size);
      DirectoryPlace(g, v, ch, f.dirCluster, f.dirOffset);
      FreeChain(f.first, ch);
      ghost var v1 := Vol();
      FreedKept(g, v, v1, ch);
      UpdateEntry(f.dirCluster, f.dirOffset, 0, 0);
      OthersKeptBoth(g, v, v1, Vol(), ch, f.dirCluster);
      EntryKeptBefore(g, v, v1, Vol(), ch, f.dirCluster, f.dirOffset);
      EmptyFile(g, v1, Vol(), f.dirCluster);
      f.first, f.size, f.pos := 0, 0, 0;
      ok := true;
    }

    /** fat_remove_file: the entry and its long-name records are marked unused, and the chain is freed. */
    method RemoveFile(first: nat, dc: nat, off: nat, ghost ch: seq<nat>, ghost size: nat) returns (ok: bool)
      requires Valid() && FileOk(g, Vol(), ch, size) && first == First(ch)
      requires dc >= 2 && off < ClusterSize(g) ==> DirectoryOk(g, Vol(), ch, dc, off)
      modifies ata.disk, ata.cacheSector, ata.cacheValid, ata.cacheData, fat
      ensures Valid()
      ensures ok <==> dc >= 2 && off < ClusterSize(g) && ByteIn(g, old(Vol()).disk, dc, off) != 0 && ByteIn(g,
          old(Vol()).disk, dc, off) != UNUSED
      ensures !ok ==> Vol() == old(Vol())
      ensures ok ==> IsFreed(old(Vol()).fat, Vol().fat, ch) && OthersKept(g, old(Vol()), Vol(), ch + [dc])
      ensures ok ==> exists n :: Deleted(ClusterOf(g, old(Vol()).disk, dc), ClusterOf(g, Vol().disk, dc), off, n)
    {
      hide *;
      if dc < 2 || off >= ClusterSize(g) { return false; }
      ghost var v := Vol();
      FileSizes(g, v, ch, size);
      DirectoryPlace(g, v, ch, dc, off);
      var directory := GetCluster(dc);
      UnusedIs();
      if directory[off] == 0 || directory[off] == UNUSED { return false; }
      ClusterIs(g, v.disk, dc, directory);
      var marked;
      ghost var n;
      marked, n := MarkDeleted(directory, off);
      PutCluster(dc, marked);
      ghost var v1 := Vol();
      PutIsOnly(g, v, dc, marked, v1);
      OnlyFat(g, v, v1, dc);
      FreeChain(first, ch);
      ghost var v2 := Vol();
      FreedKept(g, v1, v2, ch);
      RemovedKept(g, v, v1, v2, ch, dc, marked);
      ok := true;
    }

    /** Mark the record at off and the long-name records before it. */
    method MarkDeleted(directory: seq<Byte>, off: nat) returns (marked: seq<Byte>, ghost n: nat)
      requires off < |directory|
      ensures Deleted(directory, marked, off, n)
    {
      marked, n := directory[off := UNUSED], 0;
      var offset := off;
      while offset >= ENTRY
        invariant n * ENTRY + offset == off && MarkedUpTo(directory, marked, off, n)
        invariant forall j :: 1 <= j <= n ==> LongNameAt(directory, off - j * ENTRY)
      {
        offset := offset - ENTRY;
        MarkNext(directory, marked, off, n, offset);
        if marked[offset + ATTRIBUTE] != LONG_NAME { return; }
        marked := marked[offset := UNUSED];
        n := n + 1;
      }
    }

  }

  lemma NoCopies(g: Geometry, v: Volume, c: nat, value: nat)
    requires Mirrored(g, v)
    ensures CopiesSet(g, v.disk, v.disk, c, value, 0) && GeometryOk(g, |v.disk|) && |v.fat| == Clusters(g)
  {
  }

  lemma AllCopies(g: Geometry, v: Volume, v': Volume, c: nat, value: nat)
    requires c < |v.fat| && v'.fat == v.fat[c := value] && CopiesSet(g, v.disk, v'.disk, c, value, g.copies)
    ensures EntrySet(g, v, v', c, value)
  {
    hide EntryAt, Value32;
    forall k | 0 <= k < |v.disk| && !InEntry(g, c, k) ensures v'.disk[k] == v.disk[k] {
      assert !InFirst(g, c, k, g.copies);
    }
  }
}
