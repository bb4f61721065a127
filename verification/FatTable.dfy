// A FAT32 volume as a value: the bytes of the disk and the in-memory copy of the allocation table;
// cluster chains, and the files they hold.
module FatTable {
  import opened Words
  import opened Disk

  const EOC: nat := 0x0FFF_FFF8
  const MASK: nat := 0x1000_0000

  /** Where things are, in sectors: `copies` tables of `fatSize` sectors from fatStart on, and clusters of
      `spc` sectors from dataStart on.  The clusters 2 up to `end` lie in the volume; a table may have more entries. */
  datatype Geometry = Geometry(spc: nat, fatSize: nat, copies: nat, fatStart: nat, dataStart: nat, end: nat)

  datatype Volume = Volume(disk: seq<Byte>, fat: seq<nat>)

  function ClusterSize(g: Geometry): nat { g.spc * SECTOR }

  /** cluster_count: one entry for every four bytes of a table. */
  function Clusters(g: Geometry): nat { g.fatSize * 128 }

  /** The first byte of a cluster (clust2sec). */
  function Base(g: Geometry, c: nat): nat { SECTOR * (g.dataStart + (if c < 2 then 0 else c - 2) * g.spc) }

  /** The tables lie before the data, and the volume's clusters have entries and lie on the disk. */
  predicate GeometryOk(g: Geometry, size: nat) {
    && 0 < g.spc <= MAX_COMMAND && 0 < g.fatSize && 0 < g.copies && Clusters(g) <= EOC
    && g.fatStart + g.copies * g.fatSize <= g.dataStart
    && 2 < g.end <= Clusters(g) && SECTOR * (g.dataStart + (g.end - 2) * g.spc) <= size
    && size <= SECTOR * SECTORS
  }

  /** Where table `copy` keeps its entry for cluster c. */
  function EntryAt(g: Geometry, copy: nat, c: nat): nat { SECTOR * (g.fatStart + copy * g.fatSize) + 4 * c }

  /** The 32-bit little-endian value at a byte address. */
  function Value32(d: seq<Byte>, at: nat): nat
    requires at + 4 <= |d|
  {
    Join(d[at], d[at + 1], d[at + 2], d[at + 3])
  }

  function Join(a: nat, b: nat, c: nat, d: nat): nat { a + 256 * b + 0x1_0000 * c + 0x100_0000 * d }

  lemma EntryInside(g: Geometry, size: nat, copy: nat, c: nat)
    requires GeometryOk(g, size) && copy < g.copies && c < Clusters(g)
    ensures EntryAt(g, copy, c) + 4 <= SECTOR * (g.fatStart + (copy + 1) * g.fatSize) <= SECTOR * g.dataStart <= size
  {
    MulMono(copy + 1, g.copies, g.fatSize);
    MulMono(0, g.end - 2, g.spc);
  }

  lemma MulMono(a: nat, b: nat, k: nat)
    requires a <= b
    ensures a * k <= b * k
  {
  }

  lemma MulLess(a: nat, b: nat, k: nat)
    requires a * k < b * k
    ensures a < b
  {
    if a >= b { MulMono(b, a, k); }
  }

  /** Every table copy on the disk agrees with memory in the low 28 bits. */
  ghost predicate Mirrored(g: Geometry, v: Volume) {
    && GeometryOk(g, |v.disk|) && |v.fat| == Clusters(g)
    && forall copy, c :: 0 <= copy < g.copies && 0 <= c < Clusters(g) ==>
         EntryAt(g, copy, c) + 4 <= |v.disk| && Value32(v.disk, EntryAt(g, copy, c)) % MASK == v.fat[c]
  }

  // ----- where clusters are -----

  lemma BaseStep(g: Geometry, c: nat, n: nat)
    requires c >= 2
    ensures Base(g, c) + n * ClusterSize(g) == Base(g, c + n)
  {
    assert (c + n - 2) * g.spc == (c - 2) * g.spc + n * g.spc;
    assert n * ClusterSize(g) == SECTOR * (n * g.spc) by { assert n * (g.spc * SECTOR) == (n * g.spc) * SECTOR; }
  }

  lemma ClusterInside(g: Geometry, size: nat, c: nat)
    requires GeometryOk(g, size) && 2 <= c < g.end
    ensures SECTOR * g.dataStart <= Base(g, c) && Base(g, c) + ClusterSize(g) <= size && 0 < ClusterSize(g)
  {
    assert SECTOR * (g.dataStart + (g.end - 2) * g.spc) <= size && 0 < g.spc;
    assert Base(g, c) == SECTOR * (g.dataStart + (c - 2) * g.spc) && ClusterSize(g) == SECTOR * g.spc;
    hide *;
    OneMore(c - 2, g.spc);
    MulMono(c - 1, g.end - 2, g.spc);
    SectorsInside(g.dataStart, (c - 2) * g.spc, g.spc, (g.end - 2) * g.spc, size);
  }

  lemma OneMore(a: nat, k: nat)
    ensures a * k + k == (a + 1) * k
  {
  }

  lemma SectorsInside(start: nat, at: nat, n: nat, end: nat, size: nat)
    requires at + n <= end && SECTOR * (start + end) <= size && n > 0
    ensures SECTOR * start <= SECTOR * (start + at) && SECTOR * (start + at) + SECTOR * n <= size && 0 < SECTOR * n
  {
  }

  /** Different clusters have no byte in common. */
  lemma ClustersApart(g: Geometry, c: nat, k: nat, c': nat, k': nat)
    requires c >= 2 && c' >= 2 && k < ClusterSize(g) && k' < ClusterSize(g) && c != c'
    ensures Base(g, c) + k != Base(g, c') + k'
  {
    if c < c' {
      BaseStep(g, c, c' - c);
      MulMono(1, c' - c, ClusterSize(g));
    } else {
      BaseStep(g, c', c - c');
      MulMono(1, c - c', ClusterSize(g));
    }
  }

  // ----- chains -----

  /** ch is a whole chain of the table: distinct clusters, each leading to the next, the last marked as such. */
  ghost predicate IsChain(fat: seq<nat>, ch: seq<nat>) {
    && (forall i :: 0 <= i < |ch| ==> 2 <= ch[i] < |fat|)
    && (forall i, j :: 0 <= i < j < |ch| ==> ch[i] != ch[j])
    && (forall i :: 0 <= i < |ch| - 1 ==> fat[ch[i]] == ch[i + 1])
    && (ch != [] ==> EOC <= fat[ch[|ch| - 1]] < MASK)
  }

  function First(ch: seq<nat>): nat { if ch == [] then 0 else ch[0] }

  /** A cluster in a chain is not free. */
  lemma InChain(fat: seq<nat>, ch: seq<nat>, i: nat)
    requires IsChain(fat, ch) && i < |ch|
    ensures 2 <= ch[i] < |fat| && fat[ch[i]] >= 2
  {
    if i < |ch| - 1 { assert fat[ch[i]] == ch[i + 1]; }
  }

  /** A cluster starts at most one chain. */
  lemma {:induction false} SameStart(fat: seq<nat>, a: seq<nat>, b: seq<nat>, i: nat)
    requires IsChain(fat, a) && IsChain(fat, b) && First(a) == First(b) && |fat| <= EOC && i < |a|
    ensures i < |b| && a[i] == b[i]
  {
    if i > 0 {
      SameStart(fat, a, b, i - 1);
      assert fat[a[i - 1]] == a[i];
    }
  }

  lemma ChainUnique(fat: seq<nat>, a: seq<nat>, b: seq<nat>)
    requires IsChain(fat, a) && IsChain(fat, b) && First(a) == First(b) && |fat| <= EOC
    ensures a == b
  {
    if |a| < |b| { SameStart(fat, b, a, |a|); }
    forall i | 0 <= i < |a| ensures i < |b| && a[i] == b[i] { SameStart(fat, a, b, i); }
  }

  ghost predicate Apart(a: seq<nat>, b: seq<nat>) { forall i, j :: 0 <= i < |a| && 0 <= j < |b| ==> a[i] != b[j] }

  /** Chains that share no cluster with the changed one stay chains. */
  lemma OtherChainStays(fat: seq<nat>, fat': seq<nat>, other: seq<nat>)
    requires IsChain(fat, other) && |fat'| == |fat| && forall i :: 0 <= i < |other| ==> fat'[other[i]] == fat[other[i]]
    ensures IsChain(fat', other)
  {
  }

  /** Appending a free cluster to a chain, or starting one with it. */
  function Extend(fat: seq<nat>, ch: seq<nat>, f: nat): seq<nat>
    requires f < |fat| && (ch != [] ==> ch[|ch| - 1] < |fat|)
  {
    if ch == [] then fat[f := EOC] else fat[f := EOC][ch[|ch| - 1] := f]
  }

  lemma ExtendChain(fat: seq<nat>, ch: seq<nat>, f: nat)
    requires IsChain(fat, ch) && 2 <= f < |fat| && fat[f] == 0
    ensures IsChain(Extend(fat, ch, f), ch + [f])
  {
    var fat', ch' := Extend(fat, ch, f), ch + [f];
    forall i | 0 <= i < |ch| ensures ch[i] != f { InChain(fat, ch, i); }
    forall i | 0 <= i < |ch'| - 1 ensures fat'[ch'[i]] == ch'[i + 1] {
      if i < |ch| - 1 { assert fat[ch[i]] == ch[i + 1]; }
    }
  }

  // ----- counting -----

  /** The free clusters of the volume; entries past its end do not count. */
  function FreeClusters(g: Geometry, fat: seq<nat>): set<nat> { set c | 2 <= c < |fat| && c < g.end && fat[c] == 0 }

  /** The lowest free entry is the volume's if any cluster of the volume is free. */
  lemma LowestFree(g: Geometry, fat: seq<nat>, c: nat)
    requires |FreeClusters(g, fat)| > 0
    requires c != 0 ==> 2 <= c < |fat| && fat[c] == 0 && forall e :: 2 <= e < c ==> fat[e] != 0
    requires c == 0 ==> forall e :: 2 <= e < |fat| ==> fat[e] != 0
    ensures c != 0 && c < g.end && c in FreeClusters(g, fat)
  {
    var e :| e in FreeClusters(g, fat);
  }

  lemma FreeAfterExtend(g: Geometry, fat: seq<nat>, ch: seq<nat>, f: nat)
    requires IsChain(fat, ch) && 2 <= f < |fat| && f < g.end && fat[f] == 0
    ensures |FreeClusters(g, Extend(fat, ch, f))| == |FreeClusters(g, fat)| - 1
  {
    if ch != [] { InChain(fat, ch, |ch| - 1); }
    assert FreeClusters(g, fat) == FreeClusters(g, Extend(fat, ch, f)) + {f};
  }

  // ----- files -----

  function Quot(p: nat, n: nat): nat { if n == 0 then 0 else p / n }
  function Rem(p: nat, n: nat): nat { if n == 0 then 0 else p % n }

  /** Byte k of cluster c. */
  function ByteIn(g: Geometry, d: seq<Byte>, c: nat, k: nat): Byte {
    if Base(g, c) + k < |d| then d[Base(g, c) + k] else 0
  }

  /** Byte p of the clusters of a chain. */
  function ByteAt(g: Geometry, d: seq<Byte>, ch: seq<nat>, p: nat): Byte {
    if Quot(p, ClusterSize(g)) < |ch| then ByteIn(g, d, ch[Quot(p, ClusterSize(g))], Rem(p, ClusterSize(g))) else 0
  }

  lemma QuotRem(p: nat, n: nat)
    requires n > 0
    ensures p == Quot(p, n) * n + Rem(p, n) == Offset(Quot(p, n), n) + Rem(p, n) && Rem(p, n) < n
  {
  }

  /** Where index i begins. */
  function Offset(i: nat, n: nat): nat { i * n }

  lemma Place(i: nat, k: nat, n: nat)
    requires k < n
    ensures Quot(Offset(i, n) + k, n) == i && Rem(Offset(i, n) + k, n) == k
  {
    var p := Offset(i, n) + k;
    QuotRem(p, n);
    hide Quot, Rem;
    UniqueQuot(Quot(p, n), Rem(p, n), i, k, n);
  }

  lemma UniqueQuot(a: nat, r: nat, b: nat, s: nat, n: nat)
    requires a * n + r == b * n + s && r < n && s < n
    ensures a == b && r == s
  {
    if a < b { MulMono(a + 1, b, n); }
    if b < a { MulMono(b + 1, a, n); }
  }

  lemma QuotMono(p: nat, q: nat, n: nat)
    requires p <= q && n > 0
    ensures Quot(p, n) <= Quot(q, n)
  {
    QuotRem(p, n);
    QuotRem(q, n);
    hide Quot, Rem;
    if Quot(q, n) < Quot(p, n) { MulMono(Quot(q, n) + 1, Quot(p, n), n); }
  }

  lemma Within(p: nat, count: nat, n: nat)
    requires n > 0
    ensures p < count * n <==> Quot(p, n) < count
  {
    QuotRem(p, n);
    hide Quot, Rem;
    if Quot(p, n) < count { MulMono(Quot(p, n) + 1, count, n); } else { MulMono(count, Quot(p, n), n); }
  }

  /** All clusters of the chain are the volume's. */
  predicate InVolume(g: Geometry, ch: seq<nat>) { forall i :: 0 <= i < |ch| ==> ch[i] < g.end }

  /** A file: its chain, big enough for its size, and zero past it. */
  ghost predicate FileOk(g: Geometry, v: Volume, ch: seq<nat>, size: nat) {
    && Mirrored(g, v) && IsChain(v.fat, ch) && InVolume(g, ch) && size <= |ch| * ClusterSize(g)
    && forall p :: size <= p < |ch| * ClusterSize(g) ==> ByteAt(g, v.disk, ch, p) == 0
  }

  /** What a file of n bytes holds. */
  function Content(g: Geometry, d: seq<Byte>, ch: seq<nat>, n: nat): (s: seq<Byte>)
    ensures |s| == n && forall p :: 0 <= p < n ==> s[p] == ByteAt(g, d, ch, p)
  {
    if n == 0 then [] else Content(g, d, ch, n - 1) + [ByteAt(g, d, ch, n - 1)]
  }

  // ----- what one store to the volume changes -----

  /** (value & 0x0fffffff) | (old_value & 0xf0000000), for a value of 28 bits. */
  function Merge32(old_value: nat, value: nat): nat { old_value / MASK * MASK + value }

  /** The entry of cluster c was set to `value` in memory and in the low 28 bits of every copy; nothing else changed. */
  ghost predicate EntrySet(g: Geometry, v: Volume, v': Volume, c: nat, value: nat) {
    && c < |v.fat| && v'.fat == v.fat[c := value] && |v'.disk| == |v.disk|
    && (forall copy :: 0 <= copy < g.copies && EntryAt(g, copy, c) + 4 <= |v.disk| ==>
         Value32(v'.disk, EntryAt(g, copy, c)) == Merge32(Value32(v.disk, EntryAt(g, copy, c)), value))
    && (forall k :: 0 <= k < |v.disk| && !InEntry(g, c, k) ==> v'.disk[k] == v.disk[k])
  }

  /** Byte k belongs to some copy of the entry of cluster c. */
  ghost predicate InEntry(g: Geometry, c: nat, k: nat) {
    exists copy :: 0 <= copy < g.copies && EntryAt(g, copy, c) <= k < EntryAt(g, copy, c) + 4
  }

  lemma EntriesApart(g: Geometry, size: nat, copy: nat, c: nat, k: nat, c': nat)
    requires GeometryOk(g, size) && copy < g.copies && c < Clusters(g) && c' < Clusters(g) && c != c'
    requires EntryAt(g, copy, c) <= k < EntryAt(g, copy, c) + 4
    ensures !InEntry(g, c', k)
  {
    forall copy' | 0 <= copy' < g.copies ensures !(EntryAt(g, copy', c') <= k < EntryAt(g, copy', c') + 4) {
      if copy' < copy {
        CopyApart(g, size, copy', copy, c', c);
      } else if copy < copy' {
        CopyApart(g, size, copy, copy', c, c');
      }
    }
  }

  lemma CopyApart(g: Geometry, size: nat, copy: nat, copy': nat, c: nat, c': nat)
    requires GeometryOk(g, size) && copy < copy' < g.copies && c < Clusters(g) && c' < Clusters(g)
    ensures EntryAt(g, copy, c) + 4 <= EntryAt(g, copy', c')
  {
    EntryInside(g, size, copy, c);
    MulMono(copy + 1, copy', g.fatSize);
  }

  lemma SameValue32(d: seq<Byte>, d': seq<Byte>, at: nat)
    requires at + 4 <= |d| == |d'| && forall k :: at <= k < at + 4 ==> d'[k] == d[k]
    ensures Value32(d', at) == Value32(d, at)
  {
  }

  /** Setting an entry keeps memory and disk in agreement, and no data byte changes. */
  lemma EntrySetKeeps(g: Geometry, v: Volume, v': Volume, c: nat, value: nat)
    requires Mirrored(g, v) && EntrySet(g, v, v', c, value) && value < MASK
    ensures Mirrored(g, v') && DataKept(g, v.disk, v'.disk)
  {
    forall copy, e | 0 <= copy < g.copies && 0 <= e < Clusters(g)
      ensures EntryAt(g, copy, e) + 4 <= |v'.disk| && Value32(v'.disk, EntryAt(g, copy, e)) % MASK == v'.fat[e]
    {
      EntryAfterSet(g, v, v', c, value, copy, e);
    }
    EntrySetData(g, v, v', c, value);
  }

  lemma EntryAfterSet(g: Geometry, v: Volume, v': Volume, c: nat, value: nat, copy: nat, e: nat)
    requires Mirrored(g, v) && EntrySet(g, v, v', c, value) && value < MASK && copy < g.copies && e < Clusters(g)
    ensures EntryAt(g, copy, e) + 4 <= |v'.disk| && Value32(v'.disk, EntryAt(g, copy, e)) % MASK == v'.fat[e]
  {
    hide *;
    MirrorEntry(g, v, copy, e);
    if e != c {
      SetElsewhere(g, v, v', c, value, e);
      forall k | EntryAt(g, copy, e) <= k < EntryAt(g, copy, e) + 4 ensures !InEntry(g, c,
          k) { EntriesApart(g, |v.disk|, copy, e, k, c); }
      OtherEntry(v, v', g, copy, e, c);
    } else {
      SetHere(g, v, v', c, value, copy);
    }
  }

  lemma MirrorEntry(g: Geometry, v: Volume, copy: nat, e: nat)
    requires Mirrored(g, v) && copy < g.copies && e < Clusters(g)
    ensures GeometryOk(g, |v.disk|) && |v.fat| == Clusters(g)
    ensures EntryAt(g, copy, e) + 4 <= SECTOR * g.dataStart <= |v.disk|
    ensures Value32(v.disk, EntryAt(g, copy, e)) % MASK == v.fat[e]
  {
    EntryInside(g, |v.disk|, copy, e);
    hide GeometryOk, EntryAt, Value32;
  }

  lemma SetElsewhere(g: Geometry, v: Volume, v': Volume, c: nat, value: nat, e: nat)
    requires EntrySet(g, v, v', c, value) && e < |v.fat| && e != c
    ensures v'.fat[e] == v.fat[e] && |v'.disk| == |v.disk| && c < |v.fat|
    ensures forall k :: 0 <= k < |v.disk| && !InEntry(g, c, k) ==> v'.disk[k] == v.disk[k]
  {
    hide InEntry, EntryAt, Value32;
  }

  lemma SetHere(g: Geometry, v: Volume, v': Volume, c: nat, value: nat, copy: nat)
    requires EntrySet(g, v, v', c, value) && value < MASK && copy < g.copies && EntryAt(g, copy, c) + 4 <= |v.disk|
    ensures |v'.disk| == |v.disk| && |v'.fat| == |v.fat|
    ensures Value32(v'.disk, EntryAt(g, copy, c)) % MASK == value == v'.fat[c]
  {
    hide InEntry, EntryAt, Value32;
  }

  lemma OtherEntry(v: Volume, v': Volume, g: Geometry, copy: nat, e: nat, c: nat)
    requires Mirrored(g, v) && copy < g.copies && e < Clusters(g) && |v'.disk| == |v.disk|
    requires EntryAt(g, copy, e) + 4 <= |v.disk|
    requires forall k :: 0 <= k < |v.disk| && !InEntry(g, c, k) ==> v'.disk[k] == v.disk[k]
    requires forall k :: EntryAt(g, copy, e) <= k < EntryAt(g, copy, e) + 4 ==> !InEntry(g, c, k)
    ensures Value32(v'.disk, EntryAt(g, copy, e)) % MASK == v.fat[e]
  {
    hide GeometryOk, EntryAt, Value32, InEntry;
    SameValue32(v.disk, v'.disk, EntryAt(g, copy, e));
  }

  lemma EntrySetData(g: Geometry, v: Volume, v': Volume, c: nat, value: nat)
    requires GeometryOk(g, |v.disk|) && c < Clusters(g) && EntrySet(g, v, v', c, value)
    ensures DataKept(g, v.disk, v'.disk)
  {
    forall k | SECTOR * g.dataStart <= k < |v.disk| ensures !InEntry(g, c, k) {
      forall copy | 0 <= copy < g.copies ensures !(EntryAt(g, copy, c) <= k < EntryAt(g, copy, c) + 4) {
        EntryInside(g, |v.disk|, copy, c);
      }
    }
  }

  /** No byte of any cluster changed. */
  ghost predicate DataKept(g: Geometry, d: seq<Byte>, d': seq<Byte>) {
    |d'| == |d| && forall k :: SECTOR * g.dataStart <= k < |d| ==> d'[k] == d[k]
  }

  lemma ClusterKept(g: Geometry, d: seq<Byte>, d': seq<Byte>, c: nat, k: nat)
    requires GeometryOk(g, |d|) && DataKept(g, d, d') && 2 <= c && k < ClusterSize(g)
    ensures ByteIn(g, d', c, k) == ByteIn(g, d, c, k)
  {
    hide GeometryOk, ClusterSize;
  }

  /** Cluster c was overwritten with x; the tables and all other clusters are as before. */
  lemma ClusterWritten(g: Geometry, v: Volume, c: nat, x: seq<Byte>, v': Volume)
    requires Mirrored(g, v) && 2 <= c < g.end && |x| == ClusterSize(g) && Base(g, c) + |x| <= |v.disk|
    requires v' == Volume(Splice(v.disk, Base(g, c), x), v.fat)
    ensures Mirrored(g, v')
    ensures forall k :: 0 <= k < SECTOR * g.dataStart && k < |v.disk| ==> v'.disk[k] == v.disk[k]
  {
    ClusterInside(g, |v.disk|, c);
    forall copy, e | 0 <= copy < g.copies && 0 <= e < Clusters(g)
      ensures EntryAt(g, copy, e) + 4 <= |v'.disk| && Value32(v'.disk, EntryAt(g, copy, e)) % MASK == v'.fat[e]
    {
      EntryInside(g, |v.disk|, copy, e);
      EntryStays(g, v, v', copy, e);
    }
  }

  lemma EntryStays(g: Geometry, v: Volume, v': Volume, copy: nat, e: nat)
    requires Mirrored(g, v) && copy < g.copies && e < Clusters(g)
    requires EntryAt(g, copy, e) + 4 <= SECTOR * g.dataStart <= |v.disk| == |v'.disk|
    requires forall k :: 0 <= k < SECTOR * g.dataStart ==> v'.disk[k] == v.disk[k]
    ensures Value32(v'.disk, EntryAt(g, copy, e)) % MASK == v.fat[e]
  {
    hide GeometryOk, Value32;
    SameValue32(v.disk, v'.disk, EntryAt(g, copy, e));
  }

  lemma ByteAfterWrite(g: Geometry, d: seq<Byte>, c: nat, x: seq<Byte>, c': nat, k: nat)
    requires GeometryOk(g, |d|) && 2 <= c < g.end && |x| == ClusterSize(g) && Base(g, c) + |x| <= |d|
    requires 2 <= c' && k < ClusterSize(g)
    ensures ByteIn(g, Splice(d, Base(g, c), x), c', k) == if c' == c then x[k] else ByteIn(g, d, c', k)
  {
    var at := Base(g, c') + k;
    if c' != c && Base(g, c) <= at < Base(g, c) + |x| {
      ClustersApart(g, c', k, c, at - Base(g, c));
    }
  }
}
