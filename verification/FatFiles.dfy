// Files on a FAT volume while one of them is being written: what has grown, what is kept, and what
// the file holds at every byte.
module FatFiles {
  import opened Words
  import opened Disk
  import opened FatTable

  /** Byte p of a file that held `old`, after `data` has been written at `pos`: a gap reads as zero. */
  function Wanted(old_: seq<Byte>, pos: nat, data: seq<Byte>, p: nat): Byte {
    if pos <= p < pos + |data| then data[p - pos] else if p < |old_| then old_[p] else 0
  }

  /** The file's whole contents after the write. */
  function Written(old_: seq<Byte>, pos: nat, data: seq<Byte>, n: nat): (s: seq<Byte>)
    ensures |s| == n && forall p :: 0 <= p < n ==> s[p] == Wanted(old_, pos, data, p)
  {
    if n == 0 then [] else Written(old_, pos, data, n - 1) + [Wanted(old_, pos, data, n - 1)]
  }

  /** Every byte of the chain's clusters is as wanted, those past the end included. */
  ghost predicate Holding(g: Geometry, d: seq<Byte>, ch: seq<nat>, old_: seq<Byte>, pos: nat, data: seq<Byte>) {
    forall i, k :: 0 <= i < |ch| && 0 <= k < ClusterSize(g) ==>
      ByteIn(g, d, ch[i], k) == Wanted(old_, pos, data, Offset(i, ClusterSize(g)) + k)
  }

  ghost predicate ClusterSame(g: Geometry, d: seq<Byte>, d': seq<Byte>, c: nat) {
    forall k :: 0 <= k < ClusterSize(g) ==> ByteIn(g, d', c, k) == ByteIn(g, d, c, k)
  }

  /** Outside the clusters of ch nothing changed. */
  ghost predicate OthersKept(g: Geometry, v0: Volume, v: Volume, ch: seq<nat>) {
    |v.fat| == |v0.fat| && forall c :: 0 <= c < |v0.fat| && c !in ch ==>
      v.fat[c] == v0.fat[c] && (c >= 2 ==> ClusterSame(g, v0.disk, v.disk, c))
  }

  /** The chain ch0 has grown to ch by clusters that were free; nothing else was touched. */
  ghost predicate Grown(g: Geometry, v0: Volume, ch0: seq<nat>, v: Volume, ch: seq<nat>) {
    && Mirrored(g, v0) && Mirrored(g, v) && |v.disk| == |v0.disk|
    && IsChain(v.fat, ch) && InVolume(g, ch) && ch0 <= ch
    && (forall i :: |ch0| <= i < |ch| ==> ch[i] < |v0.fat| && v0.fat[ch[i]] == 0)
    && OthersKept(g, v0, v, ch)
    && |FreeClusters(g, v.fat)| + |ch| == |FreeClusters(g, v0.fat)| + |ch0|
  }

  lemma GrownStart(g: Geometry, v: Volume, ch: seq<nat>)
    requires Mirrored(g, v) && IsChain(v.fat, ch) && InVolume(g, ch)
    ensures Grown(g, v, ch, v, ch)
  {
    hide GeometryOk, Mirrored, IsChain, ByteIn;
  }

  /** A file in order holds its contents, and zero past them. */
  lemma HoldingStart(g: Geometry, v: Volume, ch: seq<nat>, size: nat, pos: nat)
    requires FileOk(g, v, ch, size)
    ensures Holding(g, v.disk, ch, Content(g, v.disk, ch, size), pos, []) && ClusterSize(g) > 0
  {
    forall i, k | 0 <= i < |ch| && 0 <= k < ClusterSize(g)
      ensures ByteIn(g, v.disk, ch[i], k) == Wanted(Content(g, v.disk, ch, size), pos, [],
          Offset(i, ClusterSize(g)) + k)
    {
      HoldingByte(g, v, ch, size, pos, i, k);
    }
  }

  lemma HoldingByte(g: Geometry, v: Volume, ch: seq<nat>, size: nat, pos: nat, i: nat, k: nat)
    requires FileOk(g, v, ch, size) && i < |ch| && k < ClusterSize(g)
    ensures ByteIn(g, v.disk, ch[i], k) == Wanted(Content(g, v.disk, ch, size), pos, [], Offset(i, ClusterSize(g)) + k)
  {
    hide Mirrored, IsChain, ByteIn, Quot, Rem, Content, ClusterSize;
    var p := Offset(i, ClusterSize(g)) + k;
    Place(i, k, ClusterSize(g));
    Within(p, |ch|, ClusterSize(g));
    assert ByteAt(g, v.disk, ch, p) == ByteIn(g, v.disk, ch[i], k);
  }

  // ----- extending the chain -----

  /** A free cluster was zeroed and appended. */
  lemma GrownExtend(g: Geometry, v0: Volume, ch0: seq<nat>, v: Volume, ch: seq<nat>, f: nat, v': Volume)
    requires Grown(g, v0, ch0, v, ch) && 2 <= f < |v.fat| && f < g.end && v.fat[f] == 0
    requires Mirrored(g, v') && |v'.disk| == |v.disk| && v'.fat == Extend(v.fat, ch, f)
    requires forall c :: 2 <= c < |v.fat| && c != f ==> ClusterSame(g, v.disk, v'.disk, c)
    ensures Grown(g, v0, ch0, v', ch + [f])
  {
    hide GeometryOk, Mirrored, FreeClusters, ByteIn;
    FreeAfterExtend(g, v.fat, ch, f);
    ExtendChain(v.fat, ch, f);
    forall i | 0 <= i < |ch| ensures ch[i] != f { InChain(v.fat, ch, i); }
    assert f !in ch;
    var ch' := ch + [f];
    forall c | 0 <= c < |v0.fat| && c !in ch' ensures v'.fat[c] == v0.fat[c] && (c >= 2 ==> ClusterSame(g, v0.disk,
        v'.disk, c)) {
      assert c !in ch && c != f;
      if ch != [] { assert ch[|ch| - 1] in ch; }
      if c >= 2 { assert ClusterSame(g, v0.disk, v.disk, c) && ClusterSame(g, v.disk, v'.disk, c); }
    }
  }

  lemma HoldingExtend(g: Geometry, d: seq<Byte>, ch: seq<nat>, old_: seq<Byte>, pos: nat, data: seq<Byte>, f: nat,
          d': seq<Byte>)
    requires Holding(g, d, ch, old_, pos, data) && |old_| <= |ch| * ClusterSize(g)
    requires (data != [] ==> pos + |data| <= |ch| * ClusterSize(g))
    requires forall i :: 0 <= i < |ch| ==> ClusterSame(g, d, d', ch[i])
    requires forall k :: 0 <= k < ClusterSize(g) ==> ByteIn(g, d', f, k) == 0
    ensures Holding(g, d', ch + [f], old_, pos, data)
  {
    hide ByteIn, ClusterSize;
    var ch' := ch + [f];
    forall i, k | 0 <= i < |ch'| && 0 <= k < ClusterSize(g) ensures ByteIn(g, d', ch'[i], k) == Wanted(old_, pos, data,
        Offset(i, ClusterSize(g)) + k) {
      if i < |ch| {
        assert ClusterSame(g, d, d', ch[i]);
      }
    }
  }

  // ----- filling one cluster -----

  lemma GrownFill(g: Geometry, v0: Volume, ch0: seq<nat>, v: Volume, ch: seq<nat>, i: nat, x: seq<Byte>, v': Volume)
    requires Grown(g, v0, ch0, v, ch) && i < |ch| && |x| == ClusterSize(g) && Base(g, ch[i]) + |x| <= |v.disk|
    requires v' == Volume(Splice(v.disk, Base(g, ch[i]), x), v.fat)
    ensures Grown(g, v0, ch0, v', ch)
  {
    ClusterWritten(g, v, ch[i], x, v');
    hide GeometryOk, ByteIn, FreeClusters, ClusterSize, Splice;
    forall c | 0 <= c < |v0.fat| && c !in ch ensures v'.fat[c] == v0.fat[c] && (c >= 2 ==> ClusterSame(g, v0.disk,
        v'.disk, c)) {
      if c >= 2 {
        OtherClusterSame(g, v.disk, ch[i], x, c);
        assert ClusterSame(g, v0.disk, v.disk, c);
      }
    }
  }

  lemma OtherClusterSame(g: Geometry, d: seq<Byte>, c: nat, x: seq<Byte>, c': nat)
    requires GeometryOk(g, |d|) && 2 <= c < g.end && |x| == ClusterSize(g) && Base(g, c) + |x| <= |d| && 2 <= c'
    requires c' != c
    ensures ClusterSame(g, d, Splice(d, Base(g, c), x), c')
  {
    forall k | 0 <= k < ClusterSize(g) ensures ByteIn(g, Splice(d, Base(g, c), x), c', k) == ByteIn(g, d, c', k) {
      ByteAfterWrite(g, d, c, x, c', k);
    }
  }

  /** The cluster that holds bytes [at, at + n) of the file was rewritten with the new bytes in place. */
  lemma HoldingFill(g: Geometry, d: seq<Byte>, ch: seq<nat>, old_: seq<Byte>, pos: nat, data: seq<Byte>, w: nat,
          n: nat, i: nat, x: seq<Byte>)
    requires w + n <= |data| && Holding(g, d, ch, old_, pos, data[..w]) && i < |ch|
    requires GeometryOk(g, |d|) && |x| == ClusterSize(g) && Base(g, ch[i]) + |x| <= |d|
    requires forall j :: 0 <= j < |ch| ==> 2 <= ch[j] < g.end
    requires forall j, k :: 0 <= j < k < |ch| ==> ch[j] != ch[k]
    requires Offset(i, ClusterSize(g)) <= pos + w && pos + w + n <= Offset(i, ClusterSize(g)) + ClusterSize(g)
    requires forall k :: 0 <= k < ClusterSize(g) ==>
      x[k] == Wanted(old_, pos, data[..w + n], Offset(i, ClusterSize(g)) + k)
    ensures Holding(g, Splice(d, Base(g, ch[i]), x), ch, old_, pos, data[..w + n])
  {
    var d' := Splice(d, Base(g, ch[i]), x);
    hide GeometryOk, Base, ByteIn, ClusterSize, Splice, Wanted, Clusters;
    forall j, k | 0 <= j < |ch| && 0 <= k < ClusterSize(g)
      ensures ByteIn(g, d', ch[j], k) == Wanted(old_, pos, data[..w + n], Offset(j, ClusterSize(g)) + k)
    {
      FilledByte(g, d, ch, old_, pos, data, w, n, i, x, j, k);
    }
  }

  lemma FilledByte(g: Geometry, d: seq<Byte>, ch: seq<nat>, old_: seq<Byte>, pos: nat, data: seq<Byte>, w: nat, n: nat,
          i: nat, x: seq<Byte>, j: nat, k: nat)
    requires w + n <= |data| && Holding(g, d, ch, old_, pos, data[..w]) && i < |ch| && j < |ch| && k < ClusterSize(g)
    requires GeometryOk(g, |d|) && |x| == ClusterSize(g) && Base(g, ch[i]) + |x| <= |d| && 2 <= ch[i] < g.end
    requires 2 <= ch[j] < g.end
    requires j != i ==> ch[j] != ch[i]
    requires Offset(i, ClusterSize(g)) <= pos + w && pos + w + n <= Offset(i, ClusterSize(g)) + ClusterSize(g)
    requires x[k] == Wanted(old_, pos, data[..w + n], Offset(i, ClusterSize(g)) + k)
    ensures ByteIn(g, Splice(d, Base(g, ch[i]), x), ch[j], k) == Wanted(old_, pos, data[..w + n],
        Offset(j, ClusterSize(g)) + k)
  {
    hide GeometryOk, Base, ByteIn, ClusterSize, Splice, Wanted, Clusters;
    ByteAfterWrite(g, d, ch[i], x, ch[j], k);
    if j != i { ElsewhereSame(old_, pos, data, w, n, i, j, k, ClusterSize(g)); }
  }

  /** Bytes of other clusters do not depend on the newly written part. */
  lemma ElsewhereSame(old_: seq<Byte>, pos: nat, data: seq<Byte>, w: nat, n: nat, i: nat, j: nat, k: nat, cs: nat)
    requires w + n <= |data| && Offset(i, cs) <= pos + w && pos + w + n <= Offset(i, cs) + cs && j != i && k < cs
    ensures Wanted(old_, pos, data[..w + n], Offset(j, cs) + k) == Wanted(old_, pos, data[..w], Offset(j, cs) + k)
  {
    if j < i { MulMono(j + 1, i, cs); } else { MulMono(i + 1, j, cs); }
  }

  // ----- the end -----

  /** What holds everywhere in the clusters holds in the contents, and leaves the file in order. */
  lemma HoldingEnd(g: Geometry, v: Volume, ch: seq<nat>, old_: seq<Byte>, pos: nat, data: seq<Byte>, size: nat)
    requires Mirrored(g, v) && IsChain(v.fat, ch) && InVolume(g, ch) && Holding(g, v.disk, ch, old_, pos, data)
    requires |old_| <= size && pos + |data| <= size <= |ch| * ClusterSize(g) && ClusterSize(g) > 0
    ensures FileOk(g, v, ch, size) && Content(g, v.disk, ch, size) == Written(old_, pos, data, size)
  {
    forall p | 0 <= p < |ch| * ClusterSize(g) ensures ByteAt(g, v.disk, ch, p) == Wanted(old_, pos, data, p) {
      HoldingAt(g, v.disk, ch, old_, pos, data, p);
    }
    hide Mirrored, IsChain, ByteAt, ClusterSize;
  }

  lemma HoldingAt(g: Geometry, d: seq<Byte>, ch: seq<nat>, old_: seq<Byte>, pos: nat, data: seq<Byte>, p: nat)
    requires Holding(g, d, ch, old_, pos, data) && p < |ch| * ClusterSize(g) && ClusterSize(g) > 0
    ensures ByteAt(g, d, ch, p) == Wanted(old_, pos, data, p)
  {
    hide Quot, Rem, ByteIn, ClusterSize, Wanted;
    QuotRem(p, ClusterSize(g));
    Within(p, |ch|, ClusterSize(g));
  }

  // ----- other files -----

  /** A file whose chain shares no cluster with the written one keeps its chain and every byte. */
  lemma OtherFileKept(g: Geometry, v0: Volume, ch0: seq<nat>, v: Volume, ch: seq<nat>, other: seq<nat>, size: nat)
    requires Grown(g, v0, ch0, v, ch) && FileOk(g, v0, other, size) && FatTable.Apart(other, ch0)
    ensures FileOk(g, v, other, size) && FatTable.Apart(other, ch)
    ensures Content(g, v.disk, other, size) == Content(g, v0.disk, other, size)
  {
    forall i, j | 0 <= i < |other| && 0 <= j < |ch| ensures other[i] != ch[j] {
      InChain(v0.fat, other, i);
      if j < |ch0| { assert ch0[j] == ch[j]; }
    }
    OtherBytes(g, v0, v, ch, other, size);
  }

  lemma OtherBytes(g: Geometry, v0: Volume, v: Volume, ch: seq<nat>, other: seq<nat>, size: nat)
    requires FileOk(g, v0, other, size) && Mirrored(g, v) && OthersKept(g, v0, v, ch) && FatTable.Apart(other, ch)
    ensures FileOk(g, v, other, size) && Content(g, v.disk, other, size) == Content(g, v0.disk, other, size)
  {
    forall i | 0 <= i < |other| ensures v.fat[other[i]] == v0.fat[other[i]] && ClusterSame(g, v0.disk, v.disk,
        other[i]) {
      assert other[i] !in ch;
    }
    assert ClusterSize(g) > 0;
    hide GeometryOk, Mirrored, ByteIn, ClusterSame, ClusterSize, Clusters;
    OtherChainStays(v0.fat, v.fat, other);
    hide IsChain;
    forall p ensures ByteAt(g, v.disk, other, p) == ByteAt(g, v0.disk, other, p) {
      OtherByte(g, v0.disk, v.disk, other, p);
    }
  }

  lemma OtherByte(g: Geometry, d: seq<Byte>, d': seq<Byte>, other: seq<nat>, p: nat)
    requires ClusterSize(g) > 0 && forall i :: 0 <= i < |other| ==> ClusterSame(g, d, d', other[i])
    ensures ByteAt(g, d', other, p) == ByteAt(g, d, other, p)
  {
    hide ByteIn, Quot, Rem, ClusterSize;
    QuotRem(p, ClusterSize(g));
    if Quot(p, ClusterSize(g)) < |other| {
      assert ClusterSame(g, d, d', other[Quot(p, ClusterSize(g))]);
    }
  }

  // ----- the state of a write in progress -----

  function Zeros(n: nat): (s: seq<Byte>)
    ensures |s| == n && forall k :: 0 <= k < n ==> s[k] == 0
  {
    if n == 0 then [] else Zeros(n - 1) + [0]
  }

  /** The first w bytes of data are in the file at pos, in a chain grown from ch0. */
  ghost predicate Writing(g: Geometry, v0: Volume, ch0: seq<nat>, v: Volume, ch: seq<nat>, old_: seq<Byte>, pos: nat,
          data: seq<Byte>, w: nat) {
    && w <= |data| && 0 < ClusterSize(g) && Grown(g, v0, ch0, v, ch) && Holding(g, v.disk, ch, old_, pos, data[..w])
    && |old_| <= |ch| * ClusterSize(g) && (w > 0 ==> pos + w <= |ch| * ClusterSize(g))
  }

  lemma WritingStart(g: Geometry, v: Volume, ch: seq<nat>, size: nat, pos: nat, data: seq<Byte>)
    requires FileOk(g, v, ch, size)
    ensures Writing(g, v, ch, v, ch, Content(g, v.disk, ch, size), pos, data, 0)
  {
    hide Mirrored, IsChain, Holding, Grown;
    GrownStart(g, v, ch);
    HoldingStart(g, v, ch, size, pos);
    assert data[..0] == [];
  }

  lemma WritingExtend(g: Geometry, v0: Volume, ch0: seq<nat>, v: Volume, ch: seq<nat>, old_: seq<Byte>, pos: nat,
          data: seq<Byte>, w: nat, f: nat, v': Volume)
    requires Writing(g, v0, ch0, v, ch, old_, pos, data, w) && 2 <= f < |v.fat| && f < g.end && v.fat[f] == 0
    requires Mirrored(g, v') && |v'.disk| == |v.disk| && v'.fat == Extend(v.fat, ch, f)
    requires forall c :: 2 <= c < |v.fat| && c != f ==> ClusterSame(g, v.disk, v'.disk, c)
    requires forall k :: 0 <= k < ClusterSize(g) ==> ByteIn(g, v'.disk, f, k) == 0
    ensures Writing(g, v0, ch0, v', ch + [f], old_, pos, data, w)
  {
    forall i | 0 <= i < |ch| ensures ClusterSame(g, v.disk, v'.disk, ch[i]) { InChain(v.fat, ch, i); }
    hide Grown, Holding, ByteIn, ClusterSame, Extend, Mirrored, ClusterSize;
    GrownExtend(g, v0, ch0, v, ch, f, v');
    HoldingExtend(g, v.disk, ch, old_, pos, data[..w], f, v'.disk);
    MulMono(|ch|, |ch + [f]|, ClusterSize(g));
  }

  /** The cluster at index i was rewritten with the next n bytes in place. */
  lemma WritingFill(g: Geometry, v0: Volume, ch0: seq<nat>, v: Volume, ch: seq<nat>, old_: seq<Byte>, pos: nat,
          data: seq<Byte>, w: nat, n: nat, i: nat, x: seq<Byte>, v': Volume)
    requires Writing(g, v0, ch0, v, ch, old_, pos, data, w) && w + n <= |data| && i < |ch| && |x| == ClusterSize(g)
    requires Base(g, ch[i]) + |x| <= |v.disk|
    requires Offset(i, ClusterSize(g)) <= pos + w && pos + w + n <= Offset(i, ClusterSize(g)) + ClusterSize(g)
    requires forall k :: 0 <= k < ClusterSize(g) ==>
      x[k] == Wanted(old_, pos, data[..w + n], Offset(i, ClusterSize(g)) + k)
    requires v' == Volume(Splice(v.disk, Base(g, ch[i]), x), v.fat)
    ensures Writing(g, v0, ch0, v', ch, old_, pos, data, w + n)
  {
    ChainFacts(g, v0, ch0, v, ch);
    hide Grown, Holding, ByteIn, Wanted, GeometryOk, Mirrored, ClusterSize, Base, Splice, Clusters;
    GrownFill(g, v0, ch0, v, ch, i, x, v');
    HoldingFill(g, v.disk, ch, old_, pos, data, w, n, i, x);
    MulMono(i + 1, |ch|, ClusterSize(g));
  }

  lemma ChainFacts(g: Geometry, v0: Volume, ch0: seq<nat>, v: Volume, ch: seq<nat>)
    requires Grown(g, v0, ch0, v, ch)
    ensures GeometryOk(g, |v.disk|) && |v.fat| == Clusters(g) && 0 < ClusterSize(g)
    ensures forall j :: 0 <= j < |ch| ==> 2 <= ch[j] < g.end
    ensures forall j, k :: 0 <= j < k < |ch| ==> ch[j] != ch[k]
  {
  }

  /** The bytes of one cluster after the next n bytes are put in: what the driver's buffer holds. */
  lemma BufferRight(old_: seq<Byte>, pos: nat, data: seq<Byte>, w: nat, n: nat, start: nat, off: nat, cs: nat,
          base: seq<Byte>, zeroed: seq<Byte>, x: seq<Byte>)
    requires w + n <= |data| && pos + w == start + off && off + n <= cs == |base|
    requires (forall k :: 0 <= k < cs ==> base[k] == Wanted(old_, pos, data[..w], start + k)) || (off == 0 && n == cs)
    requires |zeroed| == cs && forall k :: 0 <= k < cs ==> zeroed[k] == if |old_| <= start + k < pos then 0 else base[k]
    requires x == Splice(zeroed, off, data[w..w + n])
    ensures |x| == cs && forall k :: 0 <= k < cs ==> x[k] == Wanted(old_, pos, data[..w + n], start + k)
  {
  }

  /** What reading the cluster at index i gives. */
  lemma ReadsWanted(g: Geometry, v0: Volume, ch0: seq<nat>, v: Volume, ch: seq<nat>, old_: seq<Byte>, pos: nat,
          data: seq<Byte>, w: nat, i: nat, base: seq<Byte>)
    requires Writing(g, v0, ch0, v, ch, old_, pos, data, w) && i < |ch| && |base| == ClusterSize(g)
    requires forall k :: 0 <= k < ClusterSize(g) ==> base[k] == ByteIn(g, v.disk, ch[i], k)
    ensures forall k :: 0 <= k < ClusterSize(g) ==>
      base[k] == Wanted(old_, pos, data[..w], Offset(i, ClusterSize(g)) + k)
  {
    assert Holding(g, v.disk, ch, old_, pos, data[..w]);
    hide Writing, Grown, ByteIn, Wanted, ClusterSize;
  }

  /** While a cluster is missing, one is free. */
  lemma RoomLeft(g: Geometry, v0: Volume, ch0: seq<nat>, v: Volume, ch: seq<nat>, pos: nat, count: nat, w: nat)
    requires Grown(g, v0, ch0, v, ch) && w < count && |ch| <= Quot(pos + w, ClusterSize(g)) && 0 < ClusterSize(g)
    requires |FreeClusters(g, v0.fat)| + |ch0| > Quot(pos + count - 1, ClusterSize(g))
    ensures |FreeClusters(g, v.fat)| > 0
  {
    hide Quot, Rem, ClusterSize, Mirrored, IsChain, OthersKept;
    QuotMono(pos + w, pos + count - 1, ClusterSize(g));
  }

  // ----- directory entries -----

  const ENTRY: nat := 32
  const ENTRY_SIZES: nat := 0x1_0000_0000

  /** First cluster and size as the directory entry at `off` in cluster dc has them. */
  function EntryFirst(g: Geometry, d: seq<Byte>, dc: nat, off: nat): nat {
    Join(ByteIn(g, d, dc, off + 26), ByteIn(g, d, dc, off + 27), ByteIn(g, d, dc, off + 20), ByteIn(g, d, dc, off + 21))
  }

  function EntrySize(g: Geometry, d: seq<Byte>, dc: nat, off: nat): nat {
    Join(ByteIn(g, d, dc, off + 28), ByteIn(g, d, dc, off + 29), ByteIn(g, d, dc, off + 30), ByteIn(g, d, dc, off + 31))
  }

  /** The bytes of a directory entry that hold the first cluster and the size. */
  predicate EntryField(off: nat, k: nat) { off + 20 <= k < off + 22 || off + 26 <= k < off + 32 }

  /** Only cluster dc changed, and in it only the bytes with `changes`. */
  ghost predicate OnlyCluster(g: Geometry, v: Volume, v': Volume, dc: nat) {
    Mirrored(g, v') && v'.fat == v.fat && |v'.disk| == |v.disk| && OthersKept(g, v, v', [dc])
  }

  /** In the directory's cluster, only the entry's first cluster and size changed; the cluster is linked as before. */
  ghost predicate EntryOnly(g: Geometry, v: Volume, v': Volume, dc: nat, off: nat) {
    && dc < |v.fat| == |v'.fat| && v'.fat[dc] == v.fat[dc]
    && forall k :: 0 <= k < ClusterSize(g) && !EntryField(off, k) ==>
      ByteIn(g, v'.disk, dc, k) == ByteIn(g, v.disk, dc, k)
  }

  lemma PutIsOnly(g: Geometry, v: Volume, dc: nat, x: seq<Byte>, v': Volume)
    requires Mirrored(g, v) && 2 <= dc < g.end && |x| == ClusterSize(g) && Base(g, dc) + |x| <= |v.disk|
    requires v' == Volume(Splice(v.disk, Base(g, dc), x), v.fat)
    ensures OnlyCluster(g, v, v', dc)
    ensures forall k :: 0 <= k < ClusterSize(g) ==> ByteIn(g, v'.disk, dc, k) == x[k]
  {
    ClusterWritten(g, v, dc, x, v');
    forall c | 0 <= c < |v.fat| && c !in [dc] && c >= 2 ensures ClusterSame(g, v.disk, v'.disk, c) {
      OtherClusterSame(g, v.disk, dc, x, c);
    }
    forall k | 0 <= k < ClusterSize(g) ensures ByteIn(g, v'.disk, dc, k) == x[k] {
      ByteAfterWrite(g, v.disk, dc, x, dc, k);
    }
  }

  /** A file that does not use the directory's cluster is not affected by a change there. */
  lemma FileAfterOnly(g: Geometry, v: Volume, v': Volume, dc: nat, ch: seq<nat>, size: nat)
    requires FileOk(g, v, ch, size) && OnlyCluster(g, v, v', dc) && dc !in ch
    ensures FileOk(g, v', ch, size) && Content(g, v'.disk, ch, size) == Content(g, v.disk, ch, size)
  {
    hide GeometryOk, Mirrored, IsChain, ByteAt, OthersKept;
    OtherBytes(g, v, v', [dc], ch, size);
  }

  /** What a finished write leaves of everything else. */
  lemma OthersKeptBoth(g: Geometry, v0: Volume, v: Volume, v': Volume, ch: seq<nat>, dc: nat)
    requires OthersKept(g, v0, v, ch) && OnlyCluster(g, v, v', dc)
    ensures OthersKept(g, v0, v', ch + [dc])
  {
    hide Mirrored, ByteIn;
    forall c | 0 <= c < |v0.fat| && c !in ch + [dc] ensures v'.fat[c] == v0.fat[c] && (c >= 2 ==> ClusterSame(g,
        v0.disk, v'.disk, c)) {
      assert c !in ch && c !in [dc];
      if c >= 2 { assert ClusterSame(g, v0.disk, v.disk, c) && ClusterSame(g, v.disk, v'.disk, c); }
    }
  }

  lemma OthersKeptMore(g: Geometry, v0: Volume, v: Volume, ch: seq<nat>, dc: nat)
    requires OthersKept(g, v0, v, ch)
    ensures OthersKept(g, v0, v, ch + [dc])
  {
    hide ByteIn;
  }

  /** Clusters the write took were free, so a directory's cluster is not among them. */
  lemma NotTaken(g: Geometry, v0: Volume, ch0: seq<nat>, v: Volume, ch: seq<nat>, dc: nat)
    requires Grown(g, v0, ch0, v, ch) && dc !in ch0 && dc < |v0.fat| && v0.fat[dc] != 0
    ensures dc !in ch
  {
    forall i | 0 <= i < |ch| ensures ch[i] != dc {
      if i < |ch0| { assert ch0[i] == ch[i]; }
    }
  }

  lemma WritingEnd(g: Geometry, v0: Volume, ch0: seq<nat>, v: Volume, ch: seq<nat>, old_: seq<Byte>, pos: nat,
          data: seq<Byte>, size: nat)
    requires Writing(g, v0, ch0, v, ch, old_, pos, data, |data|) && data != []
    requires size == if pos + |data| > |old_| then pos + |data| else |old_|
    ensures FileOk(g, v, ch, size) && Content(g, v.disk, ch, size) == Written(old_, pos, data, size)
    ensures Grown(g, v0, ch0, v, ch)
  {
    assert data[..|data|] == data;
    hide Holding, GeometryOk, OthersKept, FreeClusters, IsChain, ClusterSize;
    HoldingEnd(g, v, ch, old_, pos, data, size);
  }

  // ----- reading a run of adjacent clusters -----

  /** n clusters of the chain from index i on are adjacent on the disk. */
  ghost predicate Adjacent(ch: seq<nat>, i: nat, n: nat) {
    i + n <= |ch| && forall j :: i <= j < i + n ==> ch[j] == ch[i] + (j - i)
  }

  /** Where the j-th cluster of a run is. */
  lemma RunPlace(g: Geometry, v: Volume, ch: seq<nat>, i: nat, n: nat, j: nat)
    requires Mirrored(g, v) && IsChain(v.fat, ch) && InVolume(g, ch) && Adjacent(ch, i, n) && j < n
    ensures Base(g, ch[i]) + Offset(j, ClusterSize(g)) == Base(g, ch[i + j])
    ensures Base(g, ch[i + j]) + ClusterSize(g) <= |v.disk| && 0 < ClusterSize(g)
  {
    assert ch[i + j] == ch[i] + j && 2 <= ch[i] < |v.fat| && 2 <= ch[i + j] < |v.fat|;
    ClusterInside(g, |v.disk|, ch[i + j]);
    BaseStep(g, ch[i], j);
  }

  /** Byte m of a run is byte m from index i on in the file. */
  lemma RunByte(g: Geometry, v: Volume, ch: seq<nat>, i: nat, n: nat, m: nat, p: nat)
    requires Mirrored(g, v) && IsChain(v.fat, ch) && InVolume(g, ch) && Adjacent(ch, i, n) && m < n * ClusterSize(g)
    requires n > 0 && p == Offset(i, ClusterSize(g)) + m
    ensures Base(g, ch[i]) + m < |v.disk| && v.disk[Base(g, ch[i]) + m] == ByteAt(g, v.disk, ch, p)
  {
    hide *;
    RunPlace(g, v, ch, i, n, 0);
    RunLength(ch, i, n);
    RunIndex(i, m, n, ClusterSize(g));
    RunPlace(g, v, ch, i, n, Quot(m, ClusterSize(g)));
    ByteThere(g, v.disk, ch, i + Quot(m, ClusterSize(g)), Rem(m, ClusterSize(g)), p);
  }

  lemma RunIndex(i: nat, m: nat, n: nat, cs: nat)
    requires cs > 0 && m < n * cs
    ensures Quot(m, cs) < n && Rem(m, cs) < cs && m == Offset(Quot(m, cs), cs) + Rem(m, cs)
    ensures Quot(Offset(i, cs) + m, cs) == i + Quot(m, cs) && Rem(Offset(i, cs) + m, cs) == Rem(m, cs)
  {
    QuotRem(m, cs);
    Within(m, n, cs);
    hide Quot, Rem;
    SumOfProducts(i, Quot(m, cs), cs);
    Place(i + Quot(m, cs), Rem(m, cs), cs);
  }

  lemma RunLength(ch: seq<nat>, i: nat, n: nat)
    requires Adjacent(ch, i, n)
    ensures i + n <= |ch|
  {
  }

  lemma ByteThere(g: Geometry, d: seq<Byte>, ch: seq<nat>, i: nat, k: nat, p: nat)
    requires i < |ch| && Quot(p, ClusterSize(g)) == i && Rem(p, ClusterSize(g)) == k && Base(g, ch[i]) + k < |d|
    ensures ByteAt(g, d, ch, p) == d[Base(g, ch[i]) + k]
  {
    hide Quot, Rem, Base, ClusterSize;
  }

  lemma SumOfProducts(i: nat, j: nat, cs: nat)
    ensures Offset(i, cs) + j * cs == Offset(i + j, cs)
  {
  }

  lemma RunInside(g: Geometry, v: Volume, ch: seq<nat>, i: nat, n: nat)
    requires Mirrored(g, v) && IsChain(v.fat, ch) && InVolume(g, ch) && Adjacent(ch, i, n) && n > 0
    ensures Base(g, ch[i]) + n * ClusterSize(g) <= |v.disk|
  {
    RunPlace(g, v, ch, i, n, n - 1);
    hide Mirrored, IsChain, GeometryOk, Base, ClusterSize, Clusters, Adjacent;
    SumOfProducts(n - 1, 1, ClusterSize(g));
  }

  /** Reading the run gives the file's bytes. */
  lemma RunBytes(g: Geometry, v: Volume, ch: seq<nat>, size: nat, i: nat, n: nat, data: seq<Byte>)
    requires FileOk(g, v, ch, size) && Adjacent(ch, i, n) && n > 0
    requires 0 <= Offset(i, ClusterSize(g)) <= Offset(i, ClusterSize(g)) + n * ClusterSize(g) <= size
    requires Base(g, ch[i]) + n * ClusterSize(g) <= |v.disk|
    requires data == v.disk[Base(g, ch[i])..Base(g, ch[i]) + n * ClusterSize(g)]
    ensures data == Content(g, v.disk, ch, size)[Offset(i, ClusterSize(g))..Offset(i,
        ClusterSize(g)) + n * ClusterSize(g)]
  {
    hide Mirrored, IsChain, Base, ClusterSize, ByteAt, Adjacent, Content;
    var s := Content(g, v.disk, ch, size)[Offset(i, ClusterSize(g))..Offset(i, ClusterSize(g)) + n * ClusterSize(g)];
    forall m | 0 <= m < |data| ensures data[m] == s[m] {
      RunByte(g, v, ch, i, n, m, Offset(i, ClusterSize(g)) + m);
    }
  }

  /** Reading part of one cluster gives the file's bytes. */
  lemma PartBytes(g: Geometry, v: Volume, ch: seq<nat>, size: nat, i: nat, off: nat, n: nat, cluster: seq<Byte>)
    requires FileOk(g, v, ch, size) && i < |ch| && off + n <= ClusterSize(g) == |cluster|
    requires Offset(i, ClusterSize(g)) + off + n <= size
    requires forall k :: 0 <= k < ClusterSize(g) ==> cluster[k] == ByteIn(g, v.disk, ch[i], k)
    ensures cluster[off..off + n] == Content(g, v.disk, ch,
        size)[Offset(i, ClusterSize(g)) + off..Offset(i, ClusterSize(g)) + off + n]
  {
    var data, s := cluster[off..off + n], Content(g, v.disk, ch,
        size)[Offset(i, ClusterSize(g)) + off..Offset(i, ClusterSize(g)) + off + n];
    hide Mirrored, IsChain, ClusterSize, Content, ByteIn, Quot, Rem;
    forall m | 0 <= m < n ensures data[m] == s[m] {
      Place(i, off + m, ClusterSize(g));
    }
  }

  // ----- freeing a chain -----

  /** The entries of ch are zero, all others as before. */
  ghost predicate IsFreed(fat: seq<nat>, fat': seq<nat>, ch: seq<nat>) {
    |fat'| == |fat| && forall c :: 0 <= c < |fat| ==> fat'[c] == if c in ch then 0 else fat[c]
  }

  function NonZero(fat: seq<nat>): set<nat> { set c | 0 <= c < |fat| && fat[c] != 0 }

  lemma NonZeroShrinks(fat: seq<nat>, c: nat)
    requires c < |fat| && fat[c] != 0
    ensures |NonZero(fat[c := 0])| < |NonZero(fat)|
  {
    assert NonZero(fat) == NonZero(fat[c := 0]) + {c};
  }

  /** How far the freeing loop has come, if it was started on a chain. */
  ghost predicate Freeing(fat0: seq<nat>, fat: seq<nat>, ch: seq<nat>, i: nat, cluster: nat) {
    && i <= |ch| && IsFreed(fat0, fat, ch[..i])
    && (i < |ch| ==> cluster == ch[i]) && (i == |ch| ==> cluster == 0 || cluster >= EOC)
  }

  lemma FreeingNext(fat0: seq<nat>, fat: seq<nat>, ch: seq<nat>, i: nat, cluster: nat)
    requires IsChain(fat0, ch) && Freeing(fat0, fat, ch, i, cluster) && 2 <= cluster < EOC && cluster < |fat|
    ensures i < |ch| && Freeing(fat0, fat[cluster := 0], ch, i + 1, fat[cluster])
  {
    forall j | 0 <= j < i ensures ch[j] != ch[i] {}
    assert ch[i] !in ch[..i];
    assert ch[..i + 1] == ch[..i] + [ch[i]];
    if i < |ch| - 1 { assert fat0[ch[i]] == ch[i + 1]; }
  }

  function Members(ch: seq<nat>): set<nat> { set c | c in ch }

  /** Every cluster of the chain is free afterwards, and no other cluster became free. */
  lemma FreedClusters(g: Geometry, fat: seq<nat>, fat': seq<nat>, ch: seq<nat>)
    requires IsChain(fat, ch) && InVolume(g, ch) && IsFreed(fat, fat', ch)
    ensures FreeClusters(g, fat') == FreeClusters(g, fat) + Members(ch)
    ensures |FreeClusters(g, fat')| == |FreeClusters(g, fat)| + |ch|
  {
    forall i | 0 <= i < |ch| ensures 2 <= ch[i] < |fat| && fat[ch[i]] != 0 { InChain(fat, ch, i); }
    forall c | c in Members(ch) ensures 2 <= c < |fat| && fat[c] != 0 {
      var i :| 0 <= i < |ch| && ch[i] == c;
    }
    Distinct(ch);
    assert FreeClusters(g, fat') == FreeClusters(g, fat) + Members(ch);
    assert FreeClusters(g, fat) !! Members(ch);
  }

  lemma {:induction false} Distinct(ch: seq<nat>)
    requires forall i, j :: 0 <= i < j < |ch| ==> ch[i] != ch[j]
    ensures |Members(ch)| == |ch|
  {
    if ch != [] {
      var n := |ch| - 1;
      Distinct(ch[..n]);
      assert ch == ch[..n] + [ch[n]];
      assert Members(ch) == Members(ch[..n]) + {ch[n]};
    }
  }

  lemma FreedKept(g: Geometry, v: Volume, v': Volume, ch: seq<nat>)
    requires Mirrored(g, v) && IsFreed(v.fat, v'.fat, ch) && DataKept(g, v.disk, v'.disk)
    ensures OthersKept(g, v, v', ch)
  {
    forall c, k | 2 <= c < |v.fat| && 0 <= k < ClusterSize(g) ensures ByteIn(g, v'.disk, c, k) == ByteIn(g, v.disk, c,
        k) {
      ClusterKept(g, v.disk, v'.disk, c, k);
    }
    hide ByteIn, ClusterSize, GeometryOk;
  }

  // ----- deleting a directory entry -----

  const UNUSED: Byte := 0xe5
  const LONG_NAME: Byte := 0xf
  const ATTRIBUTE: nat := 11

  /** The n records just before `off` are long-name records and marked unused, as is the record at `off`;
      the record before them, if any, is none; nothing else changed. */
  ghost predicate Deleted(dir: seq<Byte>, dir': seq<Byte>, off: nat, n: nat) {
    && |dir'| == |dir| && n * ENTRY <= off < |dir|
    && (forall j :: 1 <= j <= n ==> LongNameAt(dir, off - j * ENTRY))
    && (off >= (n + 1) * ENTRY ==> !LongNameAt(dir, off - (n + 1) * ENTRY))
    && MarkedUpTo(dir, dir', off, n)
  }

  ghost predicate MarkedUpTo(dir: seq<Byte>, dir': seq<Byte>, off: nat, n: nat) {
    |dir'| == |dir| && forall k :: 0 <= k < |dir| ==>
      dir'[k] == if k <= off && (off - k) % ENTRY == 0 && off - k <= n * ENTRY then UNUSED else dir[k]
  }

  predicate LongNameAt(dir: seq<Byte>, at: int) {
    0 <= at && at + ATTRIBUTE < |dir| && dir[at + ATTRIBUTE] == LONG_NAME
  }

  lemma MarkNext(dir: seq<Byte>, dir1: seq<Byte>, off: nat, n: nat, at: nat)
    requires MarkedUpTo(dir, dir1, off, n) && at == off - (n + 1) * ENTRY && off < |dir|
    ensures MarkedUpTo(dir, dir1[at := UNUSED], off, n + 1)
    ensures at + ATTRIBUTE < |dir| && dir1[at + ATTRIBUTE] == dir[at + ATTRIBUTE]
  {
  }
}
