// The disk and its read cache (block/ata.c).  The device is an array of bytes; a command succeeds, or it
// fails, and a failed write may have changed any part of its range.
module Disk {
  import opened Words

  const SECTOR: nat := 512
  const CACHE_ENTRIES: nat := 512
  const MAX_COMMAND: nat := 255
  const SECTORS: nat := 0x1_0000_0000

  /** What the device makes of a command: for a failed write, what the range holds afterwards. */
  datatype Outcome = Success | Failure(left: seq<Byte>)

  /** d with the bytes from `at` on replaced by x. */
  function Splice(d: seq<Byte>, at: nat, x: seq<Byte>): (r: seq<Byte>)
    requires at + |x| <= |d|
    ensures |r| == |d| && forall k :: 0 <= k < |d| ==> r[k] == if at <= k < at + |x| then x[k - at] else d[k]
  {
    d[..at] + x + d[at + |x|..]
  }

  /** Sector s of the disk. */
  function SectorOf(d: seq<Byte>, s: nat): (r: seq<Byte>)
    requires SECTOR * (s + 1) <= |d|
    ensures |r| == SECTOR
  {
    d[SECTOR * s..SECTOR * s + SECTOR]
  }

  class Ata {
    const disk: array<Byte>
    const cacheSector: array<nat>
    const cacheValid: array<bool>
    const cacheData: array<seq<Byte>>

    ghost predicate Shape() {
      && cacheSector.Length == cacheValid.Length == cacheData.Length == CACHE_ENTRIES
      && disk.Length % SECTOR == 0 && disk.Length <= SECTOR * SECTORS
    }

    /** What the cache holds for a slot is the current sector, in its own slot. */
    ghost predicate SlotOk(i: nat)
      requires Shape() && i < CACHE_ENTRIES
      reads disk, cacheSector, cacheValid, cacheData
    {
      cacheValid[i] ==>
        cacheSector[i] % CACHE_ENTRIES == i && SECTOR * (cacheSector[i] + 1) <= disk.Length
        && cacheData[i] == SectorOf(disk[..], cacheSector[i])
    }

    ghost predicate Valid()
      reads disk, cacheSector, cacheValid, cacheData
    {
      Shape() && forall i :: 0 <= i < CACHE_ENTRIES ==> SlotOk(i)
    }

    /** A disk of n sectors and an empty cache. */
    constructor (n: nat)
      requires n <= SECTORS
      ensures Valid() && disk.Length == SECTOR * n && fresh(disk) && fresh(cacheSector) && fresh(cacheValid)
      ensures fresh(cacheData)
    {
      disk := new Byte[SECTOR * n];
      cacheSector := new nat[CACHE_ENTRIES];
      cacheValid := new bool[CACHE_ENTRIES](_ => false);
      cacheData := new seq<Byte>[CACHE_ENTRIES];
    }

    // ----- the device -----

    /** ata_read_locked. */
    method DeviceRead(sec: nat, count: nat, outcome: Outcome) returns (ok: bool, data: seq<Byte>)
      requires Shape()
      ensures ok <==> outcome.Success? && SECTOR * (sec + count) <= disk.Length
      ensures ok ==> data == disk[SECTOR * sec..SECTOR * (sec + count)]
    {
      ok := outcome.Success? && SECTOR * (sec + count) <= disk.Length;
      data := if ok then disk[SECTOR * sec..SECTOR * (sec + count)] else [];
    }

    /** ata_write_locked; an address past the end is refused. */
    method DeviceWrite(sec: nat, count: nat, data: seq<Byte>, outcome: Outcome) returns (ok: bool)
      requires Shape() && |data| == SECTOR * count
      requires outcome.Failure? ==> |outcome.left| == |data|
      modifies disk
      ensures ok <==> outcome.Success? && SECTOR * (sec + count) <= disk.Length
      ensures ok ==> disk[..] == Splice(old(disk[..]), SECTOR * sec, data)
      ensures !ok ==>
        forall k :: 0 <= k < disk.Length && !(SECTOR * sec <= k < SECTOR * (sec + count)) ==> disk[k] == old(disk[k])
      ensures !ok && SECTOR * (sec + count) > disk.Length ==> disk[..] == old(disk[..])
    {
      if SECTOR * (sec + count) > disk.Length { return false; }
      ok := outcome.Success?;
      var bytes := if ok then data else outcome.left;
      var k := 0;
      while k < |bytes|
        invariant k <= |bytes| == SECTOR * count && SECTOR * sec + |bytes| <= disk.Length
        invariant disk[..] == Splice(old(disk[..]), SECTOR * sec, bytes[..k])
      {
        disk[SECTOR * sec + k] := bytes[k];
        k := k + 1;
      }
      assert bytes[..k] == bytes;
    }

    // ----- the cache -----

    method Invalidate(sec: nat)
      requires Shape()
      modifies cacheValid
      ensures forall i :: 0 <= i < CACHE_ENTRIES ==>
        cacheValid[i] == (old(cacheValid[i]) && !(i == sec % CACHE_ENTRIES && cacheSector[i] == sec))
    {
      var i := sec % CACHE_ENTRIES;
      if cacheValid[i] && cacheSector[i] == sec { cacheValid[i] := false; }
    }

    method Store(sec: nat, data: seq<Byte>)
      requires Valid() && SECTOR * (sec + 1) <= disk.Length && data == SectorOf(disk[..], sec)
      modifies cacheSector, cacheValid, cacheData
      ensures Valid()
    {
      var i := sec % CACHE_ENTRIES;
      cacheSector[i], cacheData[i], cacheValid[i] := sec, data, true;
      forall j | 0 <= j < CACHE_ENTRIES ensures SlotOk(j) {
        if j != i { assert old(SlotOk(j)); }
      }
    }

    // ----- the sector interface -----

    /** write_sectors: whatever becomes of the command, the cache agrees with the disk afterwards. */
    method WriteSectors(sec: nat, count: nat, data: seq<Byte>, outcome: Outcome) returns (ok: bool)
      requires Valid() && sec < SECTORS && |data| == SECTOR * count && (outcome.Failure? ==> |outcome.left| == |data|)
      modifies disk, cacheValid
      ensures Valid()
      ensures ok <==> 0 < count <= MAX_COMMAND && outcome.Success? && SECTOR * (sec + count) <= disk.Length
      ensures ok ==> disk[..] == Splice(old(disk[..]), SECTOR * sec, data)
      ensures forall k :: 0 <= k < disk.Length && !(SECTOR * sec <= k < SECTOR * (sec + count)) ==>
        disk[k] == old(disk[k])
    {
      if count == 0 || count > MAX_COMMAND { return false; }
      InvalidateRange(sec, count);
      ok := DeviceWrite(sec, count, data, outcome);
      forall i | 0 <= i < CACHE_ENTRIES ensures SlotOk(i) {
        if cacheValid[i] {
          assert old(SlotOk(i));
          var s := cacheSector[i];
          assert !(sec <= s < sec + count);
          assert SectorOf(disk[..], s) == SectorOf(old(disk[..]), s);
        }
      }
    }

    method InvalidateRange(sec: nat, count: nat)
      requires Valid() && sec < SECTORS && count <= MAX_COMMAND
      modifies cacheValid
      ensures Valid()
      ensures forall i :: 0 <= i < CACHE_ENTRIES && cacheValid[i] ==>
        old(cacheValid[i]) && !(sec <= cacheSector[i] < sec + count)
    {
      var n := 0;
      while n < count
        invariant n <= count && Valid()
        invariant forall i :: 0 <= i < CACHE_ENTRIES && cacheValid[i] ==>
          old(cacheValid[i]) && !(sec <= cacheSector[i] < sec + n)
      {
        label L:
        forall i | 0 <= i < CACHE_ENTRIES && cacheValid[i] ensures cacheSector[i] < SECTORS && cacheSector[i] % CACHE_ENTRIES == i {
          assert SlotOk(i);
        }
        Invalidate((sec + n) % SECTORS);
        forall i | 0 <= i < CACHE_ENTRIES ensures SlotOk(i) {
          assert cacheValid[i] ==> old@L(SlotOk(i));
        }
        n := n + 1;
      }
    }

    /** read_sectors: the disk's bytes, and the cache is refreshed. */
    method ReadSectors(sec: nat, count: nat, outcome: Outcome) returns (ok: bool, data: seq<Byte>)
      requires Valid() && sec < SECTORS
      modifies cacheSector, cacheValid, cacheData
      ensures Valid()
      ensures ok <==> 0 < count <= MAX_COMMAND && outcome.Success? && SECTOR * (sec + count) <= disk.Length
      ensures ok ==> data == disk[SECTOR * sec..SECTOR * (sec + count)]
    {
      data := [];
      if count == 0 || count > MAX_COMMAND { return false, data; }
      ok, data := DeviceRead(sec, count, outcome);
      if ok {
        var n := 0;
        while n < count
          invariant n <= count && Valid()
        {
          assert data[SECTOR * n..SECTOR * (n + 1)] == SectorOf(disk[..], sec + n);
          Store(sec + n, data[SECTOR * n..SECTOR * (n + 1)]);
          n := n + 1;
        }
      }
    }

    /** read_sec: what an uncached read would return, from the cache if it is there. */
    method ReadSec(sec: nat, outcome: Outcome) returns (ok: bool, data: seq<Byte>)
      requires Valid() && sec < SECTORS
      modifies cacheSector, cacheValid, cacheData
      ensures Valid()
      ensures outcome.Success? && SECTOR * (sec + 1) <= disk.Length ==> ok
      ensures ok ==> SECTOR * (sec + 1) <= disk.Length && data == SectorOf(disk[..], sec)
    {
      var i := sec % CACHE_ENTRIES;
      assert SlotOk(i);
      if cacheValid[i] && cacheSector[i] == sec { return true, cacheData[i]; }
      ok, data := DeviceRead(sec, 1, outcome);
      if !ok { return; }
      Store(sec, data);
    }
  }
}
