// One pipe (fs/pipe.c): a ring buffer with endpoint counts and two wait flags, changed under its lock.
// Each method is one locked region; what it does to the pipe's value is a function, which the
// sleep and wakeup protocol of Wakeup.dfy takes as one step.
module Pipes {
  import opened Words

  const CAPACITY: nat := 4096

  /** A pipe between two locked regions: the buffered bytes, the open ends, the wait flags, and everything ever put in
      and taken out. */
  datatype Pipe = Pipe(buf: seq<Byte>, readers: nat, writers: nat, readWait: bool, writeWait: bool, put: seq<Byte>,
      got: seq<Byte>)

  /** What holds whenever the lock is free. */
  predicate PipeOk(p: Pipe) {
    && |p.buf| <= CAPACITY
    && p.put == p.got + p.buf
    && (p.readWait ==> p.buf == [] && p.writers > 0)
    && (p.writeWait ==> |p.buf| == CAPACITY && p.readers > 0)
  }

  function Least(a: nat, b: nat): nat { if a < b then a else b }

  /** The locked region of pipe_read; `sleeps` says whether the caller goes to sleep afterwards. */
  function ReadLocked(p: Pipe, count: nat, interrupted: bool): (r: Pipe)
    requires count > 0
  {
    var n := Least(count, |p.buf|);
    if n > 0 then p.(buf := p.buf[n..], got := p.got + p.buf[..n], writeWait := false)
    else if p.writers == 0 || interrupted then p
    else p.(readWait := true)
  }

  /** The locked region of pipe_write. */
  function WriteLocked(p: Pipe, data: seq<Byte>): (r: Pipe)
    requires |p.buf| <= CAPACITY && data != []
  {
    var n := Least(|data|, CAPACITY - |p.buf|);
    if p.readers == 0 then p
    else p.(buf := p.buf + data[..n], put := p.put + data[..n],
            readWait := if n > 0 then false else p.readWait,
            writeWait := if n < |data| then true else p.writeWait)
  }

  function CloseLocked(p: Pipe, writer: bool): (r: Pipe)
    requires if writer then p.writers > 0 else p.readers > 0
  {
    if writer then p.(writers := p.writers - 1, readWait := if p.writers == 1 then false else p.readWait)
    else p.(readers := p.readers - 1, writeWait := if p.readers == 1 then false else p.writeWait)
  }

  function AddRefLocked(p: Pipe, writer: bool): Pipe {
    if writer then p.(writers := p.writers + 1) else p.(readers := p.readers + 1)
  }

  /** Every locked region leaves the flags meaning what they say, and the bytes in order. */
  lemma RegionsKeepPipe(p: Pipe, count: nat, interrupted: bool, data: seq<Byte>, writer: bool)
    requires PipeOk(p) && count > 0 && data != []
    ensures PipeOk(ReadLocked(p, count, interrupted)) && PipeOk(WriteLocked(p, data)) && PipeOk(AddRefLocked(p, writer))
    ensures (if writer then p.writers > 0 else p.readers > 0) ==> PipeOk(CloseLocked(p, writer))
  {
    var n := Least(count, |p.buf|);
    assert p.buf == p.buf[..n] + p.buf[n..];
    assert p.got + p.buf == (p.got + p.buf[..n]) + p.buf[n..];
  }

  // ----- the ring buffer -----

  /** The bytes of the ring from `pos` on, `n` of them. */
  function Ring(b: seq<Byte>, pos: nat, n: nat): (r: seq<Byte>)
    requires |b| == CAPACITY
    ensures |r| == n
  {
    seq(n, k requires 0 <= k < n => b[(pos + k) % CAPACITY])
  }

  lemma RingTake(b: seq<Byte>, pos: nat, n: nat)
    requires |b| == CAPACITY && pos < CAPACITY && n > 0
    ensures Ring(b, pos, n) == [b[pos]] + Ring(b, (pos + 1) % CAPACITY, n - 1)
  {
    forall k | 0 < k < n ensures Ring(b, pos, n)[k] == Ring(b, (pos + 1) % CAPACITY, n - 1)[k - 1] {
      assert ((pos + 1) % CAPACITY + (k - 1)) % CAPACITY == (pos + k) % CAPACITY;
    }
  }

  /** Taking the byte at pos takes the next byte of the contents. */
  lemma NextByte(b: seq<Byte>, pos: nat, n: nat, bytes: seq<Byte>, k: nat)
    requires |b| == CAPACITY && pos < CAPACITY && n > 0 && k + n == |bytes| && Ring(b, pos, n) == bytes[k..]
    ensures ((pos + 1) % CAPACITY + (n - 1)) % CAPACITY == (pos + n) % CAPACITY
    ensures bytes[..k] + [b[pos]] == bytes[..k + 1] && Ring(b, (pos + 1) % CAPACITY, n - 1) == bytes[k + 1..]
  {
    RingTake(b, pos, n);
    assert bytes[k..][1..] == bytes[k + 1..] && bytes[k..][0] == bytes[k];
  }

  lemma RingPut(b: seq<Byte>, pos: nat, n: nat, x: Byte)
    requires |b| == CAPACITY && pos < CAPACITY && n < CAPACITY
    ensures Ring(b[(pos + n) % CAPACITY := x], pos, n + 1) == Ring(b, pos, n) + [x]
    ensures ((pos + n) % CAPACITY + 1) % CAPACITY == (pos + n + 1) % CAPACITY
  {
    var at := (pos + n) % CAPACITY;
    forall k | 0 <= k < n ensures Ring(b[at := x], pos, n + 1)[k] == Ring(b, pos, n)[k] {
      assert (pos + k) % CAPACITY != at;
    }
  }

  class PipeData {
    const buffer: array<Byte>
    var read_pos: nat
    var write_pos: nat
    var used: nat
    var readers: nat
    var writers: nat
    var read_wait: bool
    var write_wait: bool
    ghost var put: seq<Byte>
    ghost var got: seq<Byte>

    ghost predicate Shape()
      reads this, buffer
    {
      buffer.Length == CAPACITY && read_pos < CAPACITY && used <= CAPACITY && write_pos == (read_pos + used) % CAPACITY
    }

    ghost function Value(): Pipe
      requires Shape()
      reads this, buffer
    {
      Pipe(Ring(buffer[..], read_pos, used), readers, writers, read_wait, write_wait, put, got)
    }

    ghost predicate Valid()
      reads this, buffer
    {
      Shape() && PipeOk(Value())
    }

    /** vfs_create_pipe: a zeroed pipe with one end of each kind. */
    constructor ()
      ensures Valid() && Value() == Pipe([], 1, 1, false, false, [], []) && fresh(buffer)
    {
      buffer := new Byte[CAPACITY](_ => 0);
      read_pos, write_pos, used := 0, 0, 0;
      readers, writers, read_wait, write_wait := 1, 1, false, false;
      put, got := [], [];
    }

    /** The inner loop of pipe_read. */
    method Take(count: nat) returns (data: seq<Byte>)
      requires Shape()
      modifies `read_pos, `used, `got
      ensures Shape() && data == old(Value().buf)[..Least(count, old(used))]
      ensures Value() == old(Value()).(buf := old(Value().buf)[Least(count, old(used))..], got := old(got) + data)
    {
      hide Ring;
      ghost var b, bytes := buffer[..], Value().buf;
      data := [];
      while |data| < count && used > 0
        invariant Shape() && |data| <= count && |data| + used == old(used) && buffer[..] == b
        invariant data == bytes[..|data|] && Ring(b, read_pos, used) == bytes[|data|..]
        invariant got == old(got)
        decreases used
      {
        NextByte(b, read_pos, used, bytes, |data|);
        data := data + [buffer[read_pos]];
        read_pos := (read_pos + 1) % CAPACITY;
        used := used - 1;
      }
      got := got + data;
    }

    /** The locked region of pipe_read. */
    method ReadRegion(count: nat, interrupted: bool) returns (data: seq<Byte>, wakes: bool, sleeps: bool)
      requires Valid() && count > 0
      modifies this
      ensures Valid() && Value() == ReadLocked(old(Value()), count, interrupted)
      ensures data == old(Value().buf)[..Least(count, old(used))]
      ensures wakes <==> data != []
      ensures sleeps <==> data == [] && old(writers) > 0 && !interrupted
    {
      RegionsKeepPipe(Value(), count, interrupted, [0], false);
      wakes, sleeps := false, false;
      data := Take(count);
      if |data| > 0 {
        write_wait := false;
        wakes := true;
      }
      if |data| > 0 || writers == 0 { return; }
      if interrupted { return; }
      read_wait := true;
      sleeps := true;
    }

    /** The inner loop of pipe_write. */
    method Put(data: seq<Byte>) returns (n: nat)
      requires Shape()
      modifies `write_pos, `used, `put, buffer
      ensures Shape() && n == Least(|data|, CAPACITY - old(used))
      ensures Value() == old(Value()).(buf := old(Value().buf) + data[..n], put := old(put) + data[..n])
    {
      hide Ring;
      ghost var bytes := Value().buf;
      n := 0;
      while n < |data| && used < CAPACITY
        invariant Shape() && n <= |data| && used == old(used) + n
        invariant Ring(buffer[..], read_pos, used) == bytes + data[..n]
        invariant put == old(put)
      {
        RingPut(buffer[..], read_pos, used, data[n]);
        buffer[write_pos] := data[n];
        write_pos := (write_pos + 1) % CAPACITY;
        used := used + 1;
        n := n + 1;
      }
      put := put + data[..n];
    }

    /** The locked region of pipe_write; `broken` is the return on a pipe nobody reads. */
    method WriteRegion(data: seq<Byte>) returns (n: nat, broken: bool)
      requires Valid() && data != []
      modifies this, buffer
      ensures Valid() && Value() == WriteLocked(old(Value()), data)
      ensures broken <==> old(readers) == 0
      ensures n == if broken then 0 else Least(|data|, CAPACITY - old(used))
    {
      RegionsKeepPipe(Value(), 1, false, data, false);
      n, broken := 0, false;
      if readers == 0 { return 0, true; }
      n := Put(data);
      if n > 0 { read_wait := false; }
      if n < |data| { write_wait := true; }
    }

    /** The locked region of pipe_close. */
    method CloseRegion(writer: bool) returns (wakeReaders: bool, wakeWriters: bool, free: bool)
      requires Valid() && if writer then writers > 0 else readers > 0
      modifies this
      ensures Valid() && Value() == CloseLocked(old(Value()), writer)
      ensures wakeReaders <==> writer && writers == 0
      ensures wakeWriters <==> !writer && readers == 0
      ensures free <==> readers == 0 && writers == 0
    {
      RegionsKeepPipe(Value(), 1, false, [0], writer);
      wakeReaders, wakeWriters := false, false;
      if writer {
        writers := writers - 1;
        if writers == 0 {
          read_wait := false;
          wakeReaders := true;
        }
      } else {
        readers := readers - 1;
        if readers == 0 {
          write_wait := false;
          wakeWriters := true;
        }
      }
      free := readers == 0 && writers == 0;
    }

    /** pipe_add_ref. */
    method AddRef(writer: bool)
      requires Valid()
      modifies `readers, `writers
      ensures Valid() && Value() == AddRefLocked(old(Value()), writer)
    {
      if writer { writers := writers + 1; } else { readers := readers + 1; }
    }

    /** pipe_status. */
    method Status(writer: bool) returns (readable: nat, writable: bool, hung_up: bool)
      requires Valid()
      ensures readable == if writer then 0 else |Value().buf|
      ensures writable <==> writer && Value().readers > 0 && |Value().buf| < CAPACITY
      ensures hung_up <==> if writer then Value().readers == 0 else Value().writers == 0
    {
      readable, writable := 0, false;
      if writer {
        writable := readers > 0 && used < CAPACITY;
        hung_up := readers == 0;
      } else {
        readable := used;
        hung_up := writers == 0;
      }
    }
  }
}
