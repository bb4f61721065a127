// The pseudo-terminal's line discipline (fs/pty.c): what the master types is edited into lines for the
// slave, in two bounded ring queues and a line buffer; the mode stays fixed.
module Pty {
  import opened Words
  import opened Pipes

  const INTR: nat := 0
  const QUIT: nat := 1
  const ERASE: nat := 2
  const KILL: nat := 3
  const EOF: nat := 4
  const EOL: nat := 5
  const SUSP: nat := 10
  const NL: Byte := 10
  const CR: Byte := 13

  type Controls = c: seq<Byte> | |c| == 13 witness [0, 0, 0, 0, 0, 0, 0, 0, 0, 0, 0, 0, 0]

  /** The flags and characters of struct termios that the line discipline looks at. */
  datatype Termios = Termios(isig: bool, icanon: bool, echo: bool, echoe: bool, echok: bool, noflsh: bool, icrnl: bool,
      controls: Controls)

  // ----- the editor, without any bounds -----

  /** The line being typed, the bytes the slave can read, and whether it is to read an end of file. */
  datatype Editor = Editor(line: seq<Byte>, ready: seq<Byte>, eof: bool)

  const FRESH: Editor := Editor([], [], false)

  function Mapped(t: Termios, b: Byte): Byte { if t.icrnl && b == CR then NL else b }

  predicate IsSignal(t: Termios, b: Byte) {
    t.isig && (b == t.controls[INTR] || b == t.controls[QUIT] || b == t.controls[SUSP])
  }

  predicate EndsLine(t: Termios, b: Byte) { b == NL || (t.controls[EOL] != 0 && b == t.controls[EOL]) }

  predicate IsEdit(t: Termios, b: Byte) { b == t.controls[ERASE] || b == t.controls[KILL] || b == t.controls[EOF] }

  function Flushed(e: Editor): Editor { e.(line := [], ready := e.ready + e.line) }

  /** One accepted byte, as a line editor takes it. */
  function Edit(t: Termios, e: Editor, typed: Byte): Editor {
    var b := Mapped(t, typed);
    if IsSignal(t, b) then if t.noflsh then e else e.(line := [], ready := [])
    else if !t.icanon then e.(ready := e.ready + [b])
    else EditOf(t, e, b)
  }

  /** In canonical mode: a byte that is no signal character. */
  function EditOf(t: Termios, e: Editor, b: Byte): Editor {
    if b == t.controls[ERASE] then if e.line == [] then e else e.(line := e.line[..|e.line| - 1])
    else if b == t.controls[KILL] then e.(line := [])
    else if b == t.controls[EOF] then if e.line == [] then e.(eof := true) else Flushed(e)
    else if EndsLine(t, b) then Flushed(e.(line := e.line + [b]))
    else e.(line := e.line + [b])
  }

  /** What happens to the editor: a typed byte, a read of n bytes by the slave, or its reading of an end of file. */
  datatype Event = Typed(byte: Byte) | Took(n: nat) | TookEof

  function Apply(t: Termios, e: Editor, event: Event): Editor {
    match event
    case Typed(b) => Edit(t, e, b)
    case Took(n) => if n <= |e.ready| then e.(ready := e.ready[n..]) else e
    case TookEof => e.(eof := false)
  }

  function Fold(t: Termios, log: seq<Event>): Editor {
    if log == [] then FRESH else Apply(t, Fold(t, log[..|log| - 1]), log[|log| - 1])
  }

  lemma FoldNext(t: Termios, log: seq<Event>, event: Event)
    ensures Fold(t, log + [event]) == Apply(t, Fold(t, log), event)
  {
    assert (log + [event])[..|log|] == log;
  }

  function AllTyped(data: seq<Byte>): (r: seq<Event>)
    ensures |r| == |data|
  {
    if data == [] then [] else AllTyped(data[..|data| - 1]) + [Typed(data[|data| - 1])]
  }

  lemma OneMoreTyped(data: seq<Byte>, n: nat)
    requires n < |data|
    ensures AllTyped(data[..n + 1]) == AllTyped(data[..n]) + [Typed(data[n])]
  {
    assert data[..n + 1][..n] == data[..n];
  }

  lemma {:induction false} TypedSplit(a: seq<Byte>, b: seq<Byte>)
    ensures AllTyped(a + b) == AllTyped(a) + AllTyped(b)
  {
    if b == [] {
      assert a + b == a;
    } else {
      TypedSplit(a, b[..|b| - 1]);
      assert (a + b)[..|a + b| - 1] == a + b[..|b| - 1];
    }
  }

  /** The editor after a text. */
  function Edited(t: Termios, e: Editor, data: seq<Byte>): Editor
    decreases |data|
  {
    if data == [] then e else Edited(t, Edit(t, e, data[0]), data[1..])
  }

  lemma {:induction false} EditedFold(t: Termios, log: seq<Event>, data: seq<Byte>)
    ensures Fold(t, log + AllTyped(data)) == Edited(t, Fold(t, log), data)
    decreases |data|
  {
    if data == [] {
      assert log + AllTyped(data) == log;
    } else {
      TypedSplit(data[..1], data[1..]);
      assert data[..1] + data[1..] == data && data[..1][..0] == [];
      assert log + AllTyped(data) == (log + [Typed(data[0])]) + AllTyped(data[1..]);
      FoldNext(t, log, Typed(data[0]));
      EditedFold(t, log + [Typed(data[0])], data[1..]);
    }
  }

  /** How many bytes one locked region takes: up to the first that is refused, or up to a signal character. */
  function RegionTakes(t: Termios, e: Editor, data: seq<Byte>): (n: nat)
    ensures n <= |data|
    decreases |data|
  {
    if data == [] || !Accepts(t, e, data[0]) then 0
    else if IsSignal(t, Mapped(t, data[0])) then 1
    else 1 + RegionTakes(t, Edit(t, e, data[0]), data[1..])
  }

  /** A region has taken n bytes of the text, from editor e0 and log0 on. */
  ghost predicate RegionSoFar(t: Termios, log0: seq<Event>, e0: Editor, log: seq<Event>, e: Editor, data: seq<Byte>,
          n: nat, isSignal: bool) {
    && n <= |data| && log == log0 + AllTyped(data[..n]) && (isSignal <==> n > 0 && IsSignal(t, Mapped(t, data[n - 1])))
    && RegionTakes(t, e0, data) == n + (if isSignal then 0 else RegionTakes(t, e, data[n..]))
    && forall i :: 0 <= i < n ==> Accepts(t, Fold(t, log0 + AllTyped(data[..i])), data[i])
  }

  lemma RegionStart(t: Termios, log: seq<Event>, e: Editor, data: seq<Byte>)
    ensures RegionSoFar(t, log, e, log, e, data, 0, false)
  {
    assert data[0..] == data && log + [] == log;
  }

  lemma RegionNext(t: Termios, log0: seq<Event>, e0: Editor, log: seq<Event>, e: Editor, data: seq<Byte>, n: nat)
    requires RegionSoFar(t, log0, e0, log, e, data, n, false) && n < |data| && e == Fold(t, log)
    ensures Accepts(t, e, data[n]) ==>
      RegionSoFar(t, log0, e0, log + [Typed(data[n])], Edit(t, e, data[n]), data, n + 1,
          IsSignal(t, Mapped(t, data[n])))
  {
    hide Accepts, IsSignal, Edit, Mapped;
    assert data[n..][1..] == data[n + 1..];
    OneMoreTyped(data, n);
  }

  lemma RegionOver(t: Termios, log0: seq<Event>, e0: Editor, log: seq<Event>, e: Editor, data: seq<Byte>, n: nat,
          isSignal: bool)
    requires RegionSoFar(t, log0, e0, log, e, data, n, isSignal)
    requires (!isSignal && n < |data| ==> !Accepts(t, e, data[n]))
    ensures n == RegionTakes(t, e0, data)
  {
    hide Accepts, IsSignal, Mapped;
  }

  /** How many bytes a write takes: up to the first that is refused. */
  function Takes(t: Termios, e: Editor, data: seq<Byte>): (n: nat)
    ensures n <= |data|
    decreases |data|
  {
    if data == [] || !Accepts(t, e, data[0]) then 0 else 1 + Takes(t, Edit(t, e, data[0]), data[1..])
  }

  /** A region that a signal character ended leaves the rest to be written; any other one is the whole write. */
  lemma {:induction false} RegionThenRest(t: Termios, e: Editor, data: seq<Byte>)
    ensures var n := RegionTakes(t, e, data);
      Takes(t, e, data) == n + (if n > 0 && IsSignal(t, Mapped(t, data[n - 1])) then Takes(t, Edited(t, e, data[..n]),
          data[n..]) else 0)
    decreases |data|
  {
    hide Accepts, IsSignal, Edit, Mapped;
    if data != [] && Accepts(t, e, data[0]) {
      var n := RegionTakes(t, e, data);
      assert data[..n][1..] == data[1..][..n - 1] && data[n..] == data[1..][n - 1..] && data[..n][0] == data[0];
      if IsSignal(t, Mapped(t, data[0])) {
        assert data[..1][1..] == [];
      } else {
        RegionThenRest(t, Edit(t, e, data[0]), data[1..]);
        assert n > 1 ==> data[1..][n - 2] == data[n - 1];
      }
    }
  }

  /** The log after n more bytes of a text, and the editor it stands for. */
  lemma TypedAfter(t: Termios, log: seq<Event>, data: seq<Byte>, copied: nat, n: nat)
    requires copied + n <= |data|
    ensures log + AllTyped(data[..copied]) + AllTyped(data[copied..][..n]) == log + AllTyped(data[..copied + n])
    ensures Fold(t, log + AllTyped(data[..copied + n])) == Edited(t, Fold(t, log + AllTyped(data[..copied])),
        data[copied..][..n])
    ensures data[copied..][n..] == data[copied + n..]
  {
    assert data[..copied] + data[copied..][..n] == data[..copied + n];
    TypedSplit(data[..copied], data[copied..][..n]);
    assert log + AllTyped(data[..copied]) + AllTyped(data[copied..][..n]) == log + AllTyped(data[..copied + n]);
    EditedFold(t, log + AllTyped(data[..copied]), data[copied..][..n]);
  }

  /** A write has taken `copied` bytes of the text; `again` if it goes on. */
  ghost predicate WriteSoFar(t: Termios, log0: seq<Event>, e0: Editor, log: seq<Event>, e: Editor, data: seq<Byte>,
          copied: nat, again: bool) {
    && copied <= |data| && log == log0 + AllTyped(data[..copied]) && e == Fold(t, log)
    && Takes(t, e0, data) == copied + (if again then Takes(t, e, data[copied..]) else 0)
  }

  lemma WriteStart(t: Termios, log: seq<Event>, e: Editor, data: seq<Byte>)
    requires e == Fold(t, log)
    ensures WriteSoFar(t, log, e, log, e, data, 0, true)
  {
    assert data[0..] == data && log + [] == log;
  }

  lemma WriteNext(t: Termios, log0: seq<Event>, e0: Editor, log: seq<Event>, e: Editor, data: seq<Byte>, copied: nat,
          n: nat, again: bool)
    requires WriteSoFar(t, log0, e0, log, e, data, copied, true) && n == RegionTakes(t, e, data[copied..])
    requires again <==> n > 0 && IsSignal(t, Mapped(t, data[copied..][n - 1]))
    ensures var log' := log + AllTyped(data[copied..][..n]); WriteSoFar(t, log0, e0, log', Fold(t, log'), data,
        copied + n, again)
  {
    hide Accepts, IsSignal, Mapped, Edit, RegionTakes, Takes, Fold, AllTyped, Edited;
    RegionThenRest(t, e, data[copied..]);
    TypedAfter(t, log0, data, copied, n);
  }

  lemma WriteOver(t: Termios, log0: seq<Event>, e0: Editor, log: seq<Event>, e: Editor, data: seq<Byte>, copied: nat,
          again: bool)
    requires WriteSoFar(t, log0, e0, log, e, data, copied, again) && (again ==> copied == |data|)
    ensures copied == Takes(t, e0, data) && log == log0 + AllTyped(data[..copied])
  {
  }

  /** How a text is cut into writes makes no difference: a write of a + b takes what a write of a takes, and if that is
      all of a, then what a write of b after it takes; and it leaves the editor as those two writes do. */
  lemma {:induction false} SplitWrites(t: Termios, e: Editor, a: seq<Byte>, b: seq<Byte>)
    ensures Takes(t, e, a + b) == Takes(t, e, a) + (if Takes(t, e, a) == |a| then Takes(t, Edited(t, e, a), b) else 0)
    ensures Edited(t, e, a + b) == Edited(t, Edited(t, e, a), b)
    decreases |a|
  {
    hide Accepts, Edit;
    if a == [] {
      assert a + b == b;
    } else {
      assert (a + b)[1..] == a[1..] + b && (a + b)[0] == a[0];
      SplitWrites(t, Edit(t, e, a[0]), a[1..], b);
    }
  }

  /** A character that is neither a control character nor the end of a line. */
  predicate Plain(t: Termios, b: Byte) { Mapped(t, b) == b && !IsSignal(t, b) && !IsEdit(t, b) && !EndsLine(t, b) }

  lemma {:induction false} PlainBytes(t: Termios, e: Editor, log: seq<Event>, data: seq<Byte>)
    requires t.icanon && Fold(t, log) == e && forall i :: 0 <= i < |data| ==> Plain(t, data[i])
    ensures Fold(t, log + AllTyped(data)) == e.(line := e.line + data)
    decreases |data|
  {
    if data == [] {
      assert log + AllTyped(data) == log;
      assert e.line + data == e.line;
    } else {
      var n := |data| - 1;
      PlainBytes(t, e, log, data[..n]);
      assert log + AllTyped(data) == (log + AllTyped(data[..n])) + [Typed(data[n])];
      FoldNext(t, log + AllTyped(data[..n]), Typed(data[n]));
      assert e.line + data[..n] + [data[n]] == e.line + data;
    }
  }

  /** A line reaches the slave when it ends, whole and not before. */
  lemma TypedLine(t: Termios, log: seq<Event>, data: seq<Byte>)
    requires t.icanon && Fold(t, log).line == [] && forall i :: 0 <= i < |data| ==> Plain(t, data[i])
    requires !IsSignal(t, NL) && !IsEdit(t, NL)
    ensures Fold(t, log + AllTyped(data)).ready == Fold(t, log).ready
    ensures Fold(t, log + AllTyped(data) + [Typed(NL)]) == Fold(t, log).(ready := Fold(t, log).ready + data + [NL])
  {
    var e := Fold(t, log);
    PlainBytes(t, e, log, data);
    FoldNext(t, log + AllTyped(data), Typed(NL));
    assert [] + data + [NL] == data + [NL];
    assert e.ready + (data + [NL]) == e.ready + data + [NL];
  }

  /** Erasing takes back the last character typed, and killing all of them. */
  lemma EraseUndoes(t: Termios, e: Editor, b: Byte)
    requires t.icanon && Plain(t, b) && t.controls[ERASE] != CR && !IsSignal(t, t.controls[ERASE])
    ensures Edit(t, Edit(t, e, b), t.controls[ERASE]) == e
  {
    assert (e.line + [b])[..|e.line|] == e.line;
  }

  // ----- the bounded queues -----

  /** queue_byte: a full queue drops the byte. */
  function Queued(q: seq<Byte>, b: Byte): seq<Byte> { if |q| >= CAPACITY then q else q + [b] }

  class Queue {
    const buffer: array<Byte>
    var read_pos: nat
    var write_pos: nat
    var used: nat

    ghost predicate Valid()
      reads this, buffer
    {
      buffer.Length == CAPACITY && read_pos < CAPACITY && used <= CAPACITY && write_pos == (read_pos + used) % CAPACITY
    }

    ghost function Contents(): (s: seq<Byte>)
      requires Valid()
      reads this, buffer
      ensures |s| == used
    {
      Ring(buffer[..], read_pos, used)
    }

    constructor ()
      ensures Valid() && Contents() == [] && fresh(buffer)
    {
      buffer := new Byte[CAPACITY](_ => 0);
      read_pos, write_pos, used := 0, 0, 0;
    }

    /** queue_byte. */
    method QueueByte(b: Byte)
      requires Valid()
      modifies `write_pos, `used, buffer
      ensures Valid() && Contents() == Queued(old(Contents()), b)
    {
      if used >= CAPACITY { return; }
      hide Ring;
      RingPut(buffer[..], read_pos, used, b);
      buffer[write_pos] := b;
      write_pos := (write_pos + 1) % CAPACITY;
      used := used + 1;
    }

    /** clear_queue. */
    method Clear()
      requires Valid()
      modifies `read_pos, `write_pos, `used
      ensures Valid() && Contents() == []
    {
      read_pos, write_pos, used := 0, 0, 0;
    }

    /** The inner loop of pty_read. */
    method Take(count: nat) returns (data: seq<Byte>)
      requires Valid()
      modifies `read_pos, `used
      ensures Valid() && data == old(Contents())[..Least(count, old(used))]
      ensures Contents() == old(Contents())[Least(count, old(used))..]
    {
      hide Ring;
      ghost var b, bytes := buffer[..], Contents();
      data := [];
      while |data| < count && used > 0
        invariant Valid() && |data| <= count && |data| + used == old(used) && buffer[..] == b
        invariant data == bytes[..|data|] && Ring(b, read_pos, used) == bytes[|data|..]
        decreases used
      {
        NextByte(b, read_pos, used, bytes, |data|);
        data := data + [buffer[read_pos]];
        read_pos := (read_pos + 1) % CAPACITY;
        used := used - 1;
      }
    }
  }

  // ----- the terminal -----

  /** The bounded terminal would take this byte now. */
  predicate Accepts(t: Termios, e: Editor, typed: Byte) {
    var b := Mapped(t, typed);
    |e.ready| < CAPACITY && (IsSignal(t, b) || !t.icanon || IsEdit(t, b) || |e.line| + |e.ready| < CAPACITY)
  }

  /** No line that is typed can be too long for the queue it will be flushed into. */
  predicate Room(t: Termios, e: Editor) {
    |e.ready| <= CAPACITY && (if t.icanon then |e.line| + |e.ready| <= CAPACITY else e.line == [])
  }

  lemma EditKeepsRoom(t: Termios, e: Editor, typed: Byte)
    requires Room(t, e) && Accepts(t, e, typed)
    ensures Room(t, Edit(t, e, typed))
  {
  }

  class Terminal {
    const t: Termios
    const slave: Queue
    const master: Queue
    const canonical: array<Byte>
    var canonical_length: nat
    var eof_pending: bool
    // Everything that was typed and accepted, and everything the slave took.
    ghost var log: seq<Event>

    ghost predicate Shape()
      reads this, slave, master, slave.buffer, master.buffer
    {
      && slave.Valid() && master.Valid() && slave != master && canonical.Length == CAPACITY
      && canonical_length <= CAPACITY
      && slave.buffer != master.buffer && canonical != slave.buffer && canonical != master.buffer
    }

    /** The editor the queues and the line buffer stand for. */
    ghost function Value(): Editor
      requires Shape()
      reads this, slave, master, slave.buffer, master.buffer, canonical
    {
      Editor(canonical[..canonical_length], slave.Contents(), eof_pending)
    }

    ghost predicate Valid()
      reads this, slave, master, slave.buffer, master.buffer, canonical
    {
      Shape() && Room(t, Value()) && Value() == Fold(t, log)
    }

    constructor (t: Termios)
      ensures Valid() && this.t == t && log == [] && fresh(slave) && fresh(master) && fresh(canonical)
      ensures fresh(slave.buffer) && fresh(master.buffer)
    {
      this.t := t;
      slave := new Queue();
      master := new Queue();
      canonical := new Byte[CAPACITY](_ => 0);
      canonical_length, eof_pending, log := 0, false, [];
    }

    /** echo_bytes: what does not fit is not echoed. */
    method Echo(bytes: seq<Byte>)
      requires Shape()
      modifies master`write_pos, master`used, master.buffer
      ensures Shape() && Value() == old(Value())
    {
      var i := 0;
      while i < |bytes|
        invariant Shape() && Value() == old(Value())
      {
        master.QueueByte(bytes[i]);
        i := i + 1;
      }
    }

    /** flush_canonical: the whole line goes into the slave's queue; no byte is dropped. */
    method FlushCanonical()
      requires Shape() && |Value().line| + |Value().ready| <= CAPACITY
      modifies `canonical_length, slave`write_pos, slave`used, slave.buffer
      ensures Shape() && Value() == Flushed(old(Value()))
    {
      hide Queue.Contents, Queue.Valid;
      ghost var line, ready := Value().line, Value().ready;
      var i := 0;
      while i < canonical_length
        invariant i <= canonical_length == old(canonical_length) && Shape() && canonical[..canonical_length] == line
        invariant slave.Contents() == ready + line[..i] && eof_pending == old(eof_pending)
      {
        assert canonical[i] == line[i] && ready + line[..i] + [line[i]] == ready + line[..i + 1];
        slave.QueueByte(canonical[i]);
        i := i + 1;
      }
      assert line[..i] == line;
      canonical_length := 0;
      assert canonical[..0] == [];
    }

    /** A signal character; the queues are flushed unless NOFLSH is set. */
    method SignalByte(b: Byte)
      requires Shape()
      modifies `canonical_length, slave`read_pos, slave`write_pos, slave`used, master`read_pos, master`write_pos,
        master`used, master.buffer
      ensures Shape() && Value() == if t.noflsh then old(Value()) else old(Value()).(line := [], ready := [])
    {
      if !t.noflsh {
        slave.Clear();
        master.Clear();
        canonical_length := 0;
        assert canonical[..0] == [];
      }
      if t.echo {
        Echo([94, if b == t.controls[INTR] then 67 else if b == t.controls[QUIT] then 92 else 90, NL]);
      }
    }

    /** pty->canonical[pty->canonical_length++] = byte. */
    method StoreByte(b: Byte)
      requires Shape() && canonical_length < CAPACITY
      modifies `canonical_length, canonical
      ensures Shape() && Value() == old(Value()).(line := old(Value()).line + [b])
    {
      hide Queue.Contents, Queue.Valid;
      canonical[canonical_length] := b;
      canonical_length := canonical_length + 1;
      assert canonical[..canonical_length] == old(Value()).line + [b];
    }

    /** An ordinary byte in canonical mode, with room for it. */
    method TypeByte(b: Byte)
      requires Shape() && |Value().line| + |Value().ready| < CAPACITY
      modifies `canonical_length, canonical, slave`write_pos, slave`used, slave.buffer, master`write_pos, master`used,
        master.buffer
      ensures Shape()
      ensures Value() == if EndsLine(t, b) then Flushed(old(Value()).(line := old(Value()).line + [b])) else old(Value()).(line := old(Value()).line + [b])
    {
      hide Queue.Contents, Queue.Valid;
      StoreByte(b);
      if t.echo { master.QueueByte(b); }
      if b == NL || (t.controls[EOL] != 0 && b == t.controls[EOL]) { FlushCanonical(); }
    }

    /** The body of pty_write's inner loop for a byte from the master. */
    method AcceptByte(typed: Byte) returns (accepted: bool, isSignal: bool)
      requires Shape() && Room(t, Value()) && slave.used < CAPACITY
      modifies `canonical_length, `eof_pending, canonical, slave`read_pos, slave`write_pos, slave`used, slave.buffer,
        master`read_pos, master`write_pos, master`used, master.buffer
      ensures Shape() && (accepted <==> Accepts(t, old(Value()), typed))
      ensures (isSignal <==> IsSignal(t, Mapped(t, typed)))
      ensures Value() == if accepted then Edit(t, old(Value()), typed) else old(Value())
    {
      var b := if t.icrnl && typed == CR then NL else typed;
      accepted, isSignal := true, false;
      if t.isig && (b == t.controls[INTR] || b == t.controls[QUIT] || b == t.controls[SUSP]) {
        SignalByte(b);
        return true, true;
      }
      if t.icanon {
        accepted := EditByte(b);
        return;
      }
      slave.QueueByte(b);
    }

    /** The canonical-mode part of it. */
    method EditByte(b: Byte) returns (accepted: bool)
      requires Shape() && Room(t, Value()) && slave.used < CAPACITY && t.icanon && !IsSignal(t, b)
      modifies `canonical_length, `eof_pending, canonical, slave`write_pos, slave`used, slave.buffer,
        master`write_pos, master`used, master.buffer
      ensures Shape() && (accepted <==> IsEdit(t, b) || |old(Value()).line| + |old(Value()).ready| < CAPACITY)
      ensures Value() == if accepted then EditOf(t, old(Value()), b) else old(Value())
    {
      hide Queue.Contents, Queue.Valid;
      accepted := true;
      if b == t.controls[ERASE] {
        if canonical_length > 0 {
          canonical_length := canonical_length - 1;
          assert canonical[..canonical_length] == old(Value()).line[..canonical_length];
          if t.echoe { Echo([8, 32, 8]); }
        }
      } else if b == t.controls[KILL] {
        canonical_length := 0;
        assert canonical[..0] == [];
        if t.echok { Echo([NL]); }
      } else if b == t.controls[EOF] {
        if canonical_length == 0 { eof_pending := true; } else { FlushCanonical(); }
      } else if canonical_length + slave.used >= CAPACITY {
        accepted := false;
      } else {
        TypeByte(b);
      }
    }

    lemma FullAcceptsNone(e: Editor)
      ensures |e.ready| >= CAPACITY ==> forall b :: !Accepts(t, e, b)
    {
    }

    /** One locked region of pty_write from the master: it takes bytes until one is not accepted, the slave's queue
        is full, or one is a signal character, and no further. */
    method WriteRegion(data: seq<Byte>) returns (n: nat, isSignal: bool)
      requires Valid()
      modifies this, canonical, slave, slave.buffer, master, master.buffer
      ensures Valid() && n == RegionTakes(t, old(Value()), data) && log == old(log) + AllTyped(data[..n])
      ensures isSignal <==> n > 0 && IsSignal(t, Mapped(t, data[n - 1]))
      ensures !isSignal && n < |data| ==> !Accepts(t, Value(), data[n])
      ensures forall i :: 0 <= i < n ==> Accepts(t, Fold(t, old(log) + AllTyped(data[..i])), data[i])
    {
      ghost var e := Value();
      RegionStart(t, log, e, data);
      n, isSignal := 0, false;
      var refused := false;
      while n < |data| && slave.used < CAPACITY && !refused && !isSignal
        invariant Valid() && RegionSoFar(t, old(log), e, log, Value(), data, n, isSignal)
        invariant refused ==> n < |data| && !Accepts(t, Value(), data[n])
        decreases |data| - n, !refused
      {
        n, isSignal, refused := TakeByte(data, n, old(log), e);
      }
      FullAcceptsNone(Value());
      RegionOver(t, old(log), e, log, Value(), data, n, isSignal);
    }

    /** The body of the inner loop of pty_write. */
    method TakeByte(data: seq<Byte>, n: nat, ghost log0: seq<Event>, ghost e0: Editor) returns (n': nat,
            isSignal: bool, refused: bool)
      requires Valid() && n < |data| && slave.used < CAPACITY && RegionSoFar(t, log0, e0, log, Value(), data, n, false)
      modifies this, canonical, slave, slave.buffer, master, master.buffer
      ensures Valid() && RegionSoFar(t, log0, e0, log, Value(), data, n', isSignal)
      ensures if refused then n' == n && !Accepts(t, Value(), data[n]) else n' == n + 1
    {
      hide Queue.Contents, Queue.Valid, Accepts, IsSignal, Room, Mapped, Edit, RegionTakes, RegionSoFar;
      RegionNext(t, log0, e0, log, Value(), data, n);
      var accepted;
      accepted, isSignal := LogByte(data[n]);
      refused := !accepted;
      if refused { return n, false, true; }
      n' := n + 1;
    }

    /** pty_write from the master without blocking: region after region, as long as a signal character ended the last
        one. */
    method Write(data: seq<Byte>) returns (copied: nat)
      requires Valid()
      modifies this, canonical, slave, slave.buffer, master, master.buffer
      ensures Valid() && copied == Takes(t, old(Value()), data) && log == old(log) + AllTyped(data[..copied])
    {
      ghost var e := Value();
      WriteStart(t, log, e, data);
      copied := 0;
      var again := true;
      while again && copied < |data|
        invariant Valid() && WriteSoFar(t, old(log), e, log, Value(), data, copied, again)
        decreases again, |data| - copied
      {
        copied, again := OneRegion(data, copied, old(log), e);
      }
      WriteOver(t, old(log), e, log, Value(), data, copied, again);
    }

    /** One turn of the outer loop of pty_write. */
    method OneRegion(data: seq<Byte>, copied: nat, ghost log0: seq<Event>, ghost e0: Editor) returns (copied': nat,
            again: bool)
      requires Valid() && copied < |data| && WriteSoFar(t, log0, e0, log, Value(), data, copied, true)
      modifies this, canonical, slave, slave.buffer, master, master.buffer
      ensures Valid() && WriteSoFar(t, log0, e0, log, Value(), data, copied', again) && (again ==> copied' > copied)
    {
      hide Queue.Contents, Queue.Valid, Accepts, IsSignal, Room, Mapped, Edit, RegionTakes, WriteSoFar;
      ghost var e, l := Value(), log;
      var n;
      n, again := WriteRegion(data[copied..]);
      WriteNext(t, log0, e0, l, e, data, copied, n, again);
      copied' := copied + n;
    }

    /** Take one byte and note it. */
    method LogByte(typed: Byte) returns (accepted: bool, isSignal: bool)
      requires Valid() && slave.used < CAPACITY
      modifies this, canonical, slave, slave.buffer, master, master.buffer
      ensures Valid() && (accepted <==> Accepts(t, old(Value()), typed))
      ensures (isSignal <==> IsSignal(t, Mapped(t, typed)))
      ensures log == if accepted then old(log) + [Typed(typed)] else old(log)
      ensures Value() == if accepted then Edit(t, old(Value()), typed) else old(Value())
    {
      hide Queue.Contents, Queue.Valid, Accepts, IsSignal, Edit, Room;
      ghost var e := Value();
      accepted, isSignal := AcceptByte(typed);
      if accepted {
        EditKeepsRoom(t, e, typed);
        FoldNext(t, log, Typed(typed));
        log := log + [Typed(typed)];
      }
    }

    /** One locked region of pty_read by the slave; `end` is the end of file it may find. */
    method ReadRegion(count: nat) returns (data: seq<Byte>, end: bool)
      requires Valid() && count > 0
      modifies `eof_pending, `log, slave`read_pos, slave`used
      ensures Valid()
      ensures data == old(Value()).ready[..Least(count, |old(Value()).ready|)]
      ensures end <==> old(Value()).ready == [] && old(Value()).eof
      ensures log == old(log) + (if end then [Took(0), TookEof] else [Took(|data|)])
    {
      ghost var e := Value();
      data := slave.Take(count);
      FoldNext(t, log, Took(|data|));
      log := log + [Took(|data|)];
      end := |data| == 0 && eof_pending;
      if end {
        eof_pending := false;
        FoldNext(t, log, TookEof);
        log := log + [TookEof];
        assert old(log) + [Took(0)] + [TookEof] == old(log) + [Took(0), TookEof];
      }
    }
  }
}
