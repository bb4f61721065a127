// Sleeping on pipes and in poll (fs/pipe.c, sched_sleep_on_if, sched_wakeup, sched_io_* and
// user_process_poll), as steps of any number of tasks.  Every locked region of a pipe is a step, and
// so is every single action outside: reading a condition, publishing a wait channel, publishing
// TASK_BLOCKED, checking again, looking at one task during a wakeup, bumping the generation.
module Wakeup {
  import opened Words
  import opened Pipes

  /** What a task can wait for. */
  datatype Channel = ReadOf(pipe: nat) | WriteOf(pipe: nat) | Io

  /** A pipe descriptor in a poll set, and the events asked for. */
  datatype PollFd = PollFd(pipe: nat, writer: bool, wantIn: bool, wantOut: bool)

  /** How far a conditional sleep has come. */
  datatype Stage = Check | PublishChannel | PublishBlocked | Recheck | Asleep

  datatype Pc =
    | Idle
    | Reading(pipe: nat, count: nat)
    | Writing(pipe: nat, data: seq<Byte>)
    | PollStart(fds: seq<PollFd>)
    | PollScan(fds: seq<PollFd>, snapshot: nat, index: nat, ready: nat)
    | SleepRead(stage: Stage, pipe: nat, count: nat)
    | SleepWrite(stage: Stage, pipe: nat, data: seq<Byte>)
    | SleepPoll(stage: Stage, fds: seq<PollFd>, snapshot: nat)

  /** What a task still owes the sleepers before it goes on: a wakeup of one pipe channel, at the given task;
      sched_io_notify; and the wakeup inside sched_io_notify. */
  datatype Debt = Debt(channel: Channel, scan: nat, scanning: bool, notify: bool, ioScan: nat, ioScanning: bool)

  const NO_DEBT: Debt := Debt(Io, 0, false, false, 0, false)

  /** A task: where it is, its state and wait_channel, and its debt. */
  datatype Task = Task(pc: Pc, blocked: bool, waits: bool, channel: Channel, debt: Debt)

  datatype State = State(pipes: seq<Pipe>, tasks: seq<Task>, generation: nat)

  /** What the task does when it is free to choose. */
  datatype Choice =
    | Go
    | Interrupted
    | Read(pipe: nat, count: nat)
    | Write(pipe: nat, data: seq<Byte>)
    | Close(pipe: nat, writer: bool)
    | AddRef(pipe: nat, writer: bool)
    | Poll(fds: seq<PollFd>)
    | Unblock(task: nat)

  // ----- steps -----

  /** vfs_file_poll on a pipe: some requested event is there, or the other end is closed. */
  predicate Ready(p: Pipe, fd: PollFd) {
    if fd.writer then (fd.wantOut && p.readers > 0 && |p.buf| < CAPACITY) || p.readers == 0
    else (fd.wantIn && p.buf != []) || p.writers == 0
  }

  /** After a readiness transition: wake one channel, then sched_io_notify. */
  function Owes(c: Channel): Debt { Debt(c, 0, true, true, 0, false) }

  /** pipe_close always notifies; it wakes a channel only when the last end of its kind is gone. */
  function CloseDebt(p: Pipe, i: nat, writer: bool): Debt {
    if writer && p.writers == 1 then Owes(ReadOf(i))
    else if !writer && p.readers == 1 then Owes(WriteOf(i))
    else Debt(Io, 0, false, true, 0, false)
  }

  predicate Indebted(d: Debt) { d.scanning || d.notify || d.ioScanning }

  function At(task: Task, pc: Pc): Task { task.(pc := pc) }

  function SetTask(s: State, t: nat, task: Task): State
    requires t < |s.tasks|
  {
    s.(tasks := s.tasks[t := task])
  }

  function SetPipe(s: State, i: nat, p: Pipe): State
    requires i < |s.pipes|
  {
    s.(pipes := s.pipes[i := p])
  }

  /** sched_wakeup's look at one task. */
  function WakeOne(task: Task, c: Channel): Task {
    if task.blocked && task.waits && task.channel == c then task.(blocked := false, waits := false) else task
  }

  /** Pay the next piece of the debt. */
  function Pay(s: State, t: nat): State
    requires t < |s.tasks| && Indebted(s.tasks[t].debt)
  {
    var d := s.tasks[t].debt;
    if d.scanning then
      if d.scan < |s.tasks| then
        var s1 := SetTask(s, d.scan, WakeOne(s.tasks[d.scan], d.channel));
        SetTask(s1, t, s1.tasks[t].(debt := d.(scan := d.scan + 1)))
      else SetTask(s, t, s.tasks[t].(debt := d.(scanning := false)))
    else if d.notify then
      SetTask(s, t, s.tasks[t].(debt := d.(notify := false, ioScan := 0,
          ioScanning := true))).(generation := s.generation + 1)
    else
      if d.ioScan < |s.tasks| then
        var s1 := SetTask(s, d.ioScan, WakeOne(s.tasks[d.ioScan], Io));
        SetTask(s1, t, s1.tasks[t].(debt := d.(ioScan := d.ioScan + 1)))
      else SetTask(s, t, s.tasks[t].(debt := NO_DEBT))
  }

  /** The condition a sleeper sleeps on: still true, keep sleeping. */
  predicate Holds(s: State, pc: Pc) {
    match pc
    case SleepRead(_, i, _) => i < |s.pipes| && s.pipes[i].readWait
    case SleepWrite(_, i, _) => i < |s.pipes| && s.pipes[i].writeWait
    case SleepPoll(_, _, snapshot) => s.generation == snapshot
    case _ => false
  }

  predicate IsSleep(pc: Pc) { pc.SleepRead? || pc.SleepWrite? || pc.SleepPoll? }

  function ChannelOf(pc: Pc): Channel
    requires IsSleep(pc)
  {
    match pc
    case SleepRead(_, i, _) => ReadOf(i)
    case SleepWrite(_, i, _) => WriteOf(i)
    case SleepPoll(_, _, _) => Io
  }

  function AtStage(pc: Pc, stage: Stage): Pc
    requires IsSleep(pc)
  {
    pc.(stage := stage)
  }

  /** Where the caller of a sleep goes on: it looks at the pipe, or at all descriptors, again. */
  function Resume(pc: Pc): Pc
    requires IsSleep(pc)
  {
    match pc
    case SleepRead(_, i, count) => Reading(i, count)
    case SleepWrite(_, i, data) => Writing(i, data)
    case SleepPoll(_, fds, _) => PollStart(fds)
  }

  /** One action of sched_sleep_on_if or sched_io_wait.  `busy` is the early return when the scheduler lock is taken. */
  function SleepStep(s: State, t: nat, busy: bool): State
    requires t < |s.tasks| && IsSleep(s.tasks[t].pc)
  {
    var task := s.tasks[t];
    match task.pc.stage
    case Check =>
      if busy || !Holds(s, task.pc) then SetTask(s, t, At(task, Resume(task.pc)))
      else SetTask(s, t, At(task, AtStage(task.pc, PublishChannel)))
    case PublishChannel => SetTask(s, t, At(task, AtStage(task.pc, PublishBlocked)).(waits := true,
        channel := ChannelOf(task.pc)))
    case PublishBlocked => SetTask(s, t, At(task, AtStage(task.pc, Recheck)).(blocked := true))
    case Recheck =>
      if Holds(s, task.pc) then SetTask(s, t, At(task, AtStage(task.pc, Asleep)))
      else SetTask(s, t, At(task, Resume(task.pc)).(blocked := false, waits := false))
    case Asleep =>
      if task.blocked then s else SetTask(s, t, At(task, Resume(task.pc)).(waits := false))
  }

  /** The locked region of pipe_read and what follows it. */
  function ReadStep(s: State, t: nat, interrupted: bool): State
    requires t < |s.tasks| && s.tasks[t].pc.Reading? && s.tasks[t].pc.pipe < |s.pipes| && s.tasks[t].pc.count > 0
  {
    var task, i, count := s.tasks[t], s.tasks[t].pc.pipe, s.tasks[t].pc.count;
    var p := s.pipes[i];
    var s1 := SetPipe(s, i, ReadLocked(p, count, interrupted));
    if p.buf != [] then SetTask(s1, t, At(task, Idle).(debt := Owes(WriteOf(i))))
    else if p.writers == 0 || interrupted then SetTask(s1, t, At(task, Idle))
    else SetTask(s1, t, At(task, SleepRead(Check, i, count)))
  }

  /** The locked region of pipe_write and what follows it. */
  function WriteStep(s: State, t: nat, interrupted: bool): State
    requires t < |s.tasks| && s.tasks[t].pc.Writing? && s.tasks[t].pc.pipe < |s.pipes| && s.tasks[t].pc.data != []
    requires |s.pipes[s.tasks[t].pc.pipe].buf| <= CAPACITY
  {
    var task, i, data := s.tasks[t], s.tasks[t].pc.pipe, s.tasks[t].pc.data;
    var p := s.pipes[i];
    var n := Least(|data|, CAPACITY - |p.buf|);
    var s1 := SetPipe(s, i, WriteLocked(p, data));
    if p.readers == 0 then SetTask(s1, t, At(task, Idle))
    else
      SetTask(s1, t,
        At(task, if n == |data| || interrupted then Idle else SleepWrite(Check, i, data[n..]))
          .(debt := if n > 0 then Owes(ReadOf(i)) else NO_DEBT))
  }

  /** The scan of one descriptor, or the end of the scan. */
  function ScanStep(s: State, t: nat, interrupted: bool): State
    requires t < |s.tasks| && s.tasks[t].pc.PollScan?
  {
    var task := s.tasks[t];
    var pc := task.pc;
    if pc.index < |pc.fds| then
      var fd := pc.fds[pc.index];
      SetTask(s, t, At(task, pc.(index := pc.index + 1, ready := if fd.pipe < |s.pipes| && Ready(s.pipes[fd.pipe],
          fd) then pc.ready + 1 else pc.ready)))
    else if pc.ready != 0 || interrupted then SetTask(s, t, At(task, Idle))
    else SetTask(s, t, At(task, SleepPoll(Check, pc.fds, pc.snapshot)))
  }

  /** A system call begins.  Closing and sharing an end need an end: the caller holds a descriptor for it. */
  function Begin(s: State, t: nat, c: Choice): State
    requires t < |s.tasks|
  {
    var task := s.tasks[t];
    match c
    case Read(i, count) => if i < |s.pipes| && count > 0 then SetTask(s, t, At(task, Reading(i, count))) else s
    case Write(i, data) => if i < |s.pipes| && data != [] then SetTask(s, t, At(task, Writing(i, data))) else s
    case Close(i, writer) =>
      if i < |s.pipes| && (if writer then s.pipes[i].writers > 0 else s.pipes[i].readers > 0) then
        SetTask(SetPipe(s, i, CloseLocked(s.pipes[i], writer)), t, task.(debt := CloseDebt(s.pipes[i], i, writer)))
      else s
    case AddRef(i, writer) =>
      if i < |s.pipes| && (if writer then s.pipes[i].writers > 0 else s.pipes[i].readers > 0) then
        SetPipe(s, i, AddRefLocked(s.pipes[i], writer))
      else s
    case Poll(fds) => SetTask(s, t, At(task, PollStart(fds)))
    // a signal, a timer or a kill makes another task runnable
    case Unblock(u) => if u < |s.tasks| then SetTask(s, u, s.tasks[u].(blocked := false)) else s
    case _ => s
  }

  /** One step of task t. */
  function Step(s: State, t: nat, c: Choice): State
    requires Inv(s) && t < |s.tasks|
  {
    var task := s.tasks[t];
    if Indebted(task.debt) then Pay(s, t)
    else
      match task.pc
      case Idle => Begin(s, t, c)
      case Reading(_, _) => ReadStep(s, t, c == Interrupted)
      case Writing(_, _) => WriteStep(s, t, c == Interrupted)
      case PollStart(fds) => SetTask(s, t, At(task, PollScan(fds, s.generation, 0, 0)))
      case PollScan(_, _, _, _) => ScanStep(s, t, c == Interrupted)
      case _ => SleepStep(s, t, c == Interrupted)
  }

  // ----- the invariant -----

  /** u's wakeup of channel c has yet to look at task t. */
  predicate Covers(u: Task, c: Channel, t: nat) {
    (u.debt.scanning && u.debt.channel == c && u.debt.scan <= t) || (c == Io && u.debt.ioScanning && u.debt.ioScan <= t)
  }

  ghost predicate WakeupPending(s: State, c: Channel, t: nat) {
    exists u :: 0 <= u < |s.tasks| && Covers(s.tasks[u], c, t)
  }

  ghost predicate NotifyPending(s: State) { exists u :: 0 <= u < |s.tasks| && s.tasks[u].debt.notify }

  predicate PcOk(s: State, pc: Pc) {
    match pc
    case Reading(i, count) => i < |s.pipes| && count > 0
    case Writing(i, data) => i < |s.pipes| && data != []
    case SleepRead(_, i, count) => i < |s.pipes| && count > 0
    case SleepWrite(_, i, data) => i < |s.pipes| && data != []
    case PollScan(fds, snapshot, index, _) => index <= |fds| && snapshot <= s.generation
    case SleepPoll(_, _, snapshot) => snapshot <= s.generation
    case _ => true
  }

  /** The published wait state says what the task sleeps on; it owes nothing while it sleeps. */
  predicate TaskOk(s: State, task: Task) {
    && PcOk(s, task.pc)
    && (task.blocked ==> task.waits && IsSleep(task.pc) && (task.pc.stage.Recheck? || task.pc.stage.Asleep?))
    && (task.waits ==> IsSleep(task.pc) && !task.pc.stage.Check? && !task.pc.stage.PublishChannel? && task.channel == ChannelOf(task.pc))
    && (IsSleep(task.pc) && !task.pc.stage.Check? ==> !Indebted(task.debt))
    && (IsSleep(task.pc) && task.pc.stage.PublishBlocked? ==> task.waits)
    && (task.debt.ioScanning ==> !task.debt.scanning && !task.debt.notify)
  }

  /** A sleeper whose condition has gone is about to be woken. */
  ghost predicate SleeperOk(s: State, t: nat)
    requires t < |s.tasks|
  {
    var task := s.tasks[t];
    IsSleep(task.pc) && task.pc.stage.Asleep? && task.blocked && !Holds(s, task.pc) ==>
      WakeupPending(s, ChannelOf(task.pc), t)
  }

  /** A descriptor found not ready that is ready now has been announced, or is about to be. */
  ghost predicate Announced(s: State, fd: PollFd, snapshot: nat) {
    fd.pipe < |s.pipes| && Ready(s.pipes[fd.pipe], fd) ==> snapshot < s.generation || NotifyPending(s)
  }

  ghost predicate PollerOk(s: State, task: Task) {
    && (task.pc.PollScan? && task.pc.ready == 0 ==>
      forall k :: 0 <= k < task.pc.index && k < |task.pc.fds| ==> Announced(s, task.pc.fds[k], task.pc.snapshot))
    && (task.pc.SleepPoll? ==> forall k :: 0 <= k < |task.pc.fds| ==> Announced(s, task.pc.fds[k], task.pc.snapshot))
  }

  ghost predicate Inv(s: State) {
    && (forall i :: 0 <= i < |s.pipes| ==> PipeOk(s.pipes[i]))
    && (forall t :: 0 <= t < |s.tasks| ==> TaskOk(s, s.tasks[t]) && SleeperOk(s, t) && PollerOk(s, s.tasks[t]))
  }

  // ----- what every step does to the tasks it is not a step of -----

  /** Only what a wakeup does. */
  predicate Nudged(task: Task, task': Task) {
    && task'.pc == task.pc && task'.channel == task.channel && task'.debt == task.debt
    && (task' != task ==> task.blocked && !task'.blocked) && (task'.waits ==> task.waits)
  }

  ghost predicate PipesMove(s: State, s': State, task': Task) {
    && |s'.pipes| == |s.pipes|
    && (forall i :: 0 <= i < |s.pipes| ==> PipeOk(s'.pipes[i]))
    && (forall i :: 0 <= i < |s.pipes| && s.pipes[i].readWait && !s'.pipes[i].readWait ==> task'.debt == Owes(ReadOf(i)))
    && (forall i :: 0 <= i < |s.pipes| && s.pipes[i].writeWait && !s'.pipes[i].writeWait ==> task'.debt == Owes(WriteOf(i)))
    && (forall i, fd :: 0 <= i < |s.pipes| && Ready(s'.pipes[i], fd) && !Ready(s.pipes[i], fd) ==> task'.debt.notify)
  }

  ghost predicate DebtMoves(s: State, s': State, t: nat)
    requires t < |s.tasks| == |s'.tasks|
  {
    && s.generation <= s'.generation
    && (s'.generation > s.generation ==> s'.tasks[t].debt.ioScanning && s'.tasks[t].debt.ioScan == 0)
    && (s.tasks[t].debt.notify && !s'.tasks[t].debt.notify ==> s'.generation > s.generation)
    && (forall c, u :: 0 <= u < |s.tasks| && u != t && Covers(s.tasks[t], c, u) ==>
         Covers(s'.tasks[t], c, u) || !s'.tasks[u].blocked || s'.tasks[u].channel != c)
  }

  ghost predicate Moves(s: State, s': State, t: nat) {
    && t < |s.tasks| == |s'.tasks|
    && PipesMove(s, s', s'.tasks[t]) && DebtMoves(s, s', t)
    && (forall u :: 0 <= u < |s.tasks| && u != t ==> Nudged(s.tasks[u], s'.tasks[u]))
  }

  lemma StillPending(s: State, s': State, t: nat, c: Channel, u: nat)
    requires Moves(s, s', t) && u < |s.tasks| && u != t && WakeupPending(s, c, u) && s'.tasks[u].blocked
    requires s'.tasks[u].channel == c
    ensures WakeupPending(s', c, u)
  {
    var w :| 0 <= w < |s.tasks| && Covers(s.tasks[w], c, u);
    if w == t {
      assert Covers(s'.tasks[t], c, u);
    } else {
      assert Nudged(s.tasks[w], s'.tasks[w]);
      assert Covers(s'.tasks[w], c, u);
    }
  }

  lemma StillAnnounced(s: State, s': State, t: nat, fd: PollFd, snapshot: nat)
    requires Moves(s, s', t) && Announced(s, fd, snapshot) && snapshot <= s.generation
    ensures Announced(s', fd, snapshot)
  {
    if fd.pipe < |s.pipes| && Ready(s'.pipes[fd.pipe], fd) && snapshot == s'.generation {
      if !Ready(s.pipes[fd.pipe], fd) {
        assert s'.tasks[t].debt.notify;
      } else {
        var u :| 0 <= u < |s.tasks| && s.tasks[u].debt.notify;
        if u != t { assert Nudged(s.tasks[u], s'.tasks[u]); }
        assert s'.tasks[u].debt.notify;
      }
    }
  }

  lemma SleeperStays(s: State, s': State, t: nat, u: nat)
    requires Inv(s) && Moves(s, s', t) && u < |s.tasks| && u != t
    ensures SleeperOk(s', u)
  {
    var task, task' := s.tasks[u], s'.tasks[u];
    assert Nudged(task, task') && TaskOk(s, task) && SleeperOk(s, u);
    if IsSleep(task.pc) && task.pc.stage.Asleep? && task'.blocked && !Holds(s', task.pc) {
      var c := ChannelOf(task.pc);
      if Holds(s, task.pc) {
        assert Covers(s'.tasks[t], c, u);
      } else {
        StillPending(s, s', t, c, u);
      }
    }
  }

  lemma PollerStays(s: State, s': State, t: nat, u: nat)
    requires Inv(s) && Moves(s, s', t) && u < |s.tasks| && u != t
    ensures PollerOk(s', s'.tasks[u])
  {
    var task := s.tasks[u];
    assert Nudged(task, s'.tasks[u]) && TaskOk(s, task) && PollerOk(s, task);
    if task.pc.PollScan? || task.pc.SleepPoll? {
      forall k | 0 <= k < |task.pc.fds| && Announced(s, task.pc.fds[k], task.pc.snapshot)
        ensures Announced(s', task.pc.fds[k], task.pc.snapshot)
      {
        StillAnnounced(s, s', t, task.pc.fds[k], task.pc.snapshot);
      }
    }
  }

  lemma TaskStays(s: State, s': State, t: nat, u: nat)
    requires Inv(s) && Moves(s, s', t) && u < |s.tasks| && u != t
    ensures TaskOk(s', s'.tasks[u])
  {
    assert Nudged(s.tasks[u], s'.tasks[u]) && TaskOk(s, s.tasks[u]);
  }

  /** If the task that moved is in order, everything is. */
  lemma MoveKeepsInv(s: State, s': State, t: nat)
    requires Inv(s) && Moves(s, s', t)
    requires TaskOk(s', s'.tasks[t]) && SleeperOk(s', t) && PollerOk(s', s'.tasks[t])
    ensures Inv(s')
  {
    forall u | 0 <= u < |s'.tasks| ensures TaskOk(s', s'.tasks[u]) && SleeperOk(s', u) && PollerOk(s', s'.tasks[u]) {
      if u != t {
        TaskStays(s, s', t, u);
        SleeperStays(s, s', t, u);
        PollerStays(s, s', t, u);
      }
    }
    hide TaskOk, SleeperOk, PollerOk;
  }

  // ----- each step -----

  /** What a step may change of the pipes, and what it has to announce. */
  lemma PipeStep(s: State, s': State, i: nat, p: Pipe, task': Task)
    requires Inv(s) && i < |s.pipes| && s'.pipes == s.pipes[i := p] && PipeOk(p)
    requires s.pipes[i].readWait && !p.readWait ==> task'.debt == Owes(ReadOf(i))
    requires s.pipes[i].writeWait && !p.writeWait ==> task'.debt == Owes(WriteOf(i))
    requires forall fd :: Ready(p, fd) && !Ready(s.pipes[i], fd) ==> task'.debt.notify
    ensures PipesMove(s, s', task')
  {
  }

  lemma ReadKeepsInv(s: State, t: nat, interrupted: bool)
    requires Inv(s) && t < |s.tasks| && !Indebted(s.tasks[t].debt) && s.tasks[t].pc.Reading?
    ensures s.tasks[t].pc.pipe < |s.pipes| && s.tasks[t].pc.count > 0 && Inv(ReadStep(s, t, interrupted))
  {
    var i := s.tasks[t].pc.pipe;
    assert TaskOk(s, s.tasks[t]);
    var s' := ReadStep(s, t, interrupted);
    RegionsKeepPipe(s.pipes[i], s.tasks[t].pc.count, interrupted, [0], false);
    PipeStep(s, s', i, s'.pipes[i], s'.tasks[t]);
    MoveKeepsInv(s, s', t);
  }

  lemma WriteKeepsInv(s: State, t: nat, interrupted: bool)
    requires Inv(s) && t < |s.tasks| && !Indebted(s.tasks[t].debt) && s.tasks[t].pc.Writing?
    ensures s.tasks[t].pc.pipe < |s.pipes| && s.tasks[t].pc.data != [] && |s.pipes[s.tasks[t].pc.pipe].buf| <= CAPACITY
    ensures Inv(WriteStep(s, t, interrupted))
  {
    var i := s.tasks[t].pc.pipe;
    assert TaskOk(s, s.tasks[t]);
    var s' := WriteStep(s, t, interrupted);
    RegionsKeepPipe(s.pipes[i], 1, interrupted, s.tasks[t].pc.data, false);
    PipeStep(s, s', i, s'.pipes[i], s'.tasks[t]);
    MoveKeepsInv(s, s', t);
  }

  lemma BeginKeepsInv(s: State, t: nat, c: Choice)
    requires Inv(s) && t < |s.tasks| && !Indebted(s.tasks[t].debt) && s.tasks[t].pc.Idle?
    ensures Inv(Begin(s, t, c))
  {
    var s' := Begin(s, t, c);
    assert TaskOk(s, s.tasks[t]);
    if (c.Close? || c.AddRef?) && c.pipe < |s.pipes| && (if c.writer then s.pipes[c.pipe].writers > 0 else s.pipes[c.pipe].readers > 0) {
      RegionsKeepPipe(s.pipes[c.pipe], 1, false, [0], c.writer);
      PipeStep(s, s', c.pipe, s'.pipes[c.pipe], s'.tasks[t]);
    }
    MoveKeepsInv(s, s', t);
  }

  lemma ScanKeepsInv(s: State, t: nat, interrupted: bool)
    requires Inv(s) && t < |s.tasks| && !Indebted(s.tasks[t].debt) && s.tasks[t].pc.PollScan?
    ensures Inv(ScanStep(s, t, interrupted))
  {
    var s', pc := ScanStep(s, t, interrupted), s.tasks[t].pc;
    assert TaskOk(s, s.tasks[t]) && PollerOk(s, s.tasks[t]);
    forall fd | Announced(s, fd, pc.snapshot) ensures Announced(s', fd, pc.snapshot) {
      if NotifyPending(s) {
        var u :| 0 <= u < |s.tasks| && s.tasks[u].debt.notify;
        assert s'.tasks[u].debt.notify;
      }
    }
    MoveKeepsInv(s, s', t);
  }

  lemma SleepKeepsInv(s: State, t: nat, busy: bool)
    requires Inv(s) && t < |s.tasks| && !Indebted(s.tasks[t].debt) && IsSleep(s.tasks[t].pc)
    ensures Inv(SleepStep(s, t, busy))
  {
    var s' := SleepStep(s, t, busy);
    assert TaskOk(s, s.tasks[t]) && PollerOk(s, s.tasks[t]);
    MoveKeepsInv(s, s', t);
  }

  lemma PollKeepsInv(s: State, t: nat)
    requires Inv(s) && t < |s.tasks| && !Indebted(s.tasks[t].debt) && s.tasks[t].pc.PollStart?
    ensures Inv(SetTask(s, t, At(s.tasks[t], PollScan(s.tasks[t].pc.fds, s.generation, 0, 0))))
  {
    assert TaskOk(s, s.tasks[t]);
    MoveKeepsInv(s, SetTask(s, t, At(s.tasks[t], PollScan(s.tasks[t].pc.fds, s.generation, 0, 0))), t);
  }

  lemma PayKeepsInv(s: State, t: nat)
    requires Inv(s) && t < |s.tasks| && Indebted(s.tasks[t].debt)
    ensures Inv(Pay(s, t))
  {
    var s' := Pay(s, t);
    assert TaskOk(s, s.tasks[t]) && PollerOk(s, s.tasks[t]);
    MoveKeepsInv(s, s', t);
  }

  /** Every step of every task keeps the invariant. */
  lemma StepKeepsInv(s: State, t: nat, c: Choice)
    requires Inv(s) && t < |s.tasks|
    ensures Inv(Step(s, t, c))
  {
    hide Inv, Pay, Begin, ReadStep, WriteStep, ScanStep, SleepStep;
    var task := s.tasks[t];
    if Indebted(task.debt) {
      PayKeepsInv(s, t);
    } else {
      match task.pc
      case Idle => BeginKeepsInv(s, t, c);
      case Reading(_, _) => ReadKeepsInv(s, t, c == Interrupted);
      case Writing(_, _) => WriteKeepsInv(s, t, c == Interrupted);
      case PollStart(_) => PollKeepsInv(s, t);
      case PollScan(_, _, _, _) => ScanKeepsInv(s, t, c == Interrupted);
      case _ => SleepKeepsInv(s, t, c == Interrupted);
    }
  }

  // ----- whole runs -----

  /** Any pipes and any number of tasks, before anything has happened. */
  function Start(pipes: nat, tasks: nat): State {
    State(seq(pipes, _ => Pipe([], 1, 1, false, false, [], [])),
        seq(tasks, _ => Task(Idle, false, false, Io, NO_DEBT)), 0)
  }

  lemma StartInv(pipes: nat, tasks: nat)
    ensures Inv(Start(pipes, tasks))
  {
  }

  /** The states a run goes through: at each step any task makes any choice. */
  ghost predicate IsRun(states: seq<State>) {
    && states != []
    && (exists pipes: nat, tasks: nat :: states[0] == Start(pipes, tasks))
    && (forall k :: 0 <= k < |states| - 1 ==> Follows(states[k], states[k + 1]))
  }

  ghost predicate Follows(s: State, s': State) {
    Inv(s) ==> exists t: nat, c: Choice :: t < |s.tasks| && s' == Step(s, t, c)
  }

  lemma {:induction false} RunInv(states: seq<State>)
    requires IsRun(states)
    ensures Inv(states[|states| - 1])
    decreases |states|
  {
    hide Inv, Step, Start;
    var n := |states| - 1;
    if n == 0 {
      var pipes: nat, tasks: nat :| states[0] == Start(pipes, tasks);
      StartInv(pipes, tasks);
    } else {
      var init := states[..n];
      forall k | 0 <= k < |init| - 1 ensures Follows(init[k], init[k + 1]) {
        assert Follows(states[k], states[k + 1]);
      }
      RunInv(init);
      assert Follows(states[n - 1], states[n]);
      var t: nat, c: Choice :| t < |states[n - 1].tasks| && states[n] == Step(states[n - 1], t, c);
      StepKeepsInv(states[n - 1], t, c);
    }
  }

  /** A task that sleeps on a condition: past the last check, and blocked. */
  predicate AsleepOn(task: Task) { task.blocked && IsSleep(task.pc) && task.pc.stage.Asleep? }

  /** What a sleeper waits for has not happened. */
  predicate Waiting(s: State, pc: Pc)
    requires IsSleep(pc) && PcOk(s, pc)
  {
    match pc
    case SleepRead(_, i, _) => s.pipes[i].buf == [] && s.pipes[i].writers > 0
    case SleepWrite(_, i, _) => |s.pipes[i].buf| == CAPACITY && s.pipes[i].readers > 0
    case SleepPoll(_, fds, _) => forall k :: 0 <= k < |fds| && fds[k].pipe < |s.pipes| ==>
      !Ready(s.pipes[fds[k].pipe], fds[k])
  }

  /** No wakeup is ever lost: in every reachable state, what a sleeper waits for has not happened, or a
      wakeup of its channel has yet to look at it, or (in poll) the notification is still to be made. */
  lemma NoLostWakeup(states: seq<State>, t: nat)
    requires IsRun(states)
    ensures var s := states[|states| - 1];
      t < |s.tasks| && AsleepOn(s.tasks[t]) ==>
        && PcOk(s, s.tasks[t].pc)
        && (Waiting(s, s.tasks[t].pc) || WakeupPending(s, ChannelOf(s.tasks[t].pc),
            t) || (s.tasks[t].pc.SleepPoll? && NotifyPending(s)))
  {
    RunInv(states);
    var s := states[|states| - 1];
    hide IsRun;
    if t < |s.tasks| && AsleepOn(s.tasks[t]) { SleeperIsRight(s, t); }
  }

  lemma SleeperIsRight(s: State, t: nat)
    requires Inv(s) && t < |s.tasks| && AsleepOn(s.tasks[t])
    ensures PcOk(s, s.tasks[t].pc)
    ensures Waiting(s, s.tasks[t].pc) || WakeupPending(s, ChannelOf(s.tasks[t].pc),
        t) || (s.tasks[t].pc.SleepPoll? && NotifyPending(s))
  {
    var pc := s.tasks[t].pc;
    assert TaskOk(s, s.tasks[t]) && SleeperOk(s, t) && PollerOk(s, s.tasks[t]);
    if Holds(s, pc) && pc.SleepPoll? && !NotifyPending(s) {
      forall k | 0 <= k < |pc.fds| && pc.fds[k].pipe < |s.pipes| ensures !Ready(s.pipes[pc.fds[k].pipe], pc.fds[k]) {
        assert Announced(s, pc.fds[k], pc.snapshot);
      }
    }
  }

  /** Once all debts are paid, every sleeper sleeps for a reason. */
  lemma QuietSleepersWait(states: seq<State>, t: nat)
    requires IsRun(states)
    ensures var s := states[|states| - 1];
      (forall u :: 0 <= u < |s.tasks| ==> !Indebted(s.tasks[u].debt)) && t < |s.tasks| && AsleepOn(s.tasks[t]) ==>
        PcOk(s, s.tasks[t].pc) && Waiting(s, s.tasks[t].pc)
  {
    NoLostWakeup(states, t);
    hide IsRun, Waiting;
  }

  /** What was taken out of a pipe, followed by what is in it, is what was put in. */
  lemma PipesAreFifo(states: seq<State>, i: nat)
    requires IsRun(states)
    ensures var s := states[|states| - 1];
      i < |s.pipes| ==> s.pipes[i].put == s.pipes[i].got + s.pipes[i].buf && |s.pipes[i].buf| <= CAPACITY
  {
    RunInv(states);
    hide IsRun;
    var s := states[|states| - 1];
    assert i < |s.pipes| ==> PipeOk(s.pipes[i]);
  }

  // ----- a pending wakeup arrives -----

  /** How many pieces of debt are left. */
  function DebtSize(s: State, d: Debt): nat {
    (if d.scanning && d.scan <= |s.tasks| then |s.tasks| - d.scan + 1 else if d.scanning then 1 else 0)
    + (if d.notify then |s.tasks| + 2 else 0)
    + (if d.ioScanning && d.ioScan <= |s.tasks| then |s.tasks| - d.ioScan + 1 else if d.ioScanning then 1 else 0)
  }

  predicate BlockedOn(task: Task, c: Channel) { task.blocked && task.waits && task.channel == c }

  /** The task still owes task u a look for a wakeup of channel c. */
  predicate OwesTo(w: Task, c: Channel, u: nat) { Covers(w, c, u) || (c == Io && w.debt.notify) }

  /** A step of another task leaves what w owes. */
  lemma DebtUntouched(s: State, t: nat, choice: Choice, w: nat)
    requires Inv(s) && t < |s.tasks| && w < |s.tasks| && w != t
    ensures |Step(s, t, choice).tasks| == |s.tasks| && Step(s, t, choice).tasks[w].debt == s.tasks[w].debt
  {
    hide Inv, Holds, Ready, ReadLocked, WriteLocked, CloseLocked, AddRefLocked, Least;
  }

  /** A step of a task that owes something pays some of it; and whom it owed, it still owes or has just woken. */
  lemma DebtPaid(s: State, w: nat, c: Channel, u: nat)
    requires w < |s.tasks| && u < |s.tasks| && OwesTo(s.tasks[w], c, u)
    requires s.tasks[w].debt.ioScanning ==> !s.tasks[w].debt.scanning && !s.tasks[w].debt.notify
    ensures |Pay(s, w).tasks| == |s.tasks|
    ensures DebtSize(s, s.tasks[w].debt) > DebtSize(Pay(s, w), Pay(s, w).tasks[w].debt)
    ensures OwesTo(Pay(s, w).tasks[w], c, u) || !BlockedOn(Pay(s, w).tasks[u], c)
  {
  }

  /** The state after steps of the given tasks with the given choices. */
  ghost function After(s: State, schedule: seq<(nat, Choice)>): (r: State)
    requires Inv(s) && forall k :: 0 <= k < |schedule| ==> schedule[k].0 < |s.tasks|
    ensures Inv(r) && |r.tasks| == |s.tasks|
    decreases |schedule|
  {
    if schedule == [] then s
    else
      StepKeepsInv(s, schedule[0].0, schedule[0].1);
      StepKeepsCount(s, schedule[0].0, schedule[0].1);
      After(Step(s, schedule[0].0, schedule[0].1), schedule[1..])
  }

  lemma StepKeepsCount(s: State, t: nat, choice: Choice)
    requires Inv(s) && t < |s.tasks|
    ensures |Step(s, t, choice).tasks| == |s.tasks|
  {
    hide Inv, Holds, Ready, ReadLocked, WriteLocked, CloseLocked, AddRefLocked, Least;
  }

  /** How many of the steps are task w's. */
  ghost function StepsOf(schedule: seq<(nat, Choice)>, w: nat): nat {
    if schedule == [] then 0 else (if schedule[0].0 == w then 1 else 0) + StepsOf(schedule[1..], w)
  }

  /** A pending wakeup arrives, whatever the other tasks do meanwhile: once the waking task has made as many steps as
      it owes, every task it had yet to look at has been runnable. */
  lemma {:induction false} PendingWakeupArrives(s: State, schedule: seq<(nat, Choice)>, w: nat, c: Channel, u: nat)
    requires Inv(s) && (forall k :: 0 <= k < |schedule| ==> schedule[k].0 < |s.tasks|) && w < |s.tasks| && u < |s.tasks|
    requires OwesTo(s.tasks[w], c, u) && StepsOf(schedule, w) >= DebtSize(s, s.tasks[w].debt)
    ensures exists k :: 0 <= k <= |schedule| && !BlockedOn(After(s, schedule[..k]).tasks[u], c)
    decreases |schedule|
  {
    var t, choice := schedule[0].0, schedule[0].1;
    var s', rest := Step(s, t, choice), schedule[1..];
    StepKeepsInv(s, t, choice);
    StepKeepsCount(s, t, choice);
    if t == w {
      OwingPays(s, w, choice, c, u);
      DebtPaid(s, w, c, u);
    } else {
      DebtUntouched(s, t, choice, w);
      SameDebt(s, s', w, c, u);
    }
    hide Inv, Step, Pay, BlockedOn, OwesTo, DebtSize, After;
    if !BlockedOn(s'.tasks[u], c) {
      AfterOne(s, schedule);
    } else {
      PendingWakeupArrives(s', rest, w, c, u);
      var k :| 0 <= k <= |rest| && !BlockedOn(After(s', rest[..k]).tasks[u], c);
      AfterMore(s, schedule, k);
      assert !BlockedOn(After(s, schedule[..k + 1]).tasks[u], c);
    }
  }

  lemma OwingPays(s: State, w: nat, choice: Choice, c: Channel, u: nat)
    requires Inv(s) && w < |s.tasks| && OwesTo(s.tasks[w], c, u)
    ensures Indebted(s.tasks[w].debt) && Step(s, w, choice) == Pay(s, w)
    ensures s.tasks[w].debt.ioScanning ==> !s.tasks[w].debt.scanning && !s.tasks[w].debt.notify
  {
    assert TaskOk(s, s.tasks[w]);
  }

  lemma SameDebt(s: State, s': State, w: nat, c: Channel, u: nat)
    requires w < |s.tasks| == |s'.tasks| && s'.tasks[w].debt == s.tasks[w].debt && OwesTo(s.tasks[w], c, u)
    ensures DebtSize(s', s'.tasks[w].debt) == DebtSize(s, s.tasks[w].debt) && OwesTo(s'.tasks[w], c, u)
  {
  }

  lemma AfterOne(s: State, schedule: seq<(nat, Choice)>)
    requires Inv(s) && schedule != [] && forall k :: 0 <= k < |schedule| ==> schedule[k].0 < |s.tasks|
    ensures After(s, schedule[..1]) == Step(s, schedule[0].0, schedule[0].1)
  {
    hide Inv, Step;
    assert schedule[..1][1..] == [];
  }

  lemma AfterMore(s: State, schedule: seq<(nat, Choice)>, k: nat)
    requires Inv(s) && k < |schedule| && forall i :: 0 <= i < |schedule| ==> schedule[i].0 < |s.tasks|
    requires Inv(Step(s, schedule[0].0, schedule[0].1)) && |Step(s, schedule[0].0, schedule[0].1).tasks| == |s.tasks|
    ensures After(s, schedule[..k + 1]) == After(Step(s, schedule[0].0, schedule[0].1), schedule[1..][..k])
  {
    hide Inv, Step;
    assert schedule[..k + 1][1..] == schedule[1..][..k];
  }
}
