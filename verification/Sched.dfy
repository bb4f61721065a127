// Choosing the next task (sched/sched.c): timers, the round-robin search, and the selection loop.
module Sched {
  const MAX_TASKS: nat := 1024
  const IDLE: nat := 0

  datatype Status = New | Ready | Running | Blocked | Stopped | Finished
  datatype Timer = Unused | Ticking(end: nat) | Expired

  /** The part of struct ktask the scheduler looks at; pid -1 marks an unused slot. */
  datatype Slot = Slot(pid: int, status: Status, timer: Timer)

  predicate Runnable(s: Slot) { s.pid != -1 && (s.status.New? || s.status.Ready?) }

  /** update_timers on one slot. */
  function Ticked(s: Slot, now: nat): Slot {
    if s.status.Stopped? then s
    else if s.timer.Ticking? && now >= s.timer.end then s.(timer := Expired, status := Ready)
    else if s.timer.Ticking? then s.(status := Blocked)
    else s
  }

  function AllTicked(slots: seq<Slot>, now: nat): (r: seq<Slot>)
    ensures |r| == |slots| && forall i :: 0 <= i < |slots| ==> r[i] == Ticked(slots[i], now)
  {
    if slots == [] then [] else AllTicked(slots[..|slots| - 1], now) + [Ticked(slots[|slots| - 1], now)]
  }

  /** Looking at the timers again at the same time changes nothing. */
  lemma TickedTwice(s: Slot, now: nat)
    ensures Ticked(Ticked(s, now), now) == Ticked(s, now)
  {
  }

  // ----- positions on the circle of task slots -----

  /** How many steps lead from slot a to slot b. */
  function Distance(a: nat, b: nat): (d: nat)
    requires a < MAX_TASKS && b < MAX_TASKS
    ensures d < MAX_TASKS && (d == 0 <==> a == b) && b == (a + d) % MAX_TASKS
  {
    if b >= a then b - a else MAX_TASKS - a + b
  }

  /** w is the first runnable slot strictly after i, going round; i itself comes last. */
  ghost predicate FirstAfter(slots: seq<Slot>, i: nat, w: nat)
    requires |slots| == MAX_TASKS && i < MAX_TASKS
  {
    && w < MAX_TASKS && Runnable(slots[w])
    && forall t :: 0 <= t < MAX_TASKS && Runnable(slots[t]) && t != i ==> w != i && Distance(i, w) <= Distance(i, t)
  }

  /** The slot the selection has to find from `next` on: the first runnable one, the idle task only if there is no
      other. */
  ghost predicate Choice(slots: seq<Slot>, next: nat, w: nat)
    requires |slots| == MAX_TASKS && next < MAX_TASKS
  {
    && w < MAX_TASKS && Runnable(slots[w])
    && (w == IDLE ==> forall t :: 0 < t < MAX_TASKS ==> !Runnable(slots[t]))
    && (w != IDLE ==> forall t :: 0 < t < MAX_TASKS && Runnable(slots[t]) ==> Distance(next, w) <= Distance(next, t))
  }

  /** There is one choice at most. */
  lemma ChoiceUnique(slots: seq<Slot>, next: nat, v: nat, w: nat)
    requires |slots| == MAX_TASKS && next < MAX_TASKS && Choice(slots, next, v) && Choice(slots, next, w)
    ensures v == w
  {
    if v != IDLE && w != IDLE { SameDistance(next, v, w); }
  }

  lemma SameDistance(a: nat, b: nat, c: nat)
    requires a < MAX_TASKS && b < MAX_TASKS && c < MAX_TASKS && Distance(a, b) == Distance(a, c)
    ensures b == c
  {
  }

  /** Going from i to the first runnable slot after it passes no runnable slot. */
  lemma StepOn(slots: seq<Slot>, i: nat, w: nat, t: nat)
    requires |slots| == MAX_TASKS && i < MAX_TASKS && FirstAfter(slots, i, w) && t < MAX_TASKS && Runnable(slots[t])
    requires t != i
    ensures Distance(w, t) < Distance(i, t) && Distance(i, w) + Distance(w, t) == Distance(i, t)
  {
  }

  // ----- many dispatches -----

  /** One dispatch: the slots after the timers, where the search started, what was chosen, and where it starts next. */
  datatype Round = Round(slots: seq<Slot>, next: nat, chosen: nat, after: nat)

  ghost predicate RoundOk(r: Round) {
    && |r.slots| == MAX_TASKS && r.next < MAX_TASKS && r.after < MAX_TASKS
    && Choice(r.slots, r.next, r.chosen) && FirstAfter(r.slots, r.chosen, r.after)
  }

  ghost predicate History(rounds: seq<Round>) {
    && (forall k :: 0 <= k < |rounds| ==> RoundOk(rounds[k]))
    && (forall k :: 0 <= k < |rounds| - 1 ==> Follows(rounds[k], rounds[k + 1]))
  }

  predicate Follows(r: Round, r': Round) { r'.next == r.after }

  /** Each dispatch of another task brings the search closer to t. */
  lemma RoundCloser(r: Round, t: nat)
    requires RoundOk(r) && 0 < t < MAX_TASKS && Runnable(r.slots[t]) && r.chosen != t
    ensures Distance(r.after, t) < Distance(r.next, t)
  {
    assert r.chosen != IDLE;
    StepOn(r.slots, r.chosen, r.after, t);
  }

  /** A task other than the idle task that stays runnable is dispatched within as many dispatches as there are slots. */
  lemma {:induction false} BoundedWaiting(rounds: seq<Round>, t: nat)
    requires History(rounds) && 0 < t < MAX_TASKS && |rounds| >= 1
    requires forall k :: 0 <= k < |rounds| ==> Runnable(rounds[k].slots[t])
    requires |rounds| > Distance(rounds[0].next, t)
    ensures exists k :: 0 <= k < |rounds| && rounds[k].chosen == t
    decreases |rounds|
  {
    var r := rounds[0];
    if r.chosen != t {
      RoundCloser(r, t);
      var rest := rounds[1..];
      assert Distance(r.next, t) >= 1;
      assert Follows(rounds[0], rounds[1]);
      forall k | 0 <= k < |rest| - 1 ensures Follows(rest[k],
          rest[k + 1]) { assert Follows(rounds[k + 1], rounds[k + 2]); }
      BoundedWaiting(rest, t);
      var k :| 0 <= k < |rest| && rest[k].chosen == t;
      assert rounds[k + 1].chosen == t;
    }
  }

  class Scheduler {
    const tasks: array<Slot>
    var next_task: nat
    var prev_task: int

    ghost predicate Valid()
      reads this
    {
      tasks.Length == MAX_TASKS && next_task < MAX_TASKS && -1 <= prev_task < MAX_TASKS
    }

    constructor ()
      ensures Valid() && fresh(tasks)
    {
      tasks := new Slot[MAX_TASKS](_ => Slot(-1, Finished, Unused));
      next_task, prev_task := 0, -1;
    }

    /** update_timers. */
    method UpdateTimers(now: nat)
      requires tasks.Length == MAX_TASKS
      modifies tasks
      ensures tasks[..] == AllTicked(old(tasks[..]), now)
    {
      var i := 0;
      while i < MAX_TASKS
        invariant i <= MAX_TASKS
        invariant forall k :: 0 <= k < MAX_TASKS ==>
          tasks[k] == if k < i then Ticked(old(tasks[k]), now) else old(tasks[k])
      {
        if !tasks[i].status.Stopped? {
          if tasks[i].timer.Ticking? && now >= tasks[i].timer.end {
            tasks[i] := tasks[i].(timer := Expired, status := Ready);
          } else if tasks[i].timer.Ticking? {
            tasks[i] := tasks[i].(status := Blocked);
          }
        }
        i := i + 1;
      }
    }

    /** find_next_task; -1 stands for the panic when nothing can run. */
    method FindNext(current: nat) returns (found: int)
      requires tasks.Length == MAX_TASKS && current < MAX_TASKS
      ensures found < 0 <==> NoneRunnable(tasks[..])
      ensures found >= 0 ==> found < MAX_TASKS && FirstAfter(tasks[..], current, found)
    {
      var i, trys := current, 0;
      found := -1;
      while found == -1 && trys < 2 * MAX_TASKS
        invariant trys <= 2 * MAX_TASKS && i == (current + trys) % MAX_TASKS
        invariant found == -1 ==> forall t :: 0 <= t < MAX_TASKS && Runnable(tasks[t]) ==> Distance(current, t) > trys || (t == current && trys < MAX_TASKS)
        invariant found != -1 ==> FirstAfter(tasks[..], current, found)
        decreases 2 * MAX_TASKS - trys, found == -1
      {
        var before := i;
        i := (i + 1) % MAX_TASKS;
        trys := trys + 1;
        if tasks[i].pid != -1 && (tasks[i].status.New? || tasks[i].status.Ready?) {
          found := i;
        }
      }
    }

    /** Whether a task other than the idle task can run. */
    method OtherRunnable() returns (skip_idle: bool)
      requires tasks.Length == MAX_TASKS
      ensures skip_idle <==> OthersRunnable(tasks[..])
    {
      skip_idle := false;
      var j := IDLE + 1;
      while j < MAX_TASKS
        invariant 1 <= j <= MAX_TASKS && forall t :: 0 < t < j ==> !Runnable(tasks[t])
      {
        if tasks[j].pid != -1 && (tasks[j].status.New? || tasks[j].status.Ready?) { return true; }
        j := j + 1;
      }
    }

    /** The selection loop of schedule_impl at one time `now`; -1 stands for the panic.  What it leaves is a dispatch.
        */
    method Select(now: nat) returns (chosen: int, ghost slots: seq<Slot>)
      requires Valid() && Calm(tasks[..], prev_task, next_task)
      modifies this, tasks
      ensures Valid() && slots == AllTicked(Yielded(old(tasks[..]), old(prev_task)), now)
      ensures chosen < 0 <==> NoneRunnable(slots)
      ensures chosen >= 0 ==> RoundOk(Round(slots, old(next_task), chosen, next_task)) && prev_task == chosen
      ensures chosen >= 0 ==> tasks[..] == Started(slots, chosen) && Calm(tasks[..], prev_task, next_task)
    {
      hide AllTicked, Choice, FirstAfter, Runnable, Distance, Yielded, Calm, Quiet, RoundOk, NoneRunnable, Wanted,
        Started;
      Yield();
      YieldQuiet(old(tasks[..]), prev_task, next_task);
      slots := AllTicked(tasks[..], now);
      QuietTicks(tasks[..], prev_task, next_task, now);
      ghost var first: nat := next_task;
      ghost var target := Target(slots, first);
      var outcome := Again;
      while outcome.Again?
        invariant Valid() && |slots| == MAX_TASKS && AllTicked(slots, now) == slots
        invariant outcome.Again? ==> AllTicked(tasks[..], now) == slots && Quiet(tasks[..], prev_task, next_task)
        invariant outcome.Again? ==> Wanted(slots, first, target) && Wanted(slots, next_task, target)
        invariant outcome.Panicked? ==> NoneRunnable(slots)
        invariant outcome.Dispatched? ==> !NoneRunnable(slots) && prev_task == target
        invariant outcome.Dispatched? ==> Calm(tasks[..], prev_task, next_task)
        invariant outcome.Dispatched? ==>
          RoundOk(Round(slots, first, target, next_task)) && tasks[..] == Started(slots, target)
        decreases if outcome.Again? then 1 + Distance(next_task, target) else 0
      {
        outcome := Turn(now, slots, first, target);
      }
      chosen := if outcome.Dispatched? then prev_task else -1;
    }

    /** The previous task, if it is still marked running, goes back to the others. */
    method Yield()
      requires Valid()
      modifies tasks
      ensures tasks[..] == Yielded(old(tasks[..]), prev_task)
    {
      if prev_task != -1 && !tasks[prev_task].status.New? && !tasks[prev_task].status.Finished? {
        if tasks[prev_task].status.Running? {
          tasks[prev_task] := tasks[prev_task].(status := Ready);
        }
      }
    }

    /** One turn of the selection loop. */
    method Turn(now: nat, ghost slots: seq<Slot>, ghost first: nat, ghost target: nat) returns (outcome: Outcome)
      requires Valid() && |slots| == MAX_TASKS && first < MAX_TASKS && target < MAX_TASKS
      requires AllTicked(tasks[..], now) == slots && Quiet(tasks[..], prev_task, next_task)
      requires Wanted(slots, first, target) && Wanted(slots, next_task, target)
      modifies this, tasks
      ensures Valid()
      ensures outcome.Panicked? ==> NoneRunnable(slots)
      ensures outcome.Again? ==> tasks[..] == slots && Quiet(slots, prev_task, next_task)
      ensures outcome.Again? ==>
        Wanted(slots, next_task, target) && Distance(next_task, target) < Distance(old(next_task), target)
      ensures outcome.Dispatched? ==> !NoneRunnable(slots) && prev_task == target
      ensures outcome.Dispatched? ==> Calm(tasks[..], prev_task, next_task)
      ensures outcome.Dispatched? ==>
        RoundOk(Round(slots, first, target, next_task)) && tasks[..] == Started(slots, target)
    {
      hide AllTicked, Choice, FirstAfter, Runnable, Distance, Yielded, Calm, Quiet, RoundOk, NoneRunnable, Wanted,
        Started;
      var i: nat := next_task;
      QuietYields(tasks[..], prev_task, i);
      QuietTicks(tasks[..], prev_task, i, now);
      Yield();
      UpdateTimers(now);
      var found := FindNext(i);
      if found < 0 { return Panicked; }
      next_task := found;
      if i == IDLE {
        var skip_idle := OtherRunnable();
        if skip_idle {
          PassOver(slots, prev_task, prev_task, i, next_task, target);
          return Again;
        }
      }
      prev_task := i;
      if !tasks[i].status.New? && !tasks[i].status.Ready? {
        PassOver(slots, old(prev_task), i, i, next_task, target);
        return Again;
      }
      TakeTarget(slots, old(prev_task), first, i, next_task, target);
      tasks[i] := tasks[i].(status := Running);
      StartedIs(slots, i, tasks[..]);
      outcome := Dispatched;
    }
  }

  /** How a turn of the selection loop ends. */
  datatype Outcome = Again | Dispatched | Panicked

  ghost predicate NoneRunnable(slots: seq<Slot>) { forall t :: 0 <= t < |slots| ==> !Runnable(slots[t]) }

  ghost predicate OthersRunnable(slots: seq<Slot>) { exists t :: 0 < t < |slots| && Runnable(slots[t]) }

  function Started(slots: seq<Slot>, i: nat): seq<Slot> {
    if i < |slots| then slots[i := slots[i].(status := Running)] else slots
  }

  /** A slot without a task, its timer running or not, is no trouble unless the next turn begins with it, or it was
      left marked as running by the previous task. */
  predicate Harmless(s: Slot, isPrev: bool, isNext: bool) {
    s.pid == -1 ==> (isNext ==> s.status.Finished? && !s.timer.Ticking?) && (isPrev ==> !s.status.Running?)
  }

  /** Between dispatches: only the previous task may be marked running. */
  ghost predicate Calm(slots: seq<Slot>, prev: int, next: nat) {
    && (forall t :: 0 <= t < |slots| ==> Harmless(slots[t], t == prev, t == next))
    && (forall t :: 0 <= t < |slots| && slots[t].pid != -1 && slots[t].status.Running? ==> t == prev)
  }

  /** During the selection no task is marked running. */
  ghost predicate Quiet(slots: seq<Slot>, prev: int, next: nat) {
    && (forall t :: 0 <= t < |slots| ==> Harmless(slots[t], t == prev, t == next))
    && (forall t :: 0 <= t < |slots| && slots[t].pid != -1 ==> !slots[t].status.Running?)
  }

  /** If anything can run, w is the choice. */
  ghost predicate Wanted(slots: seq<Slot>, next: nat, w: nat)
    requires |slots| == MAX_TASKS && next < MAX_TASKS
  {
    NoneRunnable(slots) || Choice(slots, next, w)
  }

  /** The task that was running goes back to the others. */
  function Yielded(slots: seq<Slot>, prev: int): seq<Slot> {
    if 0 <= prev < |slots| && slots[prev].status.Running? then slots[prev := slots[prev].(status := Ready)] else slots
  }

  lemma YieldQuiet(slots: seq<Slot>, prev: int, next: nat)
    requires Calm(slots, prev, next)
    ensures Quiet(Yielded(slots, prev), prev, next)
  {
  }

  lemma QuietYields(slots: seq<Slot>, prev: int, next: nat)
    requires Quiet(slots, prev, next)
    ensures Yielded(slots, prev) == slots
  {
  }

  lemma QuietTicks(slots: seq<Slot>, prev: int, next: nat, now: nat)
    requires Quiet(slots, prev, next)
    ensures Quiet(AllTicked(slots, now), prev, next) && AllTicked(AllTicked(slots, now), now) == AllTicked(slots, now)
  {
    var r := AllTicked(slots, now);
    forall k | 0 <= k < |slots| ensures AllTicked(r, now)[k] == r[k] { TickedTwice(slots[k], now); }
  }

  lemma StartedIs(slots: seq<Slot>, i: nat, after: seq<Slot>)
    requires i < |slots| && after == slots[i := slots[i].(status := Running)]
    ensures after == Started(slots, i)
  {
  }

  /** A turn that dispatches nothing keeps what is to be found and comes closer to it. */
  lemma PassOver(slots: seq<Slot>, prev: int, prev': int, i: nat, next: nat, target: nat)
    requires |slots| == MAX_TASKS && i < MAX_TASKS && next < MAX_TASKS && target < MAX_TASKS
    requires FirstAfter(slots, i, next) && Wanted(slots, i, target) && Quiet(slots, prev, i)
    requires (prev' == prev || prev' == i)
    requires (i == IDLE && OthersRunnable(slots)) || (!slots[i].status.New? && !slots[i].status.Ready?)
    ensures Quiet(slots, prev', next) && Wanted(slots, next, target) && Distance(next, target) < Distance(i, target)
  {
    assert Runnable(slots[next]) && !NoneRunnable(slots);
    assert i != target;
    StepOn(slots, i, next, target);
    ChoiceStays(slots, i, next, target);
  }

  /** The turn that dispatches a slot has found the one to find. */
  lemma TakeTarget(slots: seq<Slot>, prev: int, first: nat, i: nat, next: nat, target: nat)
    requires |slots| == MAX_TASKS && first < MAX_TASKS && i < MAX_TASKS && next < MAX_TASKS && target < MAX_TASKS
    requires FirstAfter(slots, i, next) && Wanted(slots, first, target) && Wanted(slots, i, target)
    requires Quiet(slots, prev, i)
    requires i == IDLE ==> !OthersRunnable(slots)
    requires slots[i].status.New? || slots[i].status.Ready?
    ensures i == target && !NoneRunnable(slots) && Calm(Started(slots, i), i, next)
    ensures RoundOk(Round(slots, first, target, next))
  {
    assert Runnable(slots[i]);
    ChosenIsTarget(slots, i, target);
  }

  ghost function Target(slots: seq<Slot>, next: nat): (w: nat)
    requires |slots| == MAX_TASKS && next < MAX_TASKS
    ensures w < MAX_TASKS && Wanted(slots, next, w)
  {
    if NoneRunnable(slots) then 0 else
      ChoiceExists(slots, next);
      var w: nat :| w < MAX_TASKS && Choice(slots, next, w);
      w
  }

  lemma ChoiceExists(slots: seq<Slot>, next: nat)
    requires |slots| == MAX_TASKS && next < MAX_TASKS && !NoneRunnable(slots)
    ensures exists w: nat :: w < MAX_TASKS && Choice(slots, next, w)
  {
    if t :| 0 < t < MAX_TASKS && Runnable(slots[t]) {
      var w := Nearest(slots, next, t);
      assert Choice(slots, next, w);
    } else {
      assert Choice(slots, next, IDLE);
    }
  }

  /** The runnable slot nearest to `next`, given one. */
  lemma {:induction false} Nearest(slots: seq<Slot>, next: nat, t: nat) returns (w: nat)
    requires |slots| == MAX_TASKS && next < MAX_TASKS && 0 < t < MAX_TASKS && Runnable(slots[t])
    ensures 0 < w < MAX_TASKS && Runnable(slots[w])
    ensures forall u :: 0 < u < MAX_TASKS && Runnable(slots[u]) ==> Distance(next, w) <= Distance(next, u)
    decreases Distance(next, t)
  {
    if u :| 0 < u < MAX_TASKS && Runnable(slots[u]) && Distance(next, u) < Distance(next, t) {
      w := Nearest(slots, next, u);
    } else {
      w := t;
    }
  }

  /** The first slot that may be dispatched is the one to find. */
  lemma ChosenIsTarget(slots: seq<Slot>, i: nat, target: nat)
    requires |slots| == MAX_TASKS && i < MAX_TASKS && Choice(slots, i, target) && Runnable(slots[i])
    requires i == IDLE ==> !OthersRunnable(slots)
    ensures i == target
  {
  }

  /** Passing over a slot that is not to be dispatched keeps what is to be found. */
  lemma ChoiceStays(slots: seq<Slot>, i: nat, w: nat, target: nat)
    requires |slots| == MAX_TASKS && i < MAX_TASKS && FirstAfter(slots, i, w) && Choice(slots, i, target) && target != i
    ensures Choice(slots, w, target)
  {
    if target != IDLE {
      forall t | 0 < t < MAX_TASKS && Runnable(slots[t]) ensures Distance(w, target) <= Distance(w, t) {
        StepOn(slots, i, w, target);
        if t != i { StepOn(slots, i, w, t); }
      }
    }
  }
}
