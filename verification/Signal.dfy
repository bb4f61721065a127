// Delivering signals to user handlers and returning from them (sched/signal.c).  A delivery saves the
// interrupted registers, the system call's result and the signal mask in a frame on the user's stack.
module Signal {
  import opened Words
  import opened Bitmap

  const NSIG: nat := 32
  const SIGKILL: nat := 9
  const SIGSTOP: nat := 17
  const SIGSEGV: nat := 11
  const WRAP: nat := 0x1_0000_0000_0000_0000
  const FRAME_MAGIC: nat := 0x3147_4953_454c_594b
  const FRAME: nat := 184
  const FRAME_WORDS: nat := 23
  const STACK_LOW: nat := 0x7_0000_0000
  const STACK_HIGH: nat := 0x7_0000_0000 + 256 * 4096
  const STACK_WORDS: nat := 131072
  const KERNEL_START: nat := 0xffff_ffff_8000_0000
  const USER_CODE: nat := 27
  const USER_DATA: nat := 35
  const FLAGS_ALLOWED: nat := 0x24_0fd5
  const FLAGS_SET: nat := 0x202

  // Fields of struct signal_kernel_frame, in words.
  const REGS: nat := 20
  const KERNEL_FLAGS: nat := 0
  const RDI: nat := 10
  const RIP: nat := 15
  const CS: nat := 16
  const FLAGS: nat := 17
  const RSP: nat := 18
  const SS: nat := 19

  type Regs = r: seq<Word> | |r| == 20 witness seq(20, _ => 0)
  type Stack = s: seq<Word> | |s| == 131072 witness seq(131072, _ => 0)

  datatype Action = Action(handler: Word, mask: Word, restorer: Word)

  // ----- masks: words as sets of bits -----

  function Combine(a: nat, b: nat, n: nat, both: bool): (r: nat)
    ensures r < Pow2(n)
  {
    if n == 0 then 0
    else 2 * Combine(a / 2, b / 2, n - 1, both) + (if (if both then a % 2 == 1 && b % 2 == 1 else a % 2 == 1 || b % 2 == 1) then 1 else 0)
  }

  lemma {:induction false} CombineBit(a: nat, b: nat, n: nat, both: bool, k: nat)
    ensures Bit(Combine(a, b, n, both), k) <==> k < n && if both then Bit(a, k) && Bit(b, k) else Bit(a, k) || Bit(b, k)
  {
    if n == 0 {
      ZeroBit(k);
    } else {
      assert Combine(a, b, n, both) / 2 == Combine(a / 2, b / 2, n - 1, both);
      if k > 0 { CombineBit(a / 2, b / 2, n - 1, both, k - 1); }
    }
  }

  function Or(a: Word, b: Word): Word { Pow2Of64(); Combine(a, b, 64, false) }
  function And(a: Word, b: Word): Word { Pow2Of64(); Combine(a, b, 64, true) }

  /** signal_bit. */
  function SignalBit(signal: nat): Word
    requires signal < 64
  {
    Put(0, signal, true)
  }

  /** signal_allowed_mask. */
  function Allowed(mask: Word): Word { Put(Put(mask, SIGKILL, false), SIGSTOP, false) }

  /** The signals that cannot be blocked are not in a mask; all others are kept. */
  lemma AllowedBits(mask: Word, k: nat)
    ensures Bit(Allowed(mask), k) <==> Bit(mask, k) && k != SIGKILL && k != SIGSTOP
  {
    BitAfterPut(Put(mask, SIGKILL, false), SIGSTOP, false, k);
    BitAfterPut(mask, SIGKILL, false, k);
  }

  predicate MaskOk(mask: Word) { !Bit(mask, SIGKILL) && !Bit(mask, SIGSTOP) }

  /** Clearing a bit that is clear changes nothing. */
  lemma {:induction false} PutSame(w: nat, b: nat)
    requires !Bit(w, b)
    ensures PutBit(w, b, false) == w
  {
    if b > 0 { PutSame(w / 2, b - 1); }
  }

  lemma AllowedSame(mask: Word)
    requires MaskOk(mask)
    ensures Allowed(mask) == mask
  {
    PutSame(mask, SIGKILL);
    PutSame(mask, SIGSTOP);
  }

  lemma AllowedOk(mask: Word)
    ensures MaskOk(Allowed(mask))
  {
    AllowedBits(mask, SIGKILL);
    AllowedBits(mask, SIGSTOP);
  }

  /** The mask while a handler runs: what was blocked, what the action adds, and the signal itself, but never the
      unmaskable ones. */
  function HandlerMask(mask: Word, action: Action, signal: nat): Word
    requires signal < NSIG
  {
    Allowed(Or(Or(mask, action.mask), SignalBit(signal)))
  }

  lemma HandlerMaskBits(mask: Word, action: Action, signal: nat, k: nat)
    requires signal < NSIG && k < 64
    ensures Bit(HandlerMask(mask, action, signal), k) <==>
      (Bit(mask, k) || Bit(action.mask, k) || k == signal) && k != SIGKILL && k != SIGSTOP
  {
    AllowedBits(Or(Or(mask, action.mask), SignalBit(signal)), k);
    CombineBit(Or(mask, action.mask), SignalBit(signal), 64, false, k);
    CombineBit(mask, action.mask, 64, false, k);
    BitAfterPut(0, signal, true, k);
    ZeroBit(k);
  }

  // ----- where the frame goes -----

  /** The handler's RSP for an interrupted RSP. */
  function HandlerRsp(rsp: Word): Word {
    var a := (rsp - FRAME - 8) % WRAP;
    (a - a % 16 - 8) % WRAP
  }

  function FrameAddress(rsp: Word): Word { (HandlerRsp(rsp) + 8) % WRAP }

  /** The range checks of signal_prepare_user_handler. */
  predicate InRange(rsp: Word) {
    var frame_end := (FrameAddress(rsp) + FRAME) % WRAP;
    HandlerRsp(rsp) >= STACK_LOW && frame_end >= FrameAddress(rsp) && frame_end <= STACK_HIGH
  }

  /** The frame can be delivered: the range checks pass, and the page of the return address can be populated,
      which takes a block of the process and so an address below the kernel's. */
  predicate Fits(rsp: Word) { InRange(rsp) && HandlerRsp(rsp) < KERNEL_START }

  /** The frame and the return address lie on the stack, below the interrupted RSP. */
  predicate WellPlaced(rsp: Word) {
    && FrameAddress(rsp) == HandlerRsp(rsp) + 8 && STACK_LOW <= HandlerRsp(rsp)
    && FrameAddress(rsp) + FRAME + 8 <= rsp && FrameAddress(rsp) + FRAME <= STACK_HIGH
  }

  /** The range checks alone put the frame on the stack except for these sixteen stack pointers, for which the
      handler's stack pointer wraps around to the top of the address space and the frame lands at address 0. */
  lemma RangeChecksWrap(rsp: Word)
    requires InRange(rsp)
    ensures WellPlaced(rsp) <==> !(FRAME + 8 <= rsp < FRAME + 24)
    ensures FRAME + 8 <= rsp < FRAME + 24 ==> FrameAddress(rsp) == 0 && HandlerRsp(rsp) == WRAP - 8
  {
    var a := (rsp - FRAME - 8) % WRAP;
    assert a == if rsp >= FRAME + 8 then rsp - FRAME - 8 else rsp - FRAME - 8 + WRAP;
    assert HandlerRsp(rsp) == if a - a % 16 >= 8 then a - a % 16 - 8 else a - a % 16 - 8 + WRAP;
    var f := FrameAddress(rsp);
    assert f == a - a % 16;
    assert (f + FRAME) % WRAP == if f + FRAME < WRAP then f + FRAME else f + FRAME - WRAP;
  }

  /** Such a stack pointer. */
  lemma RangeChecksWrapAt(rsp: Word)
    requires rsp == 200
    ensures InRange(rsp) && !WellPlaced(rsp) && !Fits(rsp)
  {
  }

  /** The handler starts with RSP = 8 mod 16, as if it had been called from an aligned stack (System V AMD64 ABI,
      section 3.2.2); frame and return address lie below the interrupted RSP. */
  lemma FramePlace(rsp: Word)
    requires Fits(rsp)
    ensures HandlerRsp(rsp) % 16 == 8 && FrameAddress(rsp) % 8 == 0 && WellPlaced(rsp)
    ensures FrameAddress(rsp) == HandlerRsp(rsp) + 8 && STACK_LOW <= HandlerRsp(rsp)
    ensures FrameAddress(rsp) + FRAME + 8 <= rsp && FrameAddress(rsp) + FRAME <= STACK_HIGH
  {
    RangeChecksWrap(rsp);
  }

  /** The two pages that are populated are all the pages the return address and the frame touch. */
  lemma FramePages(rsp: Word, a: nat)
    requires Fits(rsp) && HandlerRsp(rsp) <= a < FrameAddress(rsp) + FRAME
    ensures a / PAGE_SIZE == HandlerRsp(rsp) / PAGE_SIZE || a / PAGE_SIZE == (FrameAddress(rsp) + FRAME - 1) / PAGE_SIZE
  {
    FramePlace(rsp);
  }

  // ----- delivery and return on values -----

  /** A user process at a kernel entry: its registers, the result of the system call, its mask and its stack. */
  datatype State = State(regs: Regs, result: Word, mask: Word, stack: Stack)

  function Index(a: nat): nat { if a < STACK_LOW then 0 else (a - STACK_LOW) / 8 }

  /** stack with words stored from index i on. */
  function StoreWords(s: Stack, i: nat, words: seq<Word>): (r: Stack)
    requires i + |words| <= STACK_WORDS
    ensures forall k :: 0 <= k < STACK_WORDS ==> r[k] == if i <= k < i + |words| then words[k - i] else s[k]
  {
    s[..i] + words + s[i + |words|..]
  }

  lemma FrameIndex(rsp: Word)
    requires Fits(rsp)
    ensures Index(FrameAddress(rsp)) + FRAME_WORDS <= STACK_WORDS
    ensures Index(HandlerRsp(rsp)) + 1 == Index(FrameAddress(rsp))
  {
    FramePlace(rsp);
  }

  /** The words of struct signal_user_frame. */
  function FrameOfState(s: State): (f: seq<Word>)
    ensures |f| == FRAME_WORDS
  {
    [FRAME_MAGIC, s.result, s.mask] + s.regs
  }

  /** signal_prepare_user_handler, when the frame fits. */
  function Deliver(s: State, signal: nat, action: Action): State
    requires signal < NSIG && Fits(s.regs[RSP])
  {
    FrameIndex(s.regs[RSP]);
    var rsp := s.regs[RSP];
    State(
      s.regs[RDI := signal][RIP := action.handler][RSP := HandlerRsp(rsp)], s.result, HandlerMask(s.mask, action,
          signal),
      StoreWords(StoreWords(s.stack, Index(HandlerRsp(rsp)), [action.restorer]), Index(FrameAddress(rsp)),
          FrameOfState(s)))
  }

  /** The registers sigreturn installs: the saved ones, with user selectors, sane flags and the kernel's own flags. */
  function Sanitized(saved: Regs, kernel_flags: Word): Regs {
    saved[KERNEL_FLAGS := kernel_flags][CS := USER_CODE][SS := USER_DATA][FLAGS := Or(And(saved[FLAGS], FLAGS_ALLOWED),
        FLAGS_SET)]
  }

  /** What sigreturn accepts. */
  predicate Returnable(stack: Stack, address: nat) {
    && STACK_LOW <= address && address + FRAME <= STACK_HIGH && address % 8 == 0
    && stack[Index(address)] == FRAME_MAGIC
    && stack[Index(address) + 3 + RIP] < KERNEL_START && stack[Index(address) + 3 + RSP] < KERNEL_START
  }

  /** signal_sigreturn, when it accepts the frame. */
  function Return(s: State, address: nat): State
    requires Returnable(s.stack, address)
  {
    var i := Index(address);
    State(Sanitized(s.stack[i + 3..i + 23], s.regs[KERNEL_FLAGS]), s.stack[i + 1], Allowed(s.stack[i + 2]),
        s.stack[i := 0])
  }

  // ----- nested deliveries -----

  /** What a process does from one kernel entry on: run user code up to the given state; or take a signal, run
      its handler (which may take further signals), return from it to the state `back`, and go on. */
  datatype Run = Done | User(next: State, rest: Run) | Handle(signal: nat, action: Action, body: Run, back: State,
      rest: Run)

  function End(s: State, run: Run): State
    decreases run
  {
    match run
    case Done => s
    case User(next, rest) => End(next, rest)
    case Handle(_, _, _, back, rest) => End(back, rest)
  }

  /** Every word at address `bound` and above is as it was. */
  ghost predicate SameFrom(a: Stack, b: Stack, bound: nat) {
    forall k :: 0 <= k < STACK_WORDS && STACK_LOW + 8 * k >= bound ==> b[k] == a[k]
  }

  /** User code stores only below `bound` and keeps its stack pointer there; a handler's bound is its own frame. */
  ghost predicate Proper(s: State, run: Run, bound: nat)
    decreases run
  {
    match run
    case Done => true
    case User(next, rest) => next.regs[RSP] <= bound && SameFrom(s.stack, next.stack, bound) && Proper(next, rest,
        bound)
    case Handle(signal, action, body, back, rest) =>
      && signal < NSIG && Fits(s.regs[RSP]) && s.regs[RIP] < KERNEL_START && MaskOk(s.mask)
      && Handler(s, Deliver(s, signal, action), body, back)
      && Proper(Deliver(s, signal, action), body, FrameAddress(s.regs[RSP])) && Proper(back, rest, bound)
  }

  /** back is what sigreturn makes of the handler's last state, if it accepts the frame at all. */
  ghost predicate Handler(s: State, d: State, body: Run, back: State) {
    Returnable(End(d, body).stack, FrameAddress(s.regs[RSP])) ==>
      back == Return(End(d, body), FrameAddress(s.regs[RSP]))
  }

  lemma SameFromTrans(a: Stack, b: Stack, c: Stack, bound: nat)
    requires SameFrom(a, b, bound) && SameFrom(b, c, bound)
    ensures SameFrom(a, c, bound)
  {
  }

  /** A delivery stores only below the interrupted stack pointer. */
  lemma DeliverBelow(s: State, signal: nat, action: Action, bound: nat)
    requires signal < NSIG && Fits(s.regs[RSP]) && s.regs[RSP] <= bound
    ensures SameFrom(s.stack, Deliver(s, signal, action).stack, bound)
    ensures Deliver(s, signal, action).regs[RSP] <= FrameAddress(s.regs[RSP])
    ensures FrameAddress(s.regs[RSP]) + FRAME <= bound
  {
    FramePlace(s.regs[RSP]);
    FrameIndex(s.regs[RSP]);
  }

  /** The frame is on the stack after the delivery. */
  lemma DeliverStores(s: State, signal: nat, action: Action)
    requires signal < NSIG && Fits(s.regs[RSP])
    ensures var i := Index(FrameAddress(s.regs[RSP]));
      i + FRAME_WORDS <= STACK_WORDS && Deliver(s, signal, action).stack[i..i + FRAME_WORDS] == FrameOfState(s)
  {
    FrameIndex(s.regs[RSP]);
    var i, d, f := Index(FrameAddress(s.regs[RSP])), Deliver(s, signal, action).stack, FrameOfState(s);
    forall k | 0 <= k < FRAME_WORDS ensures d[i..i + FRAME_WORDS][k] == f[k] {}
  }

  /** While the frame is untouched, sigreturn accepts it and restores what it holds. */
  lemma ReturnRestores(s: State, signal: nat, action: Action, e: State)
    requires signal < NSIG && Fits(s.regs[RSP]) && s.regs[RIP] < KERNEL_START && MaskOk(s.mask)
    requires SameFrom(Deliver(s, signal, action).stack, e.stack, FrameAddress(s.regs[RSP]))
    ensures Returnable(e.stack, FrameAddress(s.regs[RSP]))
    ensures Return(e, FrameAddress(s.regs[RSP])) == State(Sanitized(s.regs, e.regs[KERNEL_FLAGS]), s.result, s.mask,
        e.stack[Index(FrameAddress(s.regs[RSP])) := 0])
  {
    hide Deliver, Fits, HandlerRsp, FrameAddress, FrameOfState, Returnable, Return, SameFrom, MaskOk, Index,
      Sanitized, Allowed, WellPlaced;
    FramePlace(s.regs[RSP]);
    StackTop(s.regs[RSP]);
    FrameIndex(s.regs[RSP]);
    var i: nat := Index(FrameAddress(s.regs[RSP]));
    forall k | 0 <= k < FRAME_WORDS ensures e.stack[i + k] == FrameOfState(s)[k] {
      FrameWord(s, signal, action, e, k);
    }
    FrameAccepted(s, e, FrameAddress(s.regs[RSP]));
    FrameRead(s, e, FrameAddress(s.regs[RSP]));
  }

  lemma StackTop(rsp: Word)
    requires Fits(rsp)
    ensures rsp < KERNEL_START && FRAME_WORDS == 23 && STACK_WORDS == 131072
  {
  }

  lemma FrameAccepted(s: State, e: State, address: nat)
    requires STACK_LOW <= address && address + FRAME <= STACK_HIGH && address % 8 == 0
    requires Index(address) + FRAME_WORDS <= STACK_WORDS
    requires s.regs[RIP] < KERNEL_START && s.regs[RSP] < KERNEL_START
    requires forall k :: 0 <= k < FRAME_WORDS ==> e.stack[Index(address) + k] == FrameOfState(s)[k]
    ensures Returnable(e.stack, address)
  {
    var i := Index(address);
    assert e.stack[i + 0] == FrameOfState(s)[0];
    assert e.stack[i + (3 + RIP)] == FrameOfState(s)[3 + RIP] && e.stack[i + (3 + RSP)] == FrameOfState(s)[3 + RSP];
  }

  lemma FrameRead(s: State, e: State, address: nat)
    requires Returnable(e.stack, address) && MaskOk(s.mask) && Index(address) + FRAME_WORDS <= STACK_WORDS
    requires forall k :: 0 <= k < FRAME_WORDS ==> e.stack[Index(address) + k] == FrameOfState(s)[k]
    ensures Return(e, address) == State(Sanitized(s.regs, e.regs[KERNEL_FLAGS]), s.result, s.mask,
        e.stack[Index(address) := 0])
  {
    var i := Index(address);
    assert e.stack[i + 1] == FrameOfState(s)[1] && e.stack[i + 2] == FrameOfState(s)[2];
    SavedRegs(s, e, i);
    AllowedSame(s.mask);
    hide Returnable, Allowed, Sanitized, MaskOk, Index;
  }

  lemma FrameWord(s: State, signal: nat, action: Action, e: State, k: nat)
    requires signal < NSIG && Fits(s.regs[RSP]) && k < FRAME_WORDS
    requires SameFrom(Deliver(s, signal, action).stack, e.stack, FrameAddress(s.regs[RSP]))
    ensures Index(FrameAddress(s.regs[RSP])) + FRAME_WORDS <= STACK_WORDS
    ensures e.stack[Index(FrameAddress(s.regs[RSP])) + k] == FrameOfState(s)[k]
  {
    FramePlace(s.regs[RSP]);
    FrameIndex(s.regs[RSP]);
    DeliverStores(s, signal, action);
    hide Deliver, Fits, HandlerRsp, FrameAddress, FrameOfState, WellPlaced;
    KeptWord(Deliver(s, signal, action).stack, e.stack, FrameAddress(s.regs[RSP]), k, FrameOfState(s));
  }

  lemma KeptWord(d: Stack, e: Stack, address: nat, k: nat, f: seq<Word>)
    requires SameFrom(d, e, address) && STACK_LOW <= address && address % 8 == 0 && |f| == FRAME_WORDS
    requires k < FRAME_WORDS
    requires Index(address) + FRAME_WORDS <= STACK_WORDS && d[Index(address)..Index(address) + FRAME_WORDS] == f
    ensures e[Index(address) + k] == f[k]
  {
    var i := Index(address);
    assert d[i..i + FRAME_WORDS][k] == d[i + k];
    assert STACK_LOW + 8 * (i + k) >= address;
  }

  lemma SavedRegs(s: State, e: State, i: nat)
    requires i + FRAME_WORDS <= STACK_WORDS && forall k :: 0 <= k < FRAME_WORDS ==> e.stack[i + k] == FrameOfState(s)[k]
    ensures e.stack[i + 3..i + 23] == s.regs
  {
    forall k | 0 <= k < REGS ensures e.stack[i + 3..i + 23][k] == s.regs[k] {
      assert e.stack[i + (3 + k)] == FrameOfState(s)[3 + k];
    }
  }

  /** However deeply signals nest, a run leaves the stack above its bound alone. */
  lemma {:induction false} RunKeepsStack(s: State, run: Run, bound: nat)
    requires Proper(s, run, bound) && s.regs[RSP] <= bound
    ensures End(s, run).regs[RSP] <= bound && SameFrom(s.stack, End(s, run).stack, bound)
    decreases run
  {
    match run
    case Done =>
    case User(next, rest) =>
      RunKeepsStack(next, rest, bound);
      SameFromTrans(s.stack, next.stack, End(s, run).stack, bound);
    case Handle(signal, action, body, back, rest) =>
      var d, address := Deliver(s, signal, action), FrameAddress(s.regs[RSP]);
      DeliverBelow(s, signal, action, bound);
      RunKeepsStack(d, body, address);
      var e := End(d, body);
      ReturnRestores(s, signal, action, e);
      BackBelow(s, d, e, back, address, bound);
      RunKeepsStack(back, rest, bound);
      SameFromTrans(s.stack, back.stack, End(s, run).stack, bound);
  }

  lemma BackBelow(s: State, d: State, e: State, back: State, address: nat, bound: nat)
    requires STACK_LOW <= address && address + FRAME <= bound && address % 8 == 0 && Index(address) < STACK_WORDS
    requires SameFrom(s.stack, d.stack, bound) && SameFrom(d.stack, e.stack, address)
    requires back.stack == e.stack[Index(address) := 0]
    ensures SameFrom(s.stack, back.stack, bound)
  {
  }

  /** Returning from a handler restores the interrupted registers, the system call's result and the mask exactly,
      after any nest of further signals in the handler. */
  lemma HandlerRestores(s: State, signal: nat, action: Action, body: Run, back: State, rest: Run, bound: nat)
    requires Proper(s, Handle(signal, action, body, back, rest), bound) && s.regs[RSP] <= bound
    ensures var e := End(Deliver(s, signal, action), body);
      && Returnable(e.stack, FrameAddress(s.regs[RSP]))
      && back.regs == Sanitized(s.regs, e.regs[KERNEL_FLAGS]) && back.result == s.result && back.mask == s.mask
      && (forall k :: 0 <= k < REGS && k != KERNEL_FLAGS && k != CS && k != SS && k != FLAGS ==> back.regs[k] == s.regs[k])
      && SameFrom(s.stack, back.stack, s.regs[RSP])
  {
    var d, address := Deliver(s, signal, action), FrameAddress(s.regs[RSP]);
    DeliverBelow(s, signal, action, s.regs[RSP]);
    RunKeepsStack(d, body, address);
    var e := End(d, body);
    ReturnRestores(s, signal, action, e);
    FramePlace(s.regs[RSP]);
    FrameIndex(s.regs[RSP]);
    BackBelow(s, d, e, back, address, s.regs[RSP]);
  }

  /** The frames of all deliveries of a run, at any depth. */
  ghost function Frames(s: State, run: Run): set<nat>
    decreases run
  {
    match run
    case Done => {}
    case User(next, rest) => Frames(next, rest)
    case Handle(signal, action, body, back, rest) =>
      (if signal < NSIG && Fits(s.regs[RSP]) then {FrameAddress(s.regs[RSP])} + Frames(Deliver(s, signal, action),
          body) else {}) + Frames(back, rest)
  }

  /** While a handler runs, all frames delivered in it, at any depth, lie below the handler's own frame. */
  ghost predicate FramesNest(s: State, run: Run)
    decreases run
  {
    match run
    case Done => true
    case User(next, rest) => FramesNest(next, rest)
    case Handle(signal, action, body, back, rest) =>
      && (signal < NSIG && Fits(s.regs[RSP]) ==>
        && (forall f :: f in Frames(Deliver(s, signal, action), body) ==> f + FRAME <= FrameAddress(s.regs[RSP]))
        && FramesNest(Deliver(s, signal, action), body))
      && FramesNest(back, rest)
  }

  /** In a run with its stack pointer below a bound, all frames lie on the stack below that bound. */
  lemma {:induction false} FramesBelow(s: State, run: Run, bound: nat)
    requires Proper(s, run, bound) && s.regs[RSP] <= bound
    ensures forall f :: f in Frames(s, run) ==> STACK_LOW <= f && f + FRAME <= bound
    decreases run
  {
    hide Deliver, Fits, FrameAddress, SameFrom, Handler, MaskOk;
    match run
    case Done =>
    case User(next, rest) => FramesBelow(next, rest, bound);
    case Handle(signal, action, body, back, rest) =>
      DeliverBelow(s, signal, action, bound);
      FrameOnStack(s.regs[RSP]);
      FramesBelow(Deliver(s, signal, action), body, FrameAddress(s.regs[RSP]));
      BackInPlace(s, signal, action, body, back, rest, bound);
      FramesBelow(back, rest, bound);
  }

  lemma FrameOnStack(rsp: Word)
    requires Fits(rsp)
    ensures STACK_LOW <= FrameAddress(rsp)
  {
    FramePlace(rsp);
  }

  lemma BackInPlace(s: State, signal: nat, action: Action, body: Run, back: State, rest: Run, bound: nat)
    requires Proper(s, Handle(signal, action, body, back, rest), bound) && s.regs[RSP] <= bound
    ensures back.regs[RSP] <= bound
  {
    HandlerRestores(s, signal, action, body, back, rest, bound);
  }

  /** Any two frames that are on the stack at the same time are disjoint. */
  lemma {:induction false} FramesDisjoint(s: State, run: Run, bound: nat)
    requires Proper(s, run, bound) && s.regs[RSP] <= bound
    ensures FramesNest(s, run)
    decreases run
  {
    hide Deliver, Fits, FrameAddress, SameFrom, Handler, MaskOk, Frames;
    match run
    case Done =>
    case User(next, rest) => FramesDisjoint(next, rest, bound);
    case Handle(signal, action, body, back, rest) =>
      DeliverBelow(s, signal, action, bound);
      FramesBelow(Deliver(s, signal, action), body, FrameAddress(s.regs[RSP]));
      FramesDisjoint(Deliver(s, signal, action), body, FrameAddress(s.regs[RSP]));
      BackInPlace(s, signal, action, body, back, rest, bound);
      FramesDisjoint(back, rest, bound);
  }

  // ----- the task -----

  /** Which signals kill, stop or do nothing by default. */
  predicate DefaultIgnored(signal: nat) { signal == 20 || signal == 19 || signal == 28 }
  predicate DefaultStops(signal: nat) { signal == 17 || signal == 18 || signal == 21 || signal == 22 }

  /** How signal_deliver comes back, or where it stops the task; it goes on from the top when the task is continued. */
  datatype Outcome = Nothing | Handled(signal: nat) | Stopped(signal: nat) | Killed(signal: nat)

  /** Signal k is dropped when it is delivered. */
  predicate Ignored(action: Action, k: nat) { action.handler == 1 || (action.handler == 0 && DefaultIgnored(k)) }

  /** The lowest signal that is to be delivered and not ignored, or 0 when there is none. */
  ghost predicate IsFirst(pending: Word, mask: Word, actions: seq<Action>, signal: nat)
    requires |actions| == NSIG
  {
    && (signal > 0 ==> signal < NSIG && Deliverable(pending, mask, signal) && !Ignored(actions[signal], signal))
    && forall k :: 1 <= k < (if signal > 0 then signal else NSIG) && Deliverable(pending, mask, k) ==>
      Ignored(actions[k], k)
  }

  /** What delivering that signal comes to; `frames` says whether the pages of a frame could be populated. */
  function Reaction(actions: seq<Action>, signal: nat, rsp: Word, frames: bool): Outcome
    requires |actions| == NSIG && signal < NSIG
  {
    if signal == 0 then Nothing
    else if actions[signal].handler != 0 then if Fits(rsp) && frames then Handled(signal) else Killed(SIGSEGV)
    else if DefaultStops(signal) then Stopped(signal)
    else Killed(signal)
  }

  /** Signal k has left the pending ones: it was deliverable and not above the one delivered, if there was one. */
  predicate Leaves(pending: Word, mask: Word, signal: nat, k: nat) {
    Deliverable(pending, mask, k) && 1 <= k < NSIG && (signal == 0 || k <= signal)
  }

  /** The lowest signal that is pending and not masked, or 0. */
  ghost predicate IsNext(pending: Word, mask: Word, signal: nat) {
    && (signal == 0 ==> forall k :: 1 <= k < NSIG ==> !Deliverable(pending, mask, k))
    && (signal > 0 ==> signal < NSIG && Deliverable(pending, mask, signal) && forall k :: 1 <= k < signal ==> !Deliverable(pending, mask, k))
  }

  predicate Deliverable(pending: Word, mask: Word, k: nat) { Bit(pending, k) && !Bit(mask, k) }

  /** What the request asks for signal k: 0 replaces the mask, 1 blocks, 2 unblocks. */
  predicate Chosen(how: int, mask: Word, set_: Word, k: nat) {
    if how == 0 then Bit(set_, k) else if how == 1 then Bit(mask, k) || Bit(set_, k) else Bit(mask, k) && !Bit(set_, k)
  }

  /** The deliverable signals up to k have left the pending ones, and no others. */
  ghost predicate DroppedUpTo(pending: Word, pending': Word, mask: Word, k: nat) {
    forall j :: 0 <= j < 64 ==>
      (Bit(pending', j) <==> Bit(pending, j) && !(1 <= j <= k && Deliverable(pending, mask, j)))
  }

  /** The next signal is above the ones dropped, and nothing deliverable lies between. */
  lemma NextAbove(pending: Word, pending': Word, mask: Word, k: nat, next: nat)
    requires DroppedUpTo(pending, pending', mask, k) && k < NSIG && IsNext(pending', mask, next)
    ensures next > 0 ==> k < next < NSIG && Deliverable(pending, mask, next)
    ensures forall j :: k < j < (if next > 0 then next else NSIG) ==> !Deliverable(pending, mask, j)
    ensures next > 0 ==> DroppedUpTo(pending, Put(pending', next, false), mask, next)
    ensures next == 0 ==> DroppedUpTo(pending, pending', mask, NSIG - 1)
  {
    forall j | k < j < (if next > 0 then next else NSIG) ensures !Deliverable(pending, mask, j) {
      assert !Deliverable(pending', mask, j);
    }
    if next > 0 {
      forall j | 0 <= j < 64 ensures Bit(Put(pending', next, false), j) <==>
        Bit(pending', j) && j != next { BitAfterPut(pending', next, false, j); }
    }
  }

  class Task {
    var pending: Word
    var mask: Word
    var actions: seq<Action>
    const stack: array<Word>

    ghost predicate Valid()
      reads this
    {
      stack.Length == STACK_WORDS && |actions| == NSIG && MaskOk(mask)
    }

    /** signal_task_init. */
    constructor ()
      ensures Valid() && pending == 0 && mask == 0 && fresh(stack)
    {
      pending, mask := 0, 0;
      actions := seq(32, _ => Action(0, 0, 0));
      stack := new Word[STACK_WORDS](_ => 0);
      ZeroBit(SIGKILL);
      ZeroBit(SIGSTOP);
    }

    /** signal_set_mask with a set: `how` is 0 to replace, 1 to block, 2 to unblock. */
    method SetMask(how: int, set_: Word) returns (ok: bool)
      requires Valid()
      modifies `mask
      ensures Valid() && (ok <==> 0 <= how <= 2) && (!ok ==> mask == old(mask))
      ensures ok ==>
        forall k :: 0 <= k < 64 ==> Bit(mask, k) == (k != SIGKILL && k != SIGSTOP && Chosen(how, old(mask), set_, k))
    {
      var replacement := set_;
      if how == 1 {
        replacement := Or(mask, set_);
      } else if how == 2 {
        replacement := AndNot(mask, set_);
      } else if how != 0 {
        return false;
      }
      forall k | 0 <= k < 64 ensures Bit(Allowed(replacement),
          k) == (k != SIGKILL && k != SIGSTOP && Chosen(how, mask, set_, k)) {
        AllowedBits(replacement, k);
        CombineBit(mask, set_, 64, false, k);
        AndNotBit(mask, set_, k);
      }
      AllowedOk(replacement);
      mask := Allowed(replacement);
      ok := true;
    }

    /** signal_next. */
    method Next() returns (signal: nat)
      ensures IsNext(pending, mask, signal)
    {
      signal := 1;
      while signal < NSIG
        invariant 1 <= signal <= NSIG && forall k :: 1 <= k < signal ==> !Deliverable(pending, mask, k)
      {
        if Bit(pending, signal) && !Bit(mask, signal) { return; }
        signal := signal + 1;
      }
      signal := 0;
    }

    /** Store words on the user's stack. */
    method StoreAt(i: nat, words: seq<Word>)
      requires stack.Length == STACK_WORDS && i + |words| <= STACK_WORDS
      modifies stack
      ensures stack[..] == StoreWords(old(stack[..]), i, words)
    {
      var k := 0;
      while k < |words|
        invariant k <= |words| && stack[..] == StoreWords(old(stack[..]), i, words[..k])
      {
        stack[i + k] := words[k];
        k := k + 1;
      }
      assert words[..k] == words;
    }

    /** signal_prepare_user_handler; `frames` says whether memory suffices to populate the frame's pages. */
    method Prepare(signal: nat, regs: Regs, result: Word, frames: bool) returns (ok: bool, regs': Regs)
      requires Valid() && signal < NSIG
      modifies `mask, stack
      ensures Valid() && (ok <==> Fits(regs[RSP]) && frames)
      ensures (!ok ==> mask == old(mask) && stack[..] == old(stack[..]) && regs' == regs)
      ensures ok ==> State(regs', result, mask, stack[..]) == Deliver(State(regs, result, old(mask), old(stack[..])),
          signal, actions[signal])
    {
      var action, rsp := actions[signal], regs[RSP];
      regs' := regs;
      if !Fits(rsp) || !frames { return false, regs; }
      FrameIndex(rsp);
      hide Fits, HandlerRsp, FrameAddress, HandlerMask, Index, StoreWords;
      StoreAt(Index(HandlerRsp(rsp)), [action.restorer]);
      StoreAt(Index(FrameAddress(rsp)), [FRAME_MAGIC, result, mask] + regs);
      AllowedOk(Or(Or(mask, action.mask), SignalBit(signal)));
      mask := HandlerMask(mask, action, signal);
      regs' := regs[RDI := signal][RIP := action.handler][RSP := HandlerRsp(rsp)];
      ok := true;
    }

    /** signal_sigreturn for an aligned frame address; false when the task is to be killed. */
    method SigReturn(address: nat, regs: Regs) returns (ok: bool, regs': Regs, result: Word)
      requires Valid() && address % 8 == 0
      modifies `mask, stack
      ensures Valid() && (ok <==> Returnable(old(stack[..]), address))
      ensures ok ==> State(regs', result, mask, stack[..]) == Return(State(regs, 0, old(mask), old(stack[..])), address)
      ensures !ok ==> mask == old(mask) && stack[..] == old(stack[..])
    {
      regs', result := regs, 0;
      if address < STACK_LOW || address > STACK_HIGH - FRAME { return false, regs, 0; }
      var i := Index(address);
      if stack[i] != FRAME_MAGIC || stack[i + 3 + RIP] >= KERNEL_START || stack[i + 3 + RSP] >= KERNEL_START { return false, regs, 0; }
      var kernel_flags := regs[KERNEL_FLAGS];
      result := stack[i + 1];
      AllowedOk(stack[i + 2]);
      mask := Allowed(stack[i + 2]);
      regs' := Sanitized(stack[i + 3..i + 23], kernel_flags);
      stack[i] := 0;
      ok := true;
    }

    /** signal_deliver, up to its return or to where it stops the task: the signals that are ignored are dropped from
        below, and the first other one gets its reaction. */
    method DeliverNext(regs: Regs, result: Word, frames: bool) returns (outcome: Outcome, regs': Regs,
            ghost signal: nat)
      requires Valid()
      modifies `pending, `mask, stack
      ensures Valid() && IsFirst(old(pending), old(mask), actions, signal) && signal < NSIG
      ensures outcome == Reaction(actions, signal, regs[RSP], frames)
      ensures forall k :: 0 <= k < 64 ==>
        (Bit(pending, k) <==> Bit(old(pending), k) && !Leaves(old(pending), old(mask), signal, k))
      ensures outcome.Handled? ==> Fits(regs[RSP])
      ensures outcome.Handled? ==>
        State(regs', result, mask, stack[..]) == Deliver(State(regs, result, old(mask), old(stack[..])), signal,
            actions[signal])
      ensures !outcome.Handled? ==> mask == old(mask) && stack[..] == old(stack[..]) && regs' == regs
    {
      regs' := regs;
      ghost var dropped: nat := 0;
      while true
        invariant Valid() && mask == old(mask) && stack[..] == old(stack[..]) && regs' == regs && dropped < NSIG
        invariant forall k :: 1 <= k <= dropped && Deliverable(old(pending), mask, k) ==> Ignored(actions[k], k)
        invariant DroppedUpTo(old(pending), pending, mask, dropped)
        decreases NSIG - dropped
      {
        var next := Next();
        NextAbove(old(pending), pending, mask, dropped, next);
        if next == 0 { return Nothing, regs, 0; }
        pending := Put(pending, next, false);
        var action := actions[next];
        if action.handler == 1 || (action.handler == 0 && DefaultIgnored(next)) {
          dropped := next;
          continue;
        }
        signal := next;
        if action.handler == 0 && DefaultStops(next) { return Stopped(next), regs, signal; }
        if action.handler == 0 { return Killed(next), regs, signal; }
        var ok;
        ok, regs' := Prepare(next, regs, result, frames);
        outcome := if ok then Handled(next) else Killed(SIGSEGV);
        return;
      }
    }
  }

  /** a & ~b. */
  function AndNot(a: Word, b: Word): Word { Pow2Of64(); Without(a, b, 64) }

  function Without(a: nat, b: nat, n: nat): (r: nat)
    ensures r < Pow2(n)
  {
    if n == 0 then 0 else 2 * Without(a / 2, b / 2, n - 1) + (if a % 2 == 1 && b % 2 == 0 then 1 else 0)
  }

  lemma {:induction false} WithoutBit(a: nat, b: nat, n: nat, k: nat)
    ensures Bit(Without(a, b, n), k) <==> k < n && Bit(a, k) && !Bit(b, k)
  {
    if n == 0 {
      ZeroBit(k);
    } else {
      assert Without(a, b, n) / 2 == Without(a / 2, b / 2, n - 1);
      if k > 0 { WithoutBit(a / 2, b / 2, n - 1, k - 1); }
    }
  }

  lemma AndNotBit(a: Word, b: Word, k: nat)
    ensures Bit(AndNot(a, b), k) <==> k < 64 && Bit(a, k) && !Bit(b, k)
  {
    WithoutBit(a, b, 64, k);
  }
}
