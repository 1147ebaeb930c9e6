/**
 One interlock shared by any number of client threads and the daemon, as a transition
 system. Every atomic load, store, fetch_add, compare-exchange, clock read, futex
 enqueue and futex wake is one transition; each thread has a program counter that
 carries its local variables. Memory is sequentially consistent.

 Fields of `Mem` after `now`, and `oks` and `touches` in `State`, record what happened and are read by no step.
 */
module Protocol {
  import opened Core

  type Tid = nat

  datatype Word = OpenWord | ClosedWord

  /** attachers: whether handles obtained by name, which may open, close and free, exist. */
  datatype Config = Config(tier: Tier, interval: CronInterval, attachers: bool)

  /** A call of interlock_arm that returned Ok: its time read, its TTL, and when it returned. */
  datatype Arm = Arm(start: U64, ttl: U64, done: U64)
  {
    function Deadline(): U64 { Wrap(start + ttl) }
  }

  datatype Mem = Mem(
    open: U64,
    closed: U64,
    expiration: U64,
    clock: U64,             // open_count of the clock interlock
    watched: U64,           // the word a WaitCounter watches
    now: U64,               // CLOCK_MONOTONIC, in nanoseconds
    published: seq<U64>,    // every value the clock word has held
    stamps: seq<U64>,       // initial closed_count, then every daemon stamp
    seen: seq<U64>,         // every value the daemon read from the watched word
    armed: seq<Arm>)        // every arm so far, whoever made it

  // -- Client program counters --

  datatype Outcome =
    | Delivered(value: U64, state: WaitState)
    | Reaped
    | Aborted(wait: TimerWait)

  datatype TimerCall = TimerCall(ms: U64, until: U64, clockAt: U64, index: nat)
  {
    function Target(): U64 { Wrap(clockAt + ms) }
    function Ttl(): U64 { MsToNanos(SaturatingMul(ms, 2)) }
  }

  /** A timer call in its wait loop: when its arm read the time, and when the call itself did. */
  datatype TimerWait = TimerWait(call: TimerCall, armedAt: U64, readAt: U64)
  {
    function Deadline(): U64 { SaturatingAdd(readAt, call.Ttl()) }
  }

  datatype CounterCall = CounterCall(target: U64, timeoutNs: U64)

  datatype Caller =
    | TouchCaller
    | TimerCaller(call: TimerCall)
    | CounterCaller(counter: CounterCall)

  /** Who sleeps in futex_wait, hence where the thread resumes. */
  datatype Waiter =
    | WordWaiter(word: Word, target: U64)
    | TimerWaiter(wait: TimerWait)
    | CounterWaiter(counter: CounterCall)
    | CronWaiter(initial: U64)
    | BarrierWaiter

  /** interlock_arm. */
  datatype ArmPc =
    | ArmTime(ttl: U64, caller: Caller)
    | ArmLoad(start: U64, ttl: U64, caller: Caller)
    | ArmCas(start: U64, ttl: U64, current: U64, caller: Caller)

  /** wait_open and wait_close. */
  datatype WordPc =
    | WordLoad(word: Word, target: U64)
    | WordExp(word: Word, target: U64)
    | WordTime(word: Word, target: U64, exp: U64)
    | WordDone(target: U64, outcome: Outcome)

  /** WaitTimer::wait_ms and WaitTimer::wait_until. */
  datatype TimerPc =
    | TimerUntil(until: U64)
    | TimerClock(ms: U64, until: U64)
    | TimerLoad(call: TimerCall)
    | TimerCas(call: TimerCall, current: U64)
    | TimerDeadline(call: TimerCall, armedAt: U64)
    | TimerClosed(wait: TimerWait)
    | TimerOpen(wait: TimerWait, closed: U64)
    | TimerExp(wait: TimerWait, closed: U64)
    | TimerTime(wait: TimerWait, closed: U64, exp: U64)
    | TimerDone(call: TimerCall, outcome: Outcome)

  /** WaitCounter::wait_until. */
  datatype CounterPc =
    | CounterLoad(counter: CounterCall)
    | CounterCas(counter: CounterCall, current: U64)
    | CounterClosed(counter: CounterCall)
    | CounterOpen(counter: CounterCall, closed: U64)
    | CounterClosed2(counter: CounterCall, timedOut: bool)
    | CounterOpen2(counter: CounterCall, timedOut: bool, closed: U64)
    | CounterExp2(counter: CounterCall, timedOut: bool, closed: U64)
    | CounterDone(counter: CounterCall, outcome: Outcome)

  /** WaitCron::wait. */
  datatype CronPc =
    | CronSnap
    | CronClosed(initial: U64)
    | CronOpen(initial: U64, closed: U64)
    | CronExp(initial: U64, closed: U64)
    | CronTime(initial: U64, closed: U64, exp: U64)
    | CronDone(outcome: Outcome)

  /** WaitBarrier::wait. */
  datatype BarrierPc =
    | BarrierClosed
    | BarrierOpen(closed: U64)
    | BarrierExp(closed: U64, open: U64)
    | BarrierExp2
    | BarrierTime2(exp: U64)
    | BarrierDone(outcome: Outcome)

  datatype Pc =
    | Idle
    | Waking(words: seq<Word>)
    | Enter(word: Word, loaded: U64, timeoutNs: U64, waiter: Waiter)
    | Blocked(word: Word, loaded: U64, timeoutNs: U64, waiter: Waiter)
    | OnArm(arm: ArmPc)
    | TouchDone(ok: bool)
      // open, close, free
    | Add(word: Word, h: U64)
    | OwnerFree
    | AttacherFree
      // waits
    | OnWord(wordPc: WordPc)
    | OnTimer(timer: TimerPc)
    | OnCounter(counterPc: CounterPc)
    | OnCron(cron: CronPc)
    | OnBarrier(barrier: BarrierPc)

  /** Calls a client thread can make when it is in none. */
  datatype Op =
    | OpTouch(ttl: U64)
    | OpAdd(word: Word, h: U64)
    | OpOwnerFree
    | OpAttacherFree
    | OpWaitWord(word: Word, target: U64)
    | OpTimer(ms: U64)
    | OpTimerUntil(until: U64)
    | OpCounter(counter: CounterCall)
    | OpCron
    | OpBarrier

  predicate Allowed(cfg: Config, op: Op) {
    match op
    case OpTouch(_) => true
    case OpOwnerFree => true
    case OpAdd(_, _) => cfg.tier == Interlock || cfg.attachers
    case OpWaitWord(_, _) => cfg.tier == Interlock || cfg.attachers
    case OpAttacherFree => cfg.attachers
    case OpTimer(_) => cfg.tier == WaitTimer
    case OpTimerUntil(_) => cfg.tier == WaitTimer
    case OpCounter(_) => cfg.tier == WaitCounter
    case OpCron => cfg.tier == WaitCron
    case OpBarrier => cfg.tier == WaitBarrier
  }

  function Begin(op: Op): Pc {
    match op
    case OpTouch(ttl) => OnArm(ArmTime(ttl, TouchCaller))
    case OpAdd(word, h) => Add(word, h)
    case OpOwnerFree => OwnerFree
    case OpAttacherFree => AttacherFree
    case OpWaitWord(word, target) => OnWord(WordLoad(word, target))
    case OpTimer(ms) => OnTimer(TimerClock(ms, 0))
    case OpTimerUntil(until) => OnTimer(TimerUntil(until))
    case OpCounter(counter) => OnCounter(CounterLoad(counter))
    case OpCron => OnCron(CronSnap)
    case OpBarrier => OnBarrier(BarrierClosed)
  }

  /** A thread in one of these is between calls. An aborted process makes no more calls. */
  predicate BetweenCalls(pc: Pc) {
    match pc
    case Idle => true
    case TouchDone(_) => true
    case OnWord(w) => w.WordDone?
    case OnTimer(t) => t.TimerDone? && !t.outcome.Aborted?
    case OnCounter(c) => c.CounterDone?
    case OnCron(k) => k.CronDone?
    case OnBarrier(b) => b.BarrierDone?
    case _ => false
  }

  /** How futex_wait comes back when nobody woke it. */
  datatype EarlyReturn = TimedOut | Interrupted

  /** The choices left open: the next call, a spurious CAS failure, how the kernel returns. */
  datatype Choice = Choice(op: Op, spurious: bool, early: EarlyReturn)

  function Get(m: Mem, w: Word): U64 {
    if w == OpenWord then m.open else m.closed
  }

  function Put(m: Mem, w: Word, v: U64): Mem {
    if w == OpenWord then m.(open := v) else m.(closed := v)
  }

  function Resume(waiter: Waiter, timedOut: bool): Pc {
    match waiter
    case WordWaiter(word, target) => OnWord(WordExp(word, target))
    case TimerWaiter(wait) => OnTimer(TimerClosed(wait))
    case CounterWaiter(counter) => OnCounter(CounterClosed2(counter, timedOut))
    case CronWaiter(initial) => OnCron(CronClosed(initial))
    case BarrierWaiter => OnBarrier(BarrierExp2)
  }

  function ArmOk(caller: Caller, start: U64): Pc {
    match caller
    case TouchCaller => TouchDone(true)
    case TimerCaller(call) => OnTimer(TimerDeadline(call, start))
    case CounterCaller(counter) => OnCounter(CounterClosed(counter))
  }

  function ArmErr(caller: Caller): Pc {
    match caller
    case TouchCaller => TouchDone(false)
    case TimerCaller(call) => OnTimer(TimerDone(call, Reaped))
    case CounterCaller(counter) => OnCounter(CounterDone(counter, Reaped))
  }

  function Max(a: U64, b: U64): U64 {
    if a >= b then a else b
  }

  datatype ClientOut = Out(mem: Mem, pc: Pc, wakes: Option<Word>)

  function Goto(m: Mem, pc: Pc): ClientOut {
    Out(m, pc, None)
  }

  /** futex_wait compares and enqueues in one step; EAGAIN when the word differs. */
  function EnterFutex(m: Mem, w: Word, loaded: U64, timeout: U64, waiter: Waiter): Pc {
    if Lo32(Get(m, w)) == Lo32(loaded) then Blocked(w, loaded, timeout, waiter) else Resume(waiter, false)
  }

  function ArmStep(m: Mem, a: ArmPc, spurious: bool): ClientOut {
    match a
    case ArmTime(ttl, caller) => Goto(m, OnArm(ArmLoad(m.now, ttl, caller)))
    case ArmLoad(start, ttl, caller) =>
      if m.expiration == SENTINEL then Goto(m, ArmErr(caller))
      else if Wrap(start + ttl) <= m.expiration then
        Goto(m.(armed := m.armed + [Arm(start, ttl, m.now)]), ArmOk(caller, start))
      else Goto(m, OnArm(ArmCas(start, ttl, m.expiration, caller)))
    case ArmCas(start, ttl, current, caller) =>
      if m.expiration != current || spurious then Goto(m, OnArm(ArmLoad(start, ttl, caller)))
      else
        var target := Max(current, Wrap(start + ttl));
        Goto(m.(expiration := target, armed := m.armed + [Arm(start, ttl, m.now)]), ArmOk(caller, start))
  }

  function WordStep(m: Mem, w: WordPc): ClientOut {
    match w
    case WordLoad(word, target) =>
      var current := Get(m, word);
      if current == SENTINEL then Goto(m, OnWord(WordDone(target, Reaped)))
      else if current >= target then Goto(m, OnWord(WordDone(target, Delivered(current, Normal))))
      else Goto(m, Enter(word, current, DEFAULT_TIMEOUT_NANOS, WordWaiter(word, target)))
    case WordExp(word, target) =>
      Goto(m, OnWord(if m.expiration == SENTINEL then WordDone(target, Reaped)
                     else WordTime(word, target, m.expiration)))
    case WordTime(word, target, exp) =>
      Goto(m, OnWord(if exp < m.now then WordDone(target, Reaped) else WordLoad(word, target)))
    case WordDone(_, _) => Goto(m, OnWord(w))
  }

  function TimerStep(m: Mem, t: TimerPc, spurious: bool): ClientOut {
    match t
    case TimerUntil(until) =>
      Goto(m, OnTimer(TimerClock(if until >= m.clock then until - m.clock else 0, until)))
    case TimerClock(ms, until) =>
      Goto(m, OnTimer(TimerLoad(TimerCall(ms, until, m.clock, |m.published|))))
    case TimerLoad(call) =>
      if call.Target() <= m.open then Goto(m, OnArm(ArmTime(call.Ttl(), TimerCaller(call))))
      else Goto(m, OnTimer(TimerCas(call, m.open)))
    case TimerCas(call, current) =>
      if m.open != current || spurious then Goto(m, OnTimer(TimerLoad(call)))
      else Goto(m.(open := call.Target()), OnArm(ArmTime(call.Ttl(), TimerCaller(call))))
    case TimerDeadline(call, armedAt) =>
      Goto(m, OnTimer(TimerClosed(TimerWait(call, armedAt, m.now))))
    case TimerClosed(wait) => Goto(m, OnTimer(TimerOpen(wait, m.closed)))
    case TimerOpen(wait, closed) =>
      var state := CheckWakeState(m.open, closed);
      Goto(m, OnTimer(if state.Timeout? then TimerExp(wait, closed)
                      else TimerDone(wait.call, Delivered(closed, state))))
    case TimerExp(wait, closed) =>
      Goto(m, OnTimer(if m.expiration == SENTINEL then TimerDone(wait.call, Reaped)
                      else TimerTime(wait, closed, m.expiration)))
    case TimerTime(wait, closed, exp) =>
      if m.now >= wait.Deadline() then
        Goto(m, OnTimer(TimerDone(wait.call, if exp < m.now then Reaped else Aborted(wait))))
      else
        Goto(m, Enter(ClosedWord, closed, wait.Deadline() - m.now, TimerWaiter(wait)))
    case TimerDone(_, _) => Goto(m, OnTimer(t))
  }

  function CounterStep(m: Mem, p: CounterPc, spurious: bool): ClientOut {
    match p
    case CounterLoad(c) =>
      if c.target <= m.open then Goto(m, OnArm(ArmTime(SaturatingMul(c.timeoutNs, 2), CounterCaller(c))))
      else Goto(m, OnCounter(CounterCas(c, m.open)))
    case CounterCas(c, current) =>
      if m.open != current || spurious then Goto(m, OnCounter(CounterLoad(c)))
      else Goto(m.(open := c.target), OnArm(ArmTime(SaturatingMul(c.timeoutNs, 2), CounterCaller(c))))
    case CounterClosed(c) => Goto(m, OnCounter(CounterOpen(c, m.closed)))
    case CounterOpen(c, closed) =>
      var state := CheckWakeState(m.open, closed);
      if state.Timeout? then Goto(m, Enter(ClosedWord, closed, c.timeoutNs, CounterWaiter(c)))
      else Goto(m, OnCounter(CounterDone(c, Delivered(closed, state))))
    case CounterClosed2(c, timedOut) => Goto(m, OnCounter(CounterOpen2(c, timedOut, m.closed)))
    case CounterOpen2(c, timedOut, closed) =>
      var state := CheckWakeState(m.open, closed);
      Goto(m, OnCounter(if state.Timeout? then CounterExp2(c, timedOut, closed)
                        else CounterDone(c, Delivered(closed, state))))
    case CounterExp2(c, timedOut, closed) =>
      Goto(m, OnCounter(if m.expiration == SENTINEL then CounterDone(c, Reaped)
                        else if timedOut then CounterDone(c, Delivered(closed, Timeout))
                        else CounterClosed(c)))
    case CounterDone(_, _) => Goto(m, OnCounter(p))
  }

  function CronStep(m: Mem, k: CronPc): ClientOut {
    match k
    case CronSnap => Goto(m, OnCron(CronClosed(m.closed)))
    case CronClosed(initial) =>
      Goto(m, OnCron(if m.closed == SENTINEL then CronDone(Reaped)
                     else if m.closed > initial then CronOpen(initial, m.closed)
                     else CronExp(initial, m.closed)))
    case CronOpen(initial, closed) =>
      Goto(m, OnCron(CronDone(Delivered(closed, if closed > m.open then Overrun else Normal))))
    case CronExp(initial, closed) =>
      Goto(m, OnCron(if m.expiration == SENTINEL then CronDone(Reaped) else CronTime(initial, closed, m.expiration)))
    case CronTime(initial, closed, exp) =>
      if exp < m.now then Goto(m, OnCron(CronDone(Reaped)))
      else Goto(m, Enter(ClosedWord, closed, DEFAULT_TIMEOUT_NANOS, CronWaiter(initial)))
    case CronDone(_) => Goto(m, OnCron(k))
  }

  function BarrierStep(m: Mem, b: BarrierPc): ClientOut {
    match b
    case BarrierClosed => Goto(m, OnBarrier(BarrierOpen(m.closed)))
    case BarrierOpen(closed) =>
      Goto(m, OnBarrier(
             if Value(m.open, closed) <= 0 && closed > 0
             then BarrierDone(Delivered(closed, if closed == m.open then Normal else Overrun))
             else BarrierExp(closed, m.open)))
    case BarrierExp(closed, open) =>
      if Terminated(open, closed, m.expiration) then Goto(m, OnBarrier(BarrierDone(Reaped)))
      else Goto(m, Enter(ClosedWord, closed, DEFAULT_TIMEOUT_NANOS, BarrierWaiter))
    case BarrierExp2 =>
      Goto(m, OnBarrier(if m.expiration == SENTINEL then BarrierDone(Reaped) else BarrierTime2(m.expiration)))
    case BarrierTime2(exp) =>
      Goto(m, OnBarrier(if exp < m.now then BarrierDone(Reaped) else BarrierClosed))
    case BarrierDone(_) => Goto(m, OnBarrier(b))
  }

  /** One atomic step of a client thread. A step that is not possible leaves everything as it is. */
  function ClientStep(cfg: Config, m: Mem, pc: Pc, ch: Choice): ClientOut {
    if BetweenCalls(pc) then
      Goto(m, if Allowed(cfg, ch.op) then Begin(ch.op) else pc)
    else
      match pc
      case Waking(ws) =>
        if ws == [] then Goto(m, Idle)
        else Out(m, if |ws| == 1 then Idle else Waking(ws[1..]), Some(ws[0]))
      case Enter(w, loaded, timeout, waiter) => Goto(m, EnterFutex(m, w, loaded, timeout, waiter))
      case Blocked(w, loaded, timeout, waiter) =>
        // A zero timeout never expires.
        if ch.early.TimedOut? && timeout == 0 then Goto(m, pc)
        else Goto(m, Resume(waiter, ch.early.TimedOut?))
      case OnArm(a) => ArmStep(m, a, ch.spurious)
      case Add(w, h) => Goto(Put(m, w, Wrap(Get(m, w) + h)), Waking([w]))
      case OwnerFree => Goto(m.(expiration := SENTINEL), Waking([OpenWord, ClosedWord]))
      case AttacherFree => Goto(m.(open := SENTINEL), Waking([OpenWord, ClosedWord]))
      case OnWord(w) => WordStep(m, w)
      case OnTimer(t) => TimerStep(m, t, ch.spurious)
      case OnCounter(c) => CounterStep(m, c, ch.spurious)
      case OnCron(k) => CronStep(m, k)
      case OnBarrier(b) => BarrierStep(m, b)
      case _ => Goto(m, pc)
  }

  // -- The daemon --

  /** What follows the daemon's wake: the end of the pass, the cron re-arm, or removal. */
  datatype After = ToIdle | ToRearm(at: U64) | ToGone

  /** `live`: the registry still holds the entry. `at`, `ttlAt`: the cycle's two clock reads. */
  datatype Dpc =
    | DIdle(live: bool)
    | DClock(live: bool)
    | DPublish(live: bool, at: U64)
    | DTtl(at: U64)
    | DOpen(at: U64, ttlAt: U64)
    | DClosed(at: U64, ttlAt: U64, open: U64)
    | DExp(at: U64, ttlAt: U64, open: U64, closed: U64)
    | DWatch(open: U64, closed: U64)
    | DBarrier(at: U64, open: U64, closed: U64)
    | DStamp(at: U64, open: U64, closed: U64, value: U64)
    | DRearm(at: U64)
    | DReapOpen
    | DReapClosed
    | DReapExp
    | DWaking(words: seq<Word>, after: After)

  datatype DOp = Cycle | Takeover | Rest

  /** met: what a barrier's conditions on other interlocks evaluate to. */
  datatype DChoice = DChoice(op: DOp, met: bool)

  datatype DaemonOut = DOut(mem: Mem, daemon: Dpc, wakes: Option<Word>)

  function DGoto(m: Mem, d: Dpc): DaemonOut {
    DOut(m, d, None)
  }

  function AfterWake(after: After): Dpc {
    match after
    case ToIdle => DIdle(true)
    case ToRearm(at) => DRearm(at)
    case ToGone => DIdle(false)
  }

  /** The tier's part of a pass, once an entry is found live and open. */
  function Contract(cfg: Config, at: U64, open: U64, closed: U64): Dpc {
    match cfg.tier
    case Interlock => DIdle(true)
    case WaitCounter => DWatch(open, closed)
    case WaitBarrier => DBarrier(at, open, closed)
    case _ => if at / NANOS_PER_MS >= open then DStamp(at, open, closed, at / NANOS_PER_MS) else DIdle(true)
  }

  function DaemonStep(cfg: Config, m: Mem, d: Dpc, ch: DChoice): DaemonOut {
    match d
    case DIdle(live) =>
      // A create under the same name reaps the entry between two passes.
      DGoto(m, match ch.op
               case Cycle => DClock(live)
               case Takeover => if live then DReapOpen else d
               case Rest => d)
    case DClock(live) => DGoto(m, DPublish(live, m.now))
    case DPublish(live, at) =>
      var ms := at / NANOS_PER_MS;
      DGoto(m.(clock := ms, published := m.published + [ms]), if live then DTtl(at) else DIdle(false))
    case DTtl(at) => DGoto(m, DOpen(at, m.now))
    case DOpen(at, ttlAt) => DGoto(m, DClosed(at, ttlAt, m.open))
    case DClosed(at, ttlAt, open) => DGoto(m, DExp(at, ttlAt, open, m.closed))
    case DExp(at, ttlAt, open, closed) =>
      DGoto(m, match Judge(open, closed, m.expiration, ttlAt)
               case Reap => DReapOpen
               case Skip => DIdle(true)
               case Evaluate => Contract(cfg, at, open, closed))
    case DWatch(open, closed) =>
      DGoto(m.(seen := m.seen + [m.watched]),
            if m.watched >= open then DStamp(0, open, closed, m.watched) else DIdle(true))
    case DBarrier(at, open, closed) =>
      DGoto(m, if ch.met then DStamp(at, open, closed, at / NANOS_PER_MS) else DIdle(true))
    case DStamp(at, open, closed, value) =>
      DGoto(m.(closed := value, stamps := m.stamps + [value]),
            DWaking([ClosedWord], if cfg.tier == WaitCron then ToRearm(at) else ToIdle))
    case DRearm(at) => DGoto(m.(open := NextLine(at / NANOS_PER_MS, cfg.interval)), DIdle(true))
    case DReapOpen => DGoto(m.(open := SENTINEL), DReapClosed)
    case DReapClosed => DGoto(m.(closed := SENTINEL), DReapExp)
    case DReapExp => DGoto(m.(expiration := SENTINEL), DWaking([OpenWord, ClosedWord], ToGone))
    case DWaking(ws, after) =>
      if ws == [] then DGoto(m, AfterWake(after))
      else DOut(m, if |ws| == 1 then AfterWake(after) else DWaking(ws[1..], after), Some(ws[0]))
  }

  // -- The whole system --

  /** oks: what WaitCron::wait returned, by thread. touches: the arms of touch loops, by thread. */
  datatype State = State(
    mem: Mem, threads: map<Tid, Pc>, daemon: Dpc, oks: seq<(Tid, U64)>, touches: seq<(Tid, Arm)> := [])

  datatype Event =
    | Tick(dt: nat)
    | WatchedSet(v: U64)
    | Client(t: Tid, choice: Choice)
    | Daemon(dchoice: DChoice)

  function PcOf(s: State, t: Tid): Pc {
    if t in s.threads then s.threads[t] else Idle
  }

  /** FUTEX_WAKE with i32::MAX: every thread queued on the word returns. */
  function Wake(w: Option<Word>, pc: Pc): Pc {
    if w.Some? && pc.Blocked? && pc.word == w.value then Resume(pc.waiter, false) else pc
  }

  function WakeAll(w: Option<Word>, threads: map<Tid, Pc>): map<Tid, Pc> {
    map t | t in threads :: Wake(w, threads[t])
  }

  /** Grid results are recorded when WaitCron::wait returns Ok. */
  function Recorded(s: State, t: Tid, pc: Pc, pc': Pc): seq<(Tid, U64)> {
    if pc.OnCron? && pc.cron.CronOpen? && pc'.OnCron? && pc'.cron.CronDone? && pc'.cron.outcome.Delivered?
    then s.oks + [(t, pc'.cron.outcome.value)]
    else s.oks
  }

  /** A touch is recorded when its arm returns Ok. */
  function Touches(s: State, t: Tid, pc: Pc, o: ClientOut): seq<(Tid, Arm)> {
    if pc.OnArm? && !pc.arm.ArmTime? && pc.arm.caller.TouchCaller? && o.pc == TouchDone(true)
    then s.touches + [(t, Arm(pc.arm.start, pc.arm.ttl, o.mem.now))]
    else s.touches
  }

  function Step(cfg: Config, s: State, e: Event): State {
    match e
    case Tick(dt) =>
      if s.mem.now + dt < TWO64 then s.(mem := s.mem.(now := s.mem.now + dt)) else s
    case WatchedSet(v) => s.(mem := s.mem.(watched := v))
    case Client(t, ch) =>
      var pc := PcOf(s, t);
      var o := ClientStep(cfg, s.mem, pc, ch);
      State(o.mem, WakeAll(o.wakes, s.threads)[t := o.pc], s.daemon, Recorded(s, t, pc, o.pc), Touches(s, t, pc, o))
    case Daemon(ch) =>
      var o := DaemonStep(cfg, s.mem, s.daemon, ch);
      State(o.mem, WakeAll(o.wakes, s.threads), o.daemon, s.oks, s.touches)
  }

  /** The state after a finite interleaving; every prefix of an execution is one. */
  function Exec(cfg: Config, s: State, es: seq<Event>): State
    decreases |es|
  {
    if es == [] then s else Exec(cfg, Step(cfg, s, es[0]), es[1..])
  }

  /**
   What create hands out: the tier's initial counters, an expiration in whatever state the
   creation store left it, no client thread inside a call, the daemon between passes.
   */
  ghost predicate Init(cfg: Config, s: State) {
    var m := s.mem;
    && m.clock * NANOS_PER_MS <= m.now
    && m.open == InitialOpen(cfg.tier, m.clock, cfg.interval)
    && m.closed == InitialClosed(cfg.tier, m.clock)
    && m.published == [m.clock] && m.stamps == [m.closed] && m.seen == [] && m.armed == []
    && s.threads == map[] && s.daemon == DIdle(true) && s.oks == [] && s.touches == []
  }

  // -- Induction over interleavings --

  ghost predicate Inductive(cfg: Config, inv: State -> bool) {
    forall s, e :: inv(s) ==> inv(Step(cfg, s, e))
  }

  /** An inductive property of states holds after every interleaving. */
  lemma {:induction false} ExecKeeps(cfg: Config, inv: State -> bool, s: State, es: seq<Event>)
    requires Inductive(cfg, inv) && inv(s)
    ensures inv(Exec(cfg, s, es))
    decreases |es|
  {
    if es != [] {
      ExecKeeps(cfg, inv, Step(cfg, s, es[0]), es[1..]);
    }
  }

  // -- Runs that keep a rule at every step --

  ghost predicate Along(cfg: Config, s: State, es: seq<Event>, rule: (State, Event) -> bool)
    decreases |es|
  {
    es == [] || (rule(s, es[0]) && Along(cfg, Step(cfg, s, es[0]), es[1..], rule))
  }

  lemma {:induction false} AlongKeeps(cfg: Config, inv: State -> bool, s: State, es: seq<Event>,
                                      rule: (State, Event) -> bool)
    requires forall x, e :: inv(x) && rule(x, e) ==> inv(Step(cfg, x, e))
    requires inv(s) && Along(cfg, s, es, rule)
    ensures inv(Exec(cfg, s, es))
    decreases |es|
  {
    if es != [] {
      AlongKeeps(cfg, inv, Step(cfg, s, es[0]), es[1..], rule);
    }
  }

  lemma ExecSnoc(cfg: Config, s: State, es: seq<Event>, k: nat)
    requires k < |es|
    ensures Exec(cfg, s, es[..k + 1]) == Step(cfg, Exec(cfg, s, es[..k]), es[k])
  {
    assert es[..k + 1] == es[..k] + [es[k]];
    ExecConcat(cfg, s, es[..k], [es[k]]);
    assert Exec(cfg, Step(cfg, Exec(cfg, s, es[..k]), es[k]), []) == Step(cfg, Exec(cfg, s, es[..k]), es[k]);
  }

  /** A rule kept along a run holds at its every step, and along its every beginning. */
  lemma {:induction false} AlongAt(cfg: Config, s: State, es: seq<Event>, rule: (State, Event) -> bool, k: nat)
    requires Along(cfg, s, es, rule) && k <= |es|
    ensures Along(cfg, s, es[..k], rule)
    ensures k < |es| ==> rule(Exec(cfg, s, es[..k]), es[k])
    decreases k
  {
    if k > 0 {
      AlongAt(cfg, Step(cfg, s, es[0]), es[1..], rule, k - 1);
      assert es[..k][0] == es[0] && es[..k][1..] == es[1..][..k - 1];
    }
  }

  /** And the other way round. */
  lemma {:induction false} AlongFrom(cfg: Config, s: State, es: seq<Event>, rule: (State, Event) -> bool)
    requires forall k: nat | k < |es| :: rule(Exec(cfg, s, es[..k]), es[k])
    ensures Along(cfg, s, es, rule)
    decreases |es|
  {
    if es != [] {
      assert es[..0] == [];
      assert rule(Exec(cfg, s, es[..0]), es[0]);
      var s', rest := Step(cfg, s, es[0]), es[1..];
      forall k: nat | k < |rest| ensures rule(Exec(cfg, s', rest[..k]), rest[k]) {
        assert es[..k + 1][0] == es[0] && es[..k + 1][1..] == rest[..k];
        assert rule(Exec(cfg, s, es[..k + 1]), es[k + 1]);
      }
      AlongFrom(cfg, s', rest, rule);
    }
  }

  /** A run that keeps a stricter rule, after one that keeps the rule, keeps the rule. */
  lemma {:induction false} AlongConcat(cfg: Config, s: State, a: seq<Event>, b: seq<Event>,
                                       strict: (State, Event) -> bool, rule: (State, Event) -> bool)
    requires Along(cfg, s, a, rule) && Along(cfg, Exec(cfg, s, a), b, strict)
    requires forall x, e :: strict(x, e) ==> rule(x, e)
    ensures Along(cfg, s, a + b, rule)
    decreases |a| + |b|
  {
    if a != [] {
      assert (a + b)[0] == a[0] && (a + b)[1..] == a[1..] + b;
      AlongConcat(cfg, Step(cfg, s, a[0]), a[1..], b, strict, rule);
    } else if b != [] {
      assert a + b == b;
      AlongConcat(cfg, Step(cfg, s, b[0]), [], b[1..], strict, rule);
      assert [] + b[1..] == b[1..];
    } else {
      assert a + b == [];
    }
  }

  /** A run that keeps a stricter rule keeps the rule. */
  lemma AlongWeaker(cfg: Config, s: State, es: seq<Event>, strict: (State, Event) -> bool, rule: (State, Event) -> bool)
    requires Along(cfg, s, es, strict) && forall x, e :: strict(x, e) ==> rule(x, e)
    ensures Along(cfg, s, es, rule)
  {
    AlongConcat(cfg, s, [], es, strict, rule);
    assert [] + es == es;
  }

  /** Running two interleavings in turn. */
  lemma {:induction false} ExecConcat(cfg: Config, s: State, a: seq<Event>, b: seq<Event>)
    ensures Exec(cfg, s, a + b) == Exec(cfg, Exec(cfg, s, a), b)
    decreases |a|
  {
    if a == [] {
      assert a + b == b;
    } else {
      assert (a + b)[1..] == a[1..] + b;
      ExecConcat(cfg, Step(cfg, s, a[0]), a[1..], b);
    }
  }

  // -- Which steps a tier can run --

  /** The wait tier a program counter belongs to; None for calls every handle offers. */
  function CallTier(pc: Pc): Option<Tier> {
    match pc
    case Enter(_, _, _, waiter) => WaiterTier(waiter)
    case Blocked(_, _, _, waiter) => WaiterTier(waiter)
    case OnArm(a) => CallerTier(a.caller)
    case OnTimer(_) => Some(WaitTimer)
    case OnCounter(_) => Some(WaitCounter)
    case OnCron(_) => Some(WaitCron)
    case OnBarrier(_) => Some(WaitBarrier)
    case _ => None
  }

  function WaiterTier(waiter: Waiter): Option<Tier> {
    match waiter
    case WordWaiter(_, _) => None
    case TimerWaiter(_) => Some(WaitTimer)
    case CounterWaiter(_) => Some(WaitCounter)
    case CronWaiter(_) => Some(WaitCron)
    case BarrierWaiter => Some(WaitBarrier)
  }

  function CallerTier(caller: Caller): Option<Tier> {
    match caller
    case TouchCaller => None
    case TimerCaller(_) => Some(WaitTimer)
    case CounterCaller(_) => Some(WaitCounter)
  }

  /** Steps of handles that write counters directly. */
  predicate Direct(pc: Pc) {
    || pc.Add? || pc.OnWord?
    || ((pc.Enter? || pc.Blocked?) && pc.waiter.WordWaiter?)
  }

  predicate Fits(cfg: Config, pc: Pc) {
    && (CallTier(pc) == None || CallTier(pc) == Some(cfg.tier))
    && (Direct(pc) ==> cfg.tier == Interlock || cfg.attachers)
    && (pc.AttacherFree? ==> cfg.attachers)
    && (pc.Waking? ==> |pc.words| <= 2)
    && ((pc.Enter? || pc.Blocked?) && !pc.waiter.WordWaiter? ==> pc.word == ClosedWord)
  }

  predicate FitsDaemon(cfg: Config, d: Dpc) {
    && (d.DRearm? || (d.DWaking? && d.after.ToRearm?) ==> cfg.tier == WaitCron)
    && (d.DWatch? ==> cfg.tier == WaitCounter)
    && (d.DBarrier? ==> cfg.tier == WaitBarrier)
    && (d.DStamp? ==> cfg.tier != Interlock)
    && (d.DWaking? ==> |d.words| <= 2)
  }

  ghost predicate AllFit(cfg: Config, s: State) {
    FitsDaemon(cfg, s.daemon) && forall t | t in s.threads :: Fits(cfg, s.threads[t])
  }

  lemma WaitFits(cfg: Config, m: Mem, pc: Pc, spurious: bool)
    requires Fits(cfg, pc)
    ensures pc.OnWord? ==> Fits(cfg, WordStep(m, pc.wordPc).pc)
    ensures pc.OnTimer? ==> Fits(cfg, TimerStep(m, pc.timer, spurious).pc)
    ensures pc.OnCounter? ==> Fits(cfg, CounterStep(m, pc.counterPc, spurious).pc)
  {
  }

  lemma SignalFits(cfg: Config, m: Mem, pc: Pc, spurious: bool)
    requires Fits(cfg, pc)
    ensures pc.OnCron? ==> Fits(cfg, CronStep(m, pc.cron).pc)
    ensures pc.OnBarrier? ==> Fits(cfg, BarrierStep(m, pc.barrier).pc)
    ensures pc.OnArm? ==> Fits(cfg, ArmStep(m, pc.arm, spurious).pc)
  {
  }

  lemma ClientFits(cfg: Config, m: Mem, pc: Pc, ch: Choice)
    requires Fits(cfg, pc)
    ensures Fits(cfg, ClientStep(cfg, m, pc, ch).pc)
  {
    hide WordStep, TimerStep, CounterStep, CronStep, BarrierStep, ArmStep;
    WaitFits(cfg, m, pc, ch.spurious);
    SignalFits(cfg, m, pc, ch.spurious);
  }

  lemma DaemonFits(cfg: Config, m: Mem, d: Dpc, ch: DChoice)
    requires FitsDaemon(cfg, d)
    ensures FitsDaemon(cfg, DaemonStep(cfg, m, d, ch).daemon)
  {
  }

  lemma WakeFits(cfg: Config, w: Option<Word>, pc: Pc)
    requires Fits(cfg, pc)
    ensures Fits(cfg, Wake(w, pc))
  {
  }

  lemma StepFits(cfg: Config, s: State, e: Event)
    requires AllFit(cfg, s)
    ensures AllFit(cfg, Step(cfg, s, e))
  {
    forall w, t | t in s.threads ensures Fits(cfg, Wake(w, s.threads[t])) {
      WakeFits(cfg, w, s.threads[t]);
    }
    match e
    case Client(t, ch) => ClientFits(cfg, s.mem, PcOf(s, t), ch);
    case Daemon(ch) => DaemonFits(cfg, s.mem, s.daemon, ch);
    case _ =>
  }

  lemma AlwaysFits(cfg: Config, s: State, es: seq<Event>)
    requires Init(cfg, s)
    ensures AllFit(cfg, Exec(cfg, s, es))
  {
    var inv := (x: State) => AllFit(cfg, x);
    forall x, e | inv(x) ensures inv(Step(cfg, x, e)) {
      StepFits(cfg, x, e);
    }
    ExecKeeps(cfg, inv, s, es);
  }

  /** The daemon has begun to reap the entry, or has removed it. */
  predicate Gone(d: Dpc) {
    match d
    case DIdle(live) => !live
    case DClock(live) => !live
    case DPublish(live, _) => !live
    case DReapOpen => true
    case DReapClosed => true
    case DReapExp => true
    case DWaking(_, after) => after.ToGone?
    case _ => false
  }

  lemma GoneForGood(cfg: Config, s: State, e: Event)
    requires Gone(s.daemon)
    ensures Gone(Step(cfg, s, e).daemon)
  {
  }

  lemma StaysGone(cfg: Config, s: State, es: seq<Event>)
    requires Gone(s.daemon)
    ensures Gone(Exec(cfg, s, es).daemon)
  {
    var inv := (x: State) => Gone(x.daemon);
    forall x, e | inv(x) ensures inv(Step(cfg, x, e)) {
      GoneForGood(cfg, x, e);
    }
    ExecKeeps(cfg, inv, s, es);
  }

  // -- Concrete interleavings --

  function Do(t: Tid, op: Op): Event {
    Client(t, Choice(op, false, Interrupted))
  }

  const GO: Event := Daemon(DChoice(Cycle, true))

  /** An interlock created at time and clock 0 with both counters 0: a bare one, or a counter. */
  function FreshZero(): State {
    State(Mem(0, 0, 100_000_000, 0, 0, 0, [0], [0], [], []), map[], DIdle(true), [])
  }

  /** A timer created at 5 ms. */
  function FreshTimer(): State {
    State(Mem(5, 5, 105_000_000, 5, 0, 5_000_000, [5], [5], [], []), map[], DIdle(true), [])
  }

  /** A step that wakes nobody touches only the memory and the thread's own counter. */
  lemma ClientMoves(cfg: Config, s: State, t: Tid, ch: Choice)
    requires ClientStep(cfg, s.mem, PcOf(s, t), ch).wakes == None || forall u | u in s.threads :: !s.threads[u].Blocked?
    requires !PcOf(s, t).OnCron? && (PcOf(s, t).OnArm? ==> !PcOf(s, t).arm.caller.TouchCaller?)
    ensures var o := ClientStep(cfg, s.mem, PcOf(s, t), ch);
            Step(cfg, s, Client(t, ch)) == s.(mem := o.mem, threads := s.threads[t := o.pc])
  {
    var o := ClientStep(cfg, s.mem, PcOf(s, t), ch);
    assert WakeAll(o.wakes, s.threads) == s.threads;
  }

  /** A trail of states, each the step from the one before, ends where Exec does. */
  lemma {:induction false} Follow(cfg: Config, trail: nat -> State, es: seq<Event>)
    requires forall i: nat | i < |es| :: trail(i + 1) == Step(cfg, trail(i), es[i])
    ensures Exec(cfg, trail(0), es) == trail(|es|)
    decreases |es|
  {
    if es != [] {
      var rest := (i: nat) => trail(i + 1);
      forall i: nat | i < |es[1..]| ensures rest(i + 1) == Step(cfg, rest(i), es[1..][i]) {
        assert trail(i + 2) == Step(cfg, trail(i + 1), es[i + 1]);
      }
      Follow(cfg, rest, es[1..]);
    }
  }
}
