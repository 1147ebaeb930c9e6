/**
 A WaitTimer is never woken early and never by an old stamp, under every interleaving of
 the daemon, touch threads, the owner's free and any number of concurrent waits on the
 same timer.
 */
module TimerSafety {
  import opened Core
  import opened Protocol

  predicate IsTimer(cfg: Config) {
    cfg.tier == WaitTimer && !cfg.attachers
  }

  ghost predicate Sorted(p: seq<U64>) {
    forall i, j | 0 <= i <= j < |p| :: p[i] <= p[j]
  }

  /** The clock word is the last of a rising sequence; closed_count holds one of them or the marker. */
  ghost predicate MemInv(m: Mem) {
    && |m.published| > 0 && m.clock == m.published[|m.published| - 1] && Sorted(m.published)
    && m.clock * NANOS_PER_MS <= m.now
    && IsStamp(m, m.closed)
  }

  /** A published clock value, or the marker once open_count holds it too. */
  ghost predicate IsStamp(m: Mem, v: U64) {
    v in m.published || (v == SENTINEL && m.open == SENTINEL)
  }

  ghost predicate DaemonInv(m: Mem, d: Dpc) {
    match d
    case DPublish(_, at) => m.clock * NANOS_PER_MS <= at <= m.now
    case DTtl(at) => at / NANOS_PER_MS == m.clock
    case DOpen(at, _) => at / NANOS_PER_MS == m.clock
    case DClosed(at, _, _) => at / NANOS_PER_MS == m.clock
    case DExp(at, _, _, _) => at / NANOS_PER_MS == m.clock
    case DStamp(_, _, _, value) => value == m.clock
    case DReapClosed => m.open == SENTINEL
    case _ => true
  }

  /** clockAt is what the clock word held when `index` values had been published. */
  ghost predicate CallInv(m: Mem, c: TimerCall) {
    && 1 <= c.index <= |m.published| && c.clockAt == m.published[c.index - 1]
    && c.clockAt * NANOS_PER_MS <= m.now
    && c.until <= c.clockAt + c.ms
  }

  ghost predicate TargetSet(m: Mem, c: TimerCall) {
    CallInv(m, c) && c.Target() <= m.open
  }

  /** The arm of the call read the time at `armedAt`, and expiration_ns honours it. */
  ghost predicate Armed(m: Mem, c: TimerCall, armedAt: U64) {
    && TargetSet(m, c)
    && c.clockAt * NANOS_PER_MS <= armedAt <= m.now
    && Wrap(armedAt + c.Ttl()) <= m.expiration
  }

  ghost predicate WaitInv(m: Mem, wait: TimerWait) {
    Armed(m, wait.call, wait.armedAt)
  }

  ghost predicate ArmInv(m: Mem, a: ArmPc) {
    a.caller.TimerCaller? ==>
      && TargetSet(m, a.caller.call) && a.ttl == a.caller.call.Ttl()
      && (!a.ArmTime? ==> a.caller.call.clockAt * NANOS_PER_MS <= a.start <= m.now)
  }

  ghost predicate Sleeping(m: Mem, waiter: Waiter) {
    waiter.TimerWaiter? ==> WaitInv(m, waiter.wait)
  }

  ghost predicate TimerInv(m: Mem, t: TimerPc) {
    match t
    case TimerUntil(_) => true
    case TimerClock(ms, until) => until <= m.clock + ms
    case TimerLoad(c) => CallInv(m, c)
    case TimerCas(c, current) => CallInv(m, c) && current < c.Target()
    case TimerDeadline(c, armedAt) => Armed(m, c, armedAt)
    case TimerClosed(wait) => WaitInv(m, wait)
    case TimerOpen(wait, closed) => WaitInv(m, wait) && IsStamp(m, closed)
    case TimerExp(wait, _) => WaitInv(m, wait)
    case TimerTime(wait, _, _) => WaitInv(m, wait)
    case TimerDone(c, Delivered(v, _)) => CallInv(m, c) && IsStamp(m, v) && c.Target() <= v
    case TimerDone(_, Aborted(_)) => true
    case TimerDone(_, Reaped) => true
  }

  ghost predicate ClientInv(m: Mem, pc: Pc) {
    match pc
    case OnArm(a) => ArmInv(m, a)
    case Enter(_, _, _, waiter) => Sleeping(m, waiter)
    case Blocked(_, _, _, waiter) => Sleeping(m, waiter)
    case OnTimer(t) => TimerInv(m, t)
    case _ => true
  }

  ghost predicate Inv(cfg: Config, s: State) {
    && AllFit(cfg, s)
    && MemInv(s.mem) && DaemonInv(s.mem, s.daemon)
    && forall t | t in s.threads :: ClientInv(s.mem, s.threads[t])
  }

  // -- What every step may do to the memory others rely on --

  ghost predicate Grows(m: Mem, m': Mem) {
    && m.open <= m'.open && m.clock <= m'.clock
    && m.expiration <= m'.expiration && m.now <= m'.now
    && m.published <= m'.published
  }

  lemma StampStays(m: Mem, m': Mem, v: U64)
    requires Grows(m, m') && IsStamp(m, v)
    ensures IsStamp(m', v)
  {
    if v in m.published {
      var i :| 0 <= i < |m.published| && m.published[i] == v;
      assert m'.published[i] == v;
    }
  }

  lemma ClientStable(m: Mem, m': Mem, pc: Pc)
    requires ClientInv(m, pc) && Grows(m, m')
    ensures ClientInv(m', pc)
  {
    forall v | IsStamp(m, v) ensures IsStamp(m', v) {
      StampStays(m, m', v);
    }
  }

  lemma WakeStable(m: Mem, w: Option<Word>, pc: Pc)
    requires ClientInv(m, pc)
    ensures ClientInv(m, Wake(w, pc))
  {
  }

  // -- Steps --

  /** Up to the arm: the clock read and the compare-exchange loop. */
  lemma TargetKeeps(m: Mem, t: TimerPc, spurious: bool)
    requires MemInv(m) && TimerInv(m, t) && (t.TimerUntil? || t.TimerClock? || t.TimerLoad? || t.TimerCas?)
    ensures var o := TimerStep(m, t, spurious);
            && ClientInv(o.mem, o.pc) && Grows(m, o.mem)
            && o.mem == m.(open := o.mem.open) && (m.open == SENTINEL ==> o.mem.open == SENTINEL)
  {
  }

  /** From the deadline on: the wait loop only reads. */
  lemma LoopKeeps(m: Mem, t: TimerPc, spurious: bool)
    requires MemInv(m) && TimerInv(m, t) && !(t.TimerUntil? || t.TimerClock? || t.TimerLoad? || t.TimerCas?)
    ensures var o := TimerStep(m, t, spurious); ClientInv(m, o.pc) && o.mem == m
  {
  }

  lemma TimerKeeps(m: Mem, t: TimerPc, spurious: bool)
    requires MemInv(m) && TimerInv(m, t)
    ensures var o := TimerStep(m, t, spurious);
            && ClientInv(o.mem, o.pc) && Grows(m, o.mem)
            && o.mem == m.(open := o.mem.open) && (m.open == SENTINEL ==> o.mem.open == SENTINEL)
  {
    if t.TimerUntil? || t.TimerClock? || t.TimerLoad? || t.TimerCas? {
      TargetKeeps(m, t, spurious);
    } else {
      LoopKeeps(m, t, spurious);
    }
  }

  lemma ArmKeeps(m: Mem, a: ArmPc, spurious: bool)
    requires MemInv(m) && ArmInv(m, a)
    ensures var o := ArmStep(m, a, spurious);
            && ClientInv(o.mem, o.pc) && Grows(m, o.mem)
            && o.mem == m.(expiration := o.mem.expiration, armed := o.mem.armed)
  {
  }

  lemma ClientKeeps(cfg: Config, m: Mem, pc: Pc, ch: Choice)
    requires IsTimer(cfg) && Fits(cfg, pc) && MemInv(m) && ClientInv(m, pc)
    ensures var o := ClientStep(cfg, m, pc, ch);
            && MemInv(o.mem) && ClientInv(o.mem, o.pc) && Grows(m, o.mem)
            && o.mem == m.(open := o.mem.open, expiration := o.mem.expiration, armed := o.mem.armed)
  {
    hide CounterStep, CronStep, BarrierStep, TimerStep, ArmStep;
    match pc
    case OnTimer(t) => TimerKeeps(m, t, ch.spurious);
    case OnArm(a) => ArmKeeps(m, a, ch.spurious);
    case _ =>
  }

  lemma DaemonKeeps(cfg: Config, m: Mem, d: Dpc, ch: DChoice)
    requires IsTimer(cfg) && FitsDaemon(cfg, d) && MemInv(m) && DaemonInv(m, d)
    ensures var o := DaemonStep(cfg, m, d, ch);
            MemInv(o.mem) && DaemonInv(o.mem, o.daemon) && Grows(m, o.mem)
  {
    var o := DaemonStep(cfg, m, d, ch);
    if d.DPublish? {
      var ms := d.at / NANOS_PER_MS;
      assert o.mem.published[|m.published|] == ms;
      StampStays(m, o.mem, m.closed);
    }
  }

  lemma StepKeeps(cfg: Config, s: State, e: Event)
    requires IsTimer(cfg) && Inv(cfg, s)
    ensures Inv(cfg, Step(cfg, s, e))
  {
    StepFits(cfg, s, e);
    ActorKeeps(cfg, s, e);
    OthersKeep(cfg, s, e);
  }

  /** The part of a step that concerns the memory and the thread that moves. */
  lemma ActorKeeps(cfg: Config, s: State, e: Event)
    requires IsTimer(cfg) && Inv(cfg, s)
    ensures var s' := Step(cfg, s, e);
            && MemInv(s'.mem) && DaemonInv(s'.mem, s'.daemon) && Grows(s.mem, s'.mem)
            && (e.Client? ==> ClientInv(s'.mem, s'.threads[e.t]))
  {
    match e
    case Client(t, ch) => ClientKeeps(cfg, s.mem, PcOf(s, t), ch);
    case Daemon(ch) => DaemonKeeps(cfg, s.mem, s.daemon, ch);
    case _ =>
  }

  lemma OthersKeep(cfg: Config, s: State, e: Event)
    requires Inv(cfg, s) && Grows(s.mem, Step(cfg, s, e).mem)
    ensures forall t | t in s.threads && !(e.Client? && e.t == t) ::
              ClientInv(Step(cfg, s, e).mem, Step(cfg, s, e).threads[t])
  {
    var s' := Step(cfg, s, e);
    forall t | t in s.threads && !(e.Client? && e.t == t) ensures ClientInv(s'.mem, s'.threads[t]) {
      ClientStable(s.mem, s'.mem, s.threads[t]);
      forall w ensures ClientInv(s'.mem, Wake(w, s.threads[t])) {
        WakeStable(s'.mem, w, s.threads[t]);
      }
    }
  }

  lemma InvAlways(cfg: Config, s: State, es: seq<Event>)
    requires IsTimer(cfg) && Init(cfg, s)
    ensures Inv(cfg, Exec(cfg, s, es))
  {
    assert s.mem.closed == s.mem.published[0];
    var inv := (x: State) => Inv(cfg, x);
    forall x, e | inv(x) ensures inv(Step(cfg, x, e)) {
      StepKeeps(cfg, x, e);
    }
    ExecKeeps(cfg, inv, s, es);
  }

  // -- The theorem --

  function DoneWith(s: State, t: Tid): Option<(TimerCall, U64)> {
    match PcOf(s, t)
    case OnTimer(TimerDone(call, Delivered(v, _))) => Some((call, v))
    case _ => None
  }

  /** What a call is promised of the value it returns. */
  ghost predicate OnTime(m: Mem, call: TimerCall, v: U64) {
    && call.index <= |m.published|
    && (v == SENTINEL ==> m.open == SENTINEL)
    && (v != SENTINEL ==> (call.clockAt + call.ms <= v <==> call.clockAt + call.ms < TWO64))
    && (v != SENTINEL && call.clockAt + call.ms < TWO64 ==>
          && call.until <= v
          && (call.ms >= 1 ==> v in m.published[call.index..] && v !in m.published[..call.index]))
  }

  /**
   A wait that returns Ok without the reap marker returns a value no earlier than its clock
   read plus ms if and only if that sum does not wrap; it is then no earlier than the timestamp
   either, for the absolute form. For ms >= 1 that value was published by the daemon after the call's clock read. The
   marker is only ever returned once the interlock has been reaped.
   */
  lemma TimerNeverEarly(cfg: Config, s: State, es: seq<Event>, t: Tid)
    requires IsTimer(cfg) && Init(cfg, s)
    requires DoneWith(Exec(cfg, s, es), t).Some?
    ensures var (call, v) := DoneWith(Exec(cfg, s, es), t).value; OnTime(Exec(cfg, s, es).mem, call, v)
  {
    hide Exec, Init, DaemonInv, AllFit;
    InvAlways(cfg, s, es);
    var x := Exec(cfg, s, es);
    var (call, v) := DoneWith(x, t).value;
    var p := x.mem.published;
    assert ClientInv(x.mem, x.threads[t]);
    if v == SENTINEL && v in p {
      PublishedBounded(x.mem, v);
    }
    if v != SENTINEL && call.clockAt + call.ms < TWO64 && call.ms >= 1 {
      var i :| 0 <= i < |p| && p[i] == v;
      forall j | 0 <= j < call.index ensures p[j] < v {
        assert p[j] <= p[call.index - 1];
      }
      assert p[call.index..][i - call.index] == v;
    }
  }

  lemma PublishedBounded(m: Mem, v: U64)
    requires MemInv(m) && v in m.published
    ensures v <= MAX_MS
  {
    var i :| 0 <= i < |m.published| && m.published[i] == v;
    assert m.published[i] <= m.published[|m.published| - 1];
  }

  // -- The hypothesis is needed --

  const TIMER: Config := Config(WaitTimer, 1, false)

  /** wait_ms(u64::MAX), alone: the target wraps to 4, below the timer's initial words. */
  function WrapPc(k: nat): Pc {
    var call := TimerCall(SENTINEL, 0, 5, 1);
    var wait := TimerWait(call, 5_000_000, 5_000_000);
    match k
    case 0 => Idle
    case 1 => OnTimer(TimerClock(SENTINEL, 0))
    case 2 => OnTimer(TimerLoad(call))
    case 3 => OnArm(ArmTime(SENTINEL, TimerCaller(call)))
    case 4 => OnArm(ArmLoad(5_000_000, SENTINEL, TimerCaller(call)))
    case 5 => OnTimer(TimerDeadline(call, 5_000_000))
    case 6 => OnTimer(TimerClosed(wait))
    case 7 => OnTimer(TimerOpen(wait, 5))
    case _ => OnTimer(TimerDone(call, Delivered(5, Normal)))
  }

  function WrapMem(k: nat): Mem {
    if k < 5 then FreshTimer().mem else FreshTimer().mem.(armed := [Arm(5_000_000, SENTINEL, 5_000_000)])
  }

  function WrapTrail(k: nat): State {
    FreshTimer().(mem := WrapMem(k), threads := if k == 0 then map[] else map[1 := WrapPc(k)])
  }

  const LONG_WAIT: Choice := Choice(OpTimer(SENTINEL), false, Interrupted)

  lemma WrapAdvances(k: nat)
    requires k < 8
    ensures ClientStep(TIMER, WrapMem(k), WrapPc(k), LONG_WAIT) == Goto(WrapMem(k + 1), WrapPc(k + 1))
  {
    assert TimerCall(SENTINEL, 0, 5, 1).Ttl() == SENTINEL && TimerCall(SENTINEL, 0, 5, 1).Target() == 4;
    assert Arm(5_000_000, SENTINEL, 5_000_000).Deadline() == 4_999_999;
  }

  lemma WrapTrailSteps(k: nat)
    requires k < 8
    ensures Step(TIMER, WrapTrail(k), Client(1, LONG_WAIT)) == WrapTrail(k + 1)
  {
    var s := WrapTrail(k);
    WrapAdvances(k);
    ClientMoves(TIMER, s, 1, LONG_WAIT);
    assert s.threads[1 := WrapPc(k + 1)] == WrapTrail(k + 1).threads;
  }

  /**
   When clockAt + ms wraps, the wait can return Ok at once with the creation stamp: no daemon
   step at all, and nothing published since its clock read.
   */
  lemma WrappedTargetReturnsAtOnce() returns (es: seq<Event>)
    ensures Init(TIMER, FreshTimer()) && forall e | e in es :: e.Client?
    ensures var x := Exec(TIMER, FreshTimer(), es);
            && DoneWith(x, 1).Some?
            && var (call, v) := DoneWith(x, 1).value;
            && v == call.clockAt < call.clockAt + call.ms && |x.mem.published| == call.index
  {
    es := seq(8, i => Client(1, LONG_WAIT));
    forall i: nat | i < 8 ensures WrapTrail(i + 1) == Step(TIMER, WrapTrail(i), es[i]) {
      WrapTrailSteps(i);
    }
    Follow(TIMER, WrapTrail, es);
  }
}
