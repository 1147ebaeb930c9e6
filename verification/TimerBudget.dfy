/**
 The budget of a WaitTimer, under every interleaving and whoever has attached: when a wait may
 abort the process, how long it may sleep, and which calls have no budget at all.
 */
module TimerBudget {
  import opened Core
  import opened Protocol
  import TimerSafety

  /** The clock word never runs ahead of CLOCK_MONOTONIC. */
  predicate ClockInv(m: Mem, d: Dpc) {
    m.clock * NANOS_PER_MS <= m.now && (d.DPublish? ==> d.at <= m.now)
  }

  predicate CallInv(m: Mem, c: TimerCall) {
    c.clockAt * NANOS_PER_MS <= m.now
  }

  /** The call's three reads of time, in their order. */
  predicate WaitInv(m: Mem, wait: TimerWait) {
    wait.call.clockAt * NANOS_PER_MS <= wait.armedAt <= wait.readAt <= m.now
  }

  predicate ArmInv(m: Mem, a: ArmPc) {
    a.caller.TimerCaller? ==>
      && CallInv(m, a.caller.call)
      && (!a.ArmTime? ==> a.caller.call.clockAt * NANOS_PER_MS <= a.start <= m.now)
  }

  /** A sleeping wait has a finite timeout, and a budget. */
  predicate Sleeping(m: Mem, timeoutNs: U64, waiter: Waiter) {
    waiter.TimerWaiter? ==> WaitInv(m, waiter.wait) && timeoutNs > 0 && waiter.wait.call.ms >= 1
  }

  predicate TimerInv(m: Mem, t: TimerPc) {
    match t
    case TimerUntil(_) => true
    case TimerClock(_, _) => true
    case TimerLoad(c) => CallInv(m, c)
    case TimerCas(c, _) => CallInv(m, c)
    case TimerDeadline(c, armedAt) => c.clockAt * NANOS_PER_MS <= armedAt <= m.now
    case TimerClosed(wait) => WaitInv(m, wait)
    case TimerOpen(wait, _) => WaitInv(m, wait)
    case TimerExp(wait, _) => WaitInv(m, wait)
    case TimerTime(wait, _, _) => WaitInv(m, wait)
    case TimerDone(c, outcome) =>
      outcome.Aborted? ==> outcome.wait.call == c && WaitInv(m, outcome.wait) && outcome.wait.Deadline() <= m.now
  }

  predicate ClientInv(m: Mem, pc: Pc) {
    match pc
    case OnArm(a) => ArmInv(m, a)
    case Enter(_, _, timeoutNs, waiter) => Sleeping(m, timeoutNs, waiter)
    case Blocked(_, _, timeoutNs, waiter) => Sleeping(m, timeoutNs, waiter)
    case OnTimer(t) => TimerInv(m, t)
    case _ => true
  }

  ghost predicate Inv(s: State) {
    ClockInv(s.mem, s.daemon) && forall t | t in s.threads :: ClientInv(s.mem, s.threads[t])
  }

  lemma TimerKeeps(m: Mem, t: TimerPc, spurious: bool)
    requires m.clock * NANOS_PER_MS <= m.now && TimerInv(m, t)
    ensures var o := TimerStep(m, t, spurious); ClientInv(o.mem, o.pc)
  {
  }

  lemma ArmKeeps(m: Mem, a: ArmPc, spurious: bool)
    requires ArmInv(m, a)
    ensures var o := ArmStep(m, a, spurious); ClientInv(o.mem, o.pc)
  {
  }

  lemma ClientKeeps(cfg: Config, m: Mem, pc: Pc, ch: Choice)
    requires m.clock * NANOS_PER_MS <= m.now && ClientInv(m, pc)
    ensures var o := ClientStep(cfg, m, pc, ch); ClientInv(o.mem, o.pc) && o.mem.now == m.now && o.mem.clock == m.clock
  {
    if pc.OnTimer? {
      TimerKeeps(m, pc.timer, ch.spurious);
    } else if pc.OnArm? {
      ArmKeeps(m, pc.arm, ch.spurious);
    }
  }

  lemma Later(m: Mem, m': Mem, w: Option<Word>, pc: Pc)
    requires ClientInv(m, pc) && m.now <= m'.now
    ensures ClientInv(m', Wake(w, pc))
  {
  }

  lemma StepKeeps(cfg: Config, s: State, e: Event)
    requires Inv(s)
    ensures Inv(Step(cfg, s, e))
  {
    hide ClientStep, ClientInv;
    var s' := Step(cfg, s, e);
    if e.Client? {
      assert ClientInv(s.mem, PcOf(s, e.t)) by {
        IdleHolds(s.mem);
      }
      ClientKeeps(cfg, s.mem, PcOf(s, e.t), e.choice);
    }
    forall w, t | t in s.threads ensures ClientInv(s'.mem, Wake(w, s.threads[t])) {
      Later(s.mem, s'.mem, w, s.threads[t]);
    }
    forall t | t in s.threads ensures s.threads[t] == Wake(None, s.threads[t]) {}
  }

  lemma IdleHolds(m: Mem)
    ensures ClientInv(m, Idle)
  {
  }

  lemma InvAlways(cfg: Config, s: State, es: seq<Event>)
    requires Init(cfg, s)
    ensures Inv(Exec(cfg, s, es))
  {
    forall x, e | Inv(x) ensures Inv(Step(cfg, x, e)) {
      StepKeeps(cfg, x, e);
    }
    ExecKeeps(cfg, Inv, s, es);
  }

  /** The absolute deadline is twice ms after the call's own time read, saturating. */
  lemma DeadlineIsTwiceMs(wait: TimerWait)
    ensures var budget := 2 * wait.call.ms * NANOS_PER_MS;
            wait.Deadline() == if wait.readAt + budget < TWO64 then wait.readAt + budget else SENTINEL
  {
  }

  /**
   A thread aborts only at or after its absolute deadline, twice ms after the time the call
   itself read once it had armed; and no wait ever hands the kernel a zero timeout, which would
   sleep for ever.
   */
  lemma AbortOnlyAfterBudget(cfg: Config, s: State, es: seq<Event>, t: Tid)
    requires Init(cfg, s)
    ensures var m, pc := Exec(cfg, s, es).mem, PcOf(Exec(cfg, s, es), t);
            && (forall c, wait :: pc == OnTimer(TimerDone(c, Aborted(wait))) ==>
                  && wait.call == c && c.clockAt * NANOS_PER_MS <= wait.armedAt <= wait.readAt
                  && var due := wait.readAt + 2 * c.ms * NANOS_PER_MS;
                  && (if due < TWO64 then due else SENTINEL) <= m.now)
            && ((pc.Enter? || pc.Blocked?) && pc.waiter.TimerWaiter? ==> pc.timeoutNs > 0)
  {
    InvAlways(cfg, s, es);
    var x := Exec(cfg, s, es);
    var pc := PcOf(x, t);
    if pc.OnTimer? && pc.timer.TimerDone? && pc.timer.outcome.Aborted? {
      assert ClientInv(x.mem, x.threads[t]);
      DeadlineIsTwiceMs(pc.timer.outcome.wait);
    }
  }

  /**
   Which calls have no budget: those with ms == 0. Such a call never sleeps, and its first look
   at the time ends it, as Reaped when the expiration it loaded has passed and as an abort
   otherwise.
   */
  lemma ZeroWaitNeverSleeps(cfg: Config, s: State, es: seq<Event>, t: Tid, ch: Choice)
    requires Init(cfg, s)
    ensures var x := Exec(cfg, s, es);
            && ((PcOf(x, t).Enter? || PcOf(x, t).Blocked?) && PcOf(x, t).waiter.TimerWaiter? ==>
                  PcOf(x, t).waiter.wait.call.ms >= 1)
            && (PcOf(x, t).OnTimer? && PcOf(x, t).timer.TimerTime? && PcOf(x, t).timer.wait.call.ms == 0 ==>
                  var p := PcOf(x, t).timer;
                  PcOf(Step(cfg, x, Client(t, ch)), t)
                  == OnTimer(TimerDone(p.wait.call, if p.exp < x.mem.now then Reaped else Aborted(p.wait))))
  {
    InvAlways(cfg, s, es);
    var x := Exec(cfg, s, es);
    if t in x.threads {
      assert ClientInv(x.mem, x.threads[t]);
    }
  }

  // -- A wait for a timestamp already past --

  const PAST_CALL: TimerCall := TimerCall(0, 5, 6, 2)

  function FreshPast(): State {
    State(Mem(5, 5, 105_000_000, 5, 0, 6_000_000, [5], [5], [], []), map[], DIdle(true), [])
  }

  /** The clock moves to 6; then wait_until(5) finds a zero budget. */
  function PastPc(k: nat): Pc {
    var call := PAST_CALL;
    var wait := TimerWait(call, 6_000_000, 6_000_000);
    match k
    case 0 => Idle
    case 1 => OnTimer(TimerUntil(5))
    case 2 => OnTimer(TimerClock(0, 5))
    case 3 => OnTimer(TimerLoad(call))
    case 4 => OnTimer(TimerCas(call, 5))
    case 5 => OnArm(ArmTime(0, TimerCaller(call)))
    case 6 => OnArm(ArmLoad(6_000_000, 0, TimerCaller(call)))
    case 7 => OnTimer(TimerDeadline(call, 6_000_000))
    case 8 => OnTimer(TimerClosed(wait))
    case 9 => OnTimer(TimerOpen(wait, 5))
    case 10 => OnTimer(TimerExp(wait, 5))
    case 11 => OnTimer(TimerTime(wait, 5, 105_000_000))
    case _ => OnTimer(TimerDone(call, Aborted(wait)))
  }

  function PastMem(k: nat): Mem {
    var m := FreshPast().mem.(clock := 6, published := [5, 6]);
    if k < 5 then m else if k < 7 then m.(open := 6) else m.(open := 6, armed := [Arm(6_000_000, 0, 6_000_000)])
  }

  function PastTrail(k: nat): State {
    State(PastMem(k), if k == 0 then map[] else map[1 := PastPc(k)], DTtl(6_000_000), [])
  }

  const PAST_WAIT: Choice := Choice(OpTimerUntil(5), false, Interrupted)

  lemma PastAdvances(k: nat)
    requires k < 12
    ensures ClientStep(TimerSafety.TIMER, PastMem(k), PastPc(k), PAST_WAIT) == Goto(PastMem(k + 1), PastPc(k + 1))
  {
    assert PAST_CALL.Ttl() == 0 && PAST_CALL.Target() == 6;
    assert Arm(6_000_000, 0, 6_000_000).Deadline() == 6_000_000;
  }

  lemma PastTrailSteps(k: nat)
    requires k < 12
    ensures Step(TimerSafety.TIMER, PastTrail(k), Client(1, PAST_WAIT)) == PastTrail(k + 1)
  {
    var s := PastTrail(k);
    PastAdvances(k);
    ClientMoves(TimerSafety.TIMER, s, 1, PAST_WAIT);
    assert s.threads[1 := PastPc(k + 1)] == PastTrail(k + 1).threads;
  }

  function PublishTrail(k: nat): State {
    match k
    case 0 => FreshPast()
    case 1 => FreshPast().(daemon := DClock(true))
    case 2 => FreshPast().(daemon := DPublish(true, 6_000_000))
    case _ => PastTrail(0)
  }

  lemma PublishTrailSteps(k: nat)
    requires k < 3
    ensures Step(TimerSafety.TIMER, PublishTrail(k), GO) == PublishTrail(k + 1)
  {
    var s := PublishTrail(k);
    assert WakeAll(None, s.threads) == s.threads;
    assert [5 as U64] + [6] == [5, 6];
  }

  lemma PublishRun()
    ensures Exec(TimerSafety.TIMER, FreshPast(), seq(3, i => GO)) == PastTrail(0)
  {
    var es := seq(3, i => GO);
    forall i: nat | i < 3 ensures PublishTrail(i + 1) == Step(TimerSafety.TIMER, PublishTrail(i), es[i]) {
      PublishTrailSteps(i);
    }
    Follow(TimerSafety.TIMER, PublishTrail, es);
  }

  lemma PastRun()
    ensures Exec(TimerSafety.TIMER, PastTrail(0), seq(12, i => Client(1, PAST_WAIT))) == PastTrail(12)
  {
    var es := seq(12, i => Client(1, PAST_WAIT));
    forall i: nat | i < 12 ensures PastTrail(i + 1) == Step(TimerSafety.TIMER, PastTrail(i), es[i]) {
      PastTrailSteps(i);
    }
    Follow(TimerSafety.TIMER, PastTrail, es);
  }

  /**
   wait_until on a timestamp that is already past has ms == 0, hence no budget: in a reachable
   run with no further daemon step it aborts the process although the interlock is live and
   the clock has reached the timestamp.
   */
  lemma PastTimestampCanAbort() returns (es: seq<Event>)
    ensures Init(TimerSafety.TIMER, FreshPast())
    ensures var x := Exec(TimerSafety.TIMER, FreshPast(), es);
            && PcOf(x, 1) == OnTimer(TimerDone(PAST_CALL, Aborted(TimerWait(PAST_CALL, 6_000_000, 6_000_000))))
            && x.mem.clock > 5 && Judge(x.mem.open, x.mem.closed, x.mem.expiration, x.mem.now) != Reap
  {
    var first, second := seq(3, i => GO), seq(12, i => Client(1, PAST_WAIT));
    PublishRun();
    PastRun();
    es := first + second;
    ExecConcat(TimerSafety.TIMER, FreshPast(), first, second);
    ValuePositive(6, 5);
  }
}
