/**
 The budget of a WaitCounter, under every interleaving and whoever has attached: how far it arms,
 how long it sleeps, and when it returns Timeout.
 */
module CounterBudget {
  import opened Core
  import opened Protocol
  import opened OneCall
  import Lattice

  /** Twice the timeout, as far as a u64 goes. */
  function Twice(timeoutNs: U64): U64 {
    if timeoutNs < 0x8000_0000_0000_0000 then 2 * timeoutNs else 0xFFFF_FFFF_FFFF_FFFF
  }

  ghost predicate ArmedFor(m: Mem, c: CounterCall) {
    exists i :: 0 <= i < |m.armed| && m.armed[i].ttl == Twice(c.timeoutNs)
  }

  predicate CanTimeOut(c: CounterCall, timedOut: bool) {
    timedOut ==> c.timeoutNs >= 1
  }

  ghost predicate CounterInv(m: Mem, p: CounterPc) {
    match p
    case CounterLoad(_) => true
    case CounterCas(_, _) => true
    case CounterClosed(c) => ArmedFor(m, c)
    case CounterOpen(c, _) => ArmedFor(m, c)
    case CounterClosed2(c, timedOut) => ArmedFor(m, c) && CanTimeOut(c, timedOut)
    case CounterOpen2(c, timedOut, _) => ArmedFor(m, c) && CanTimeOut(c, timedOut)
    case CounterExp2(c, timedOut, _) => ArmedFor(m, c) && CanTimeOut(c, timedOut)
    case CounterDone(c, outcome) =>
      outcome.Delivered? ==> ArmedFor(m, c) && CanTimeOut(c, outcome.state.Timeout?)
  }

  ghost predicate Sleeping(m: Mem, timeoutNs: U64, waiter: Waiter) {
    waiter.CounterWaiter? ==> ArmedFor(m, waiter.counter) && timeoutNs == waiter.counter.timeoutNs
  }

  ghost predicate ClientInv(m: Mem, pc: Pc) {
    match pc
    case OnArm(a) => a.caller.CounterCaller? ==> a.ttl == Twice(a.caller.counter.timeoutNs)
    case Enter(_, _, timeoutNs, waiter) => Sleeping(m, timeoutNs, waiter)
    case Blocked(_, _, timeoutNs, waiter) => Sleeping(m, timeoutNs, waiter)
    case OnCounter(p) => CounterInv(m, p)
    case _ => true
  }

  ghost predicate Inv(s: State) {
    forall t | t in s.threads :: ClientInv(s.mem, s.threads[t])
  }

  lemma ArmKeeps(m: Mem, a: ArmPc, spurious: bool)
    requires ClientInv(m, OnArm(a))
    ensures var o := ArmStep(m, a, spurious); ClientInv(o.mem, o.pc) && m.armed <= o.mem.armed
  {
    var o := ArmStep(m, a, spurious);
    if |o.mem.armed| > |m.armed| {
      assert o.mem.armed[|m.armed|].ttl == a.ttl;
    }
  }

  lemma CounterKeeps(m: Mem, p: CounterPc, spurious: bool)
    requires CounterInv(m, p)
    ensures var o := CounterStep(m, p, spurious); ClientInv(o.mem, o.pc) && o.mem.armed == m.armed
  {
    hide ArmedFor;
  }

  lemma ClientKeeps(cfg: Config, m: Mem, pc: Pc, ch: Choice)
    requires ClientInv(m, pc)
    ensures var o := ClientStep(cfg, m, pc, ch); ClientInv(o.mem, o.pc) && m.armed <= o.mem.armed
  {
    hide ArmedFor, ArmStep, CounterStep;
    if pc.OnArm? {
      ArmKeeps(m, pc.arm, ch.spurious);
    } else if pc.OnCounter? {
      CounterKeeps(m, pc.counterPc, ch.spurious);
    }
  }

  lemma Later(m: Mem, m': Mem, w: Option<Word>, pc: Pc)
    requires ClientInv(m, pc) && m.armed <= m'.armed
    ensures ClientInv(m', Wake(w, pc))
  {
    forall c | ArmedFor(m, c) ensures ArmedFor(m', c) {
      var i :| 0 <= i < |m.armed| && m.armed[i].ttl == Twice(c.timeoutNs);
      assert m'.armed[i].ttl == Twice(c.timeoutNs);
    }
  }

  lemma StepKeeps(cfg: Config, s: State, e: Event)
    requires Inv(s)
    ensures Inv(Step(cfg, s, e))
  {
    hide ClientStep, ClientInv;
    var s' := Step(cfg, s, e);
    if e.Client? {
      assert ClientInv(s.mem, PcOf(s, e.t)) by {
        IdleHolds(s.mem);
      }
      ClientKeeps(cfg, s.mem, PcOf(s, e.t), e.choice);
    }
    forall w, t | t in s.threads ensures ClientInv(s'.mem, Wake(w, s.threads[t])) {
      Later(s.mem, s'.mem, w, s.threads[t]);
    }
    forall t | t in s.threads ensures s.threads[t] == Wake(None, s.threads[t]) {}
  }

  lemma IdleHolds(m: Mem)
    ensures ClientInv(m, Idle)
  {
  }

  /** A call that has armed: in its loop, asleep, or done with a value. */
  function Waiting(pc: Pc): Option<CounterCall> {
    match pc
    case Enter(_, _, _, CounterWaiter(c)) => Some(c)
    case Blocked(_, _, _, CounterWaiter(c)) => Some(c)
    case OnCounter(CounterClosed(c)) => Some(c)
    case OnCounter(CounterOpen(c, _)) => Some(c)
    case OnCounter(CounterClosed2(c, _)) => Some(c)
    case OnCounter(CounterOpen2(c, _, _)) => Some(c)
    case OnCounter(CounterExp2(c, _, _)) => Some(c)
    case OnCounter(CounterDone(c, Delivered(_, _))) => Some(c)
    case _ => None
  }

  predicate SaysTimeout(pc: Pc) {
    pc.OnCounter? && pc.counterPc.CounterDone? && pc.counterPc.outcome.Delivered?
    && pc.counterPc.outcome.state.Timeout?
  }

  /**
   A call that waits or has returned a value has armed for twice its timeout, and expiration_ns honours
   that; one with timeout 0 never returns Timeout.
   */
  lemma ArmsTwiceTheTimeout(cfg: Config, s: State, es: seq<Event>, t: Tid)
    requires Init(cfg, s) && Waiting(PcOf(Exec(cfg, s, es), t)).Some?
    ensures var x := Exec(cfg, s, es);
            var (pc, c) := (PcOf(x, t), Waiting(PcOf(x, t)).value);
            && (exists i :: 0 <= i < |x.mem.armed| && x.mem.armed[i].ttl == Twice(c.timeoutNs)
                            && x.mem.armed[i].Deadline() <= x.mem.expiration)
            && (SaysTimeout(pc) ==> c.timeoutNs >= 1)
  {
    forall x, e | Inv(x) ensures Inv(Step(cfg, x, e)) {
      StepKeeps(cfg, x, e);
    }
    ExecKeeps(cfg, Inv, s, es);
    StillHonoured(cfg, s, es);
    hide Exec, Init, ClientInv, SaysTimeout, Twice;
    var x := Exec(cfg, s, es);
    var c := Waiting(PcOf(x, t)).value;
    assert t in x.threads;
    hide Waiting;
    assert ClientInv(x.mem, x.threads[t]);
    WaitingHasArmed(x.mem, PcOf(x, t), c);
    var i :| 0 <= i < |x.mem.armed| && x.mem.armed[i].ttl == Twice(c.timeoutNs);
    assert x.mem.armed[i].Deadline() <= x.mem.expiration;
  }

  lemma WaitingHasArmed(m: Mem, pc: Pc, c: CounterCall)
    requires ClientInv(m, pc) && Waiting(pc) == Some(c)
    ensures ArmedFor(m, c) && (SaysTimeout(pc) ==> c.timeoutNs >= 1)
  {
    hide ArmedFor;
  }

  lemma StillHonoured(cfg: Config, s: State, es: seq<Event>)
    requires Init(cfg, s)
    ensures var m := Exec(cfg, s, es).mem; forall i | 0 <= i < |m.armed| :: m.armed[i].Deadline() <= m.expiration
  {
    Lattice.ArmsHonoured(cfg, s, es, []);
    assert Exec(cfg, Exec(cfg, s, es), []) == Exec(cfg, s, es);
  }

  // -- Timeout, and only then --

  /** A live interlock whose closed_count is below a bound that open_count has reached. */
  predicate Unmet(m: Mem, bound: U64) {
    m.closed < bound <= m.open && m.expiration < SENTINEL
  }

  /** Behind a sleep that timed out, on the way to Timeout. */
  predicate TimingOut(pc: Pc, c: CounterCall, bound: U64) {
    match pc
    case OnCounter(CounterClosed2(c', timedOut)) => c' == c && timedOut
    case OnCounter(CounterOpen2(c', timedOut, v)) => c' == c && timedOut && v < bound
    case OnCounter(CounterExp2(c', timedOut, v)) => c' == c && timedOut && v < bound
    case OnCounter(CounterDone(c', Delivered(v, Timeout))) => c' == c && v < bound
    case _ => false
  }

  function Left(pc: Pc): nat {
    match pc
    case OnCounter(CounterClosed2(_, _)) => 3
    case OnCounter(CounterOpen2(_, _, _)) => 2
    case OnCounter(CounterExp2(_, _, _)) => 1
    case _ => 0
  }

  lemma TimingOutStep(cfg: Config, m: Mem, pc: Pc, ch: Choice, w: Option<Word>, c: CounterCall, bound: U64)
    requires TimingOut(pc, c, bound)
    ensures Wake(w, pc) == pc && (Left(pc) == 0 ==> SaysTimeout(pc))
    ensures Unmet(m, bound) && !BetweenCalls(pc) ==>
              var pc' := ClientStep(cfg, m, pc, ch).pc; TimingOut(pc', c, bound) && Left(pc') < Left(pc)
  {
  }

  /**
   A wait whose sleep timed out while the target stays ahead and the interlock is not terminated returns
   Timeout within three own steps, with the closed_count it loaded last.
   */
  lemma TimedOutSaysSo(cfg: Config, s: State, es: seq<Event>, t: Tid, c: CounterCall, bound: U64)
    requires PcOf(s, t) == OnCounter(CounterClosed2(c, true))
    requires Along(cfg, s, es, (x, e) => ThisCallOnly(t, x, e) && Unmet(x.mem, bound))
    ensures var pc := PcOf(Exec(cfg, s, es), t);
            && TimingOut(pc, c, bound)
            && (StepsTaken(t, es) >= 3 ==> SaysTimeout(pc))
  {
    hide Step, ClientStep, TimingOut, Unmet, Exec, Along, Wake, SaysTimeout;
    var rule := (x: State, e) => ThisCallOnly(t, x, e) && Unmet(x.mem, bound);
    var keep := (pc: Pc) => TimingOut(pc, c, bound);
    forall x: State, e | keep(PcOf(x, t)) && rule(x, e)
      ensures keep(PcOf(Step(cfg, x, e), t))
      ensures Left(PcOf(Step(cfg, x, e), t)) + (if IsOwn(t, e) then 1 else 0) <= Left(PcOf(x, t))
    {
      var w := NextPc(cfg, t, x, e);
      var ch := if e.Client? then e.choice else Choice(OpCron, false, Interrupted);
      TimingOutStep(cfg, x.mem, PcOf(x, t), ch, w, c, bound);
    }
    assert TimingOut(PcOf(s, t), c, bound) by {
      StartsTimingOut(c, bound);
    }
    KeepsAndEnds(cfg, t, s, es, rule, keep, Left);
    TimingOutStep(cfg, s.mem, PcOf(Exec(cfg, s, es), t), Choice(OpCron, false, Interrupted), None, c, bound);
  }

  lemma StartsTimingOut(c: CounterCall, bound: U64)
    ensures TimingOut(OnCounter(CounterClosed2(c, true)), c, bound)
  {
  }

  /** From its sleep on: a wait whose futex_wait times out, as only one with a timeout can, does so in four. */
  lemma SleepTimesOut(cfg: Config, s: State, es: seq<Event>, t: Tid, bound: U64)
    requires PcOf(s, t).Blocked? && PcOf(s, t).waiter.CounterWaiter? && PcOf(s, t).timeoutNs > 0
    requires es != [] && IsOwn(t, es[0]) && es[0].choice.early.TimedOut?
    requires Along(cfg, s, es, (x, e) => ThisCallOnly(t, x, e) && Unmet(x.mem, bound))
    ensures var pc := PcOf(Exec(cfg, s, es), t);
            && TimingOut(pc, PcOf(s, t).waiter.counter, bound)
            && (StepsTaken(t, es) >= 4 ==> SaysTimeout(pc))
  {
    var c := PcOf(s, t).waiter.counter;
    assert ClientStep(cfg, s.mem, PcOf(s, t), es[0].choice).pc == OnCounter(CounterClosed2(c, true));
    hide ClientStep, Unmet, TimingOut, SaysTimeout;
    TimedOutSaysSo(cfg, Step(cfg, s, es[0]), es[1..], t, c, bound);
  }

  /** In the loop, and no sleep has timed out. */
  predicate WaitingOn(pc: Pc, c: CounterCall, bound: U64) {
    match pc
    case Enter(_, loaded, _, waiter) => waiter == CounterWaiter(c) && loaded < bound
    case Blocked(_, loaded, _, waiter) => waiter == CounterWaiter(c) && loaded < bound
    case OnCounter(CounterClosed(c')) => c' == c
    case OnCounter(CounterOpen(c', v)) => c' == c && v < bound
    case OnCounter(CounterClosed2(c', timedOut)) => c' == c && !timedOut
    case OnCounter(CounterOpen2(c', timedOut, v)) => c' == c && !timedOut && v < bound
    case OnCounter(CounterExp2(c', timedOut, v)) => c' == c && !timedOut && v < bound
    case _ => false
  }

  predicate NoTimeout(t: Tid, e: Event) {
    IsOwn(t, e) ==> e.choice.early.Interrupted?
  }

  lemma WaitingOnStep(cfg: Config, m: Mem, pc: Pc, ch: Choice, w: Option<Word>, c: CounterCall, bound: U64)
    requires WaitingOn(pc, c, bound)
    ensures WaitingOn(Wake(w, pc), c, bound)
    ensures Unmet(m, bound) && ch.early.Interrupted? ==> WaitingOn(ClientStep(cfg, m, pc, ch).pc, c, bound)
  {
  }

  /** Woken or interrupted but never timed out, it waits on while the target stays ahead. */
  lemma OtherwiseWaitsOn(cfg: Config, s: State, es: seq<Event>, t: Tid, c: CounterCall, bound: U64)
    requires PcOf(s, t) == OnCounter(CounterClosed(c)) || PcOf(s, t) == OnCounter(CounterClosed2(c, false))
    requires Along(cfg, s, es, (x: State, e) => NoTimeout(t, e) && Unmet(x.mem, bound))
    ensures WaitingOn(PcOf(Exec(cfg, s, es), t), c, bound)
  {
    assert WaitingOn(PcOf(s, t), c, bound);
    hide Step, ClientStep, WaitingOn, Unmet, Exec, Along, Wake;
    var rule := (x: State, e) => NoTimeout(t, e) && Unmet(x.mem, bound);
    var inv := (x: State) => WaitingOn(PcOf(x, t), c, bound);
    forall x: State, e | inv(x) && rule(x, e) ensures inv(Step(cfg, x, e)) {
      var w := NextPc(cfg, t, x, e);
      var ch := if e.Client? then e.choice else Choice(OpCron, false, Interrupted);
      WaitingOnStep(cfg, x.mem, PcOf(x, t), ch, w, c, bound);
    }
    AlongKeeps(cfg, inv, s, es, rule);
  }
}
