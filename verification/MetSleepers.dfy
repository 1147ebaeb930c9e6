/**
 A thread asleep although what it waits for has happened, on an interlock nobody has attached to: a wake
 is on its way, because each wait sleeps only on a value it has judged unmet. The one exception is a word
 that has moved by an exact multiple of 2^32.
 */
module MetSleepers {
  import opened Core
  import opened Protocol
  import Lattice
  import Stamps
  import Wakeups

  /** A loaded closed_count is behind the target, at most the cron's start value, or a barrier's zero. */
  predicate Judged(m: Mem, waiter: Waiter, word: Word, loaded: U64) {
    match waiter
    case WordWaiter(on, target) => on == word && loaded < target
    case TimerWaiter(_) => loaded < m.open
    case CounterWaiter(_) => loaded < m.open
    case CronWaiter(initial) => loaded <= initial
    case BarrierWaiter => loaded == 0
  }

  predicate ClientInv(m: Mem, pc: Pc) {
    match pc
    case Enter(word, loaded, _, waiter) => Judged(m, waiter, word, loaded)
    case Blocked(word, loaded, _, waiter) => Judged(m, waiter, word, loaded)
    case OnTimer(TimerExp(_, closed)) => closed < m.open
    case OnTimer(TimerTime(_, closed, _)) => closed < m.open
    case OnCron(CronExp(initial, closed)) => closed <= initial
    case OnCron(CronTime(initial, closed, _)) => closed <= initial
    case OnBarrier(BarrierOpen(closed)) => closed <= MAX_MS || closed == SENTINEL
    case OnBarrier(BarrierExp(closed, open)) => closed == 0 || closed == SENTINEL || open == SENTINEL
    case _ => true
  }

  /** What a barrier's words can hold. */
  predicate BarrierInv(cfg: Config, m: Mem, d: Dpc) {
    cfg.tier == WaitBarrier ==>
      && (m.open == 1 || m.open == SENTINEL)
      && (m.closed <= MAX_MS || m.closed == SENTINEL)
      && (d.DStamp? ==> d.value <= MAX_MS)
  }

  ghost predicate Inv(cfg: Config, s: State) {
    && AllFit(cfg, s) && Lattice.CasInv(s)
    && BarrierInv(cfg, s.mem, s.daemon)
    && forall t | t in s.threads :: ClientInv(s.mem, s.threads[t])
  }

  /** open_count does not fall under a timer or counter. */
  predicate Grows(cfg: Config, m: Mem, m': Mem) {
    cfg.tier == WaitTimer || cfg.tier == WaitCounter ==> m.open <= m'.open
  }

  lemma ClientStable(cfg: Config, m: Mem, m': Mem, w: Option<Word>, pc: Pc)
    requires Fits(cfg, pc) && ClientInv(m, pc) && Grows(cfg, m, m')
    ensures ClientInv(m', Wake(w, pc))
  {
  }

  lemma BarrierKeeps(m: Mem, b: BarrierPc)
    requires (m.open == 1 || m.open == SENTINEL) && (m.closed <= MAX_MS || m.closed == SENTINEL)
    requires ClientInv(m, OnBarrier(b))
    ensures ClientInv(m, BarrierStep(m, b).pc)
  {
    if b.BarrierOpen? {
      ValuePositive(m.open, b.closed);
    }
  }

  lemma TargetKeeps(cfg: Config, m: Mem, pc: Pc, ch: Choice)
    requires !cfg.attachers && Fits(cfg, pc) && Lattice.CasRaises(pc) && ClientInv(m, pc)
    requires pc.OnTimer? || pc.OnCounter?
    ensures var o := ClientStep(cfg, m, pc, ch); ClientInv(o.mem, o.pc) && Grows(cfg, m, o.mem)
  {
    hide ArmStep, WordStep, CronStep, BarrierStep;
  }

  lemma OtherKeeps(cfg: Config, m: Mem, pc: Pc, ch: Choice)
    requires ClientInv(m, pc) && (pc.OnArm? || pc.OnWord? || pc.OnCron?)
    ensures var o := ClientStep(cfg, m, pc, ch);
            ClientInv(o.mem, o.pc) && o.mem.open == m.open && o.mem.closed == m.closed
  {
    hide TimerStep, CounterStep, BarrierStep;
  }

  lemma ClientKeeps(cfg: Config, m: Mem, d: Dpc, pc: Pc, ch: Choice)
    requires !cfg.attachers && Fits(cfg, pc) && Lattice.CasRaises(pc)
    requires BarrierInv(cfg, m, d) && ClientInv(m, pc)
    ensures var o := ClientStep(cfg, m, pc, ch);
            ClientInv(o.mem, o.pc) && Grows(cfg, m, o.mem) && BarrierInv(cfg, o.mem, d)
  {
    hide ArmStep, WordStep, TimerStep, CounterStep, CronStep, BarrierStep;
    if pc.OnTimer? || pc.OnCounter? {
      TargetKeeps(cfg, m, pc, ch);
    } else if pc.OnArm? || pc.OnWord? || pc.OnCron? {
      OtherKeeps(cfg, m, pc, ch);
    } else if pc.OnBarrier? {
      BarrierKeeps(m, pc.barrier);
      BarrierLeaves(m, pc.barrier);
    }
  }

  lemma BarrierLeaves(m: Mem, b: BarrierPc)
    ensures BarrierStep(m, b).mem == m
  {
  }

  lemma DaemonKeeps(cfg: Config, m: Mem, d: Dpc, ch: DChoice)
    requires FitsDaemon(cfg, d) && BarrierInv(cfg, m, d)
    ensures var o := DaemonStep(cfg, m, d, ch); Grows(cfg, m, o.mem) && BarrierInv(cfg, o.mem, o.daemon)
  {
    if d.DBarrier? {
      MsBound(d.at);
    }
  }

  lemma StepKeeps(cfg: Config, s: State, e: Event)
    requires !cfg.attachers && Inv(cfg, s)
    ensures Inv(cfg, Step(cfg, s, e))
  {
    hide ClientStep, DaemonStep, ClientInv, BarrierInv, Fits, FitsDaemon, Lattice.CasRaises;
    StepFits(cfg, s, e);
    Lattice.CasStep(cfg, s, e);
    IdleHolds(cfg, s.mem);
    var s' := Step(cfg, s, e);
    match e {
      case Client(t, ch) => ClientKeeps(cfg, s.mem, s.daemon, PcOf(s, t), ch);
      case Daemon(ch) => DaemonKeeps(cfg, s.mem, s.daemon, ch);
      case _ => SameBarrier(cfg, s.mem, s'.mem, s.daemon);
    }
    forall w, t | t in s.threads ensures ClientInv(s'.mem, Wake(w, s.threads[t])) {
      ClientStable(cfg, s.mem, s'.mem, w, s.threads[t]);
    }
    forall t | t in s.threads ensures s.threads[t] == Wake(None, s.threads[t]) {}
  }

  lemma SameBarrier(cfg: Config, m: Mem, m': Mem, d: Dpc)
    requires BarrierInv(cfg, m, d) && m'.open == m.open && m'.closed == m.closed
    ensures BarrierInv(cfg, m', d)
  {
  }

  lemma IdleHolds(cfg: Config, m: Mem)
    ensures Fits(cfg, Idle) && Lattice.CasRaises(Idle) && ClientInv(m, Idle)
  {
  }

  lemma InvAlways(cfg: Config, s: State, es: seq<Event>)
    requires !cfg.attachers && Init(cfg, s)
    ensures Inv(cfg, Exec(cfg, s, es))
  {
    var inv := (x: State) => Inv(cfg, x);
    forall x, e | inv(x) ensures inv(Step(cfg, x, e)) {
      StepKeeps(cfg, x, e);
    }
    ExecKeeps(cfg, inv, s, es);
  }

  /** What the thread waits for has happened. */
  predicate Met(m: Mem, waiter: Waiter) {
    match waiter
    case WordWaiter(word, target) => target <= Get(m, word)
    case TimerWaiter(_) => m.open <= m.closed
    case CounterWaiter(_) => m.open <= m.closed
    case CronWaiter(initial) => initial < m.closed
    case BarrierWaiter => 1 <= m.closed
  }

  /**
   Nobody attached: in every reachable state, whoever is asleep although its word has reached its target,
   its counters are met, its cron has fired or its barrier has been stamped, has a wake on its way; unless the
   word is an exact multiple of 2^32 above the value it fell asleep on.
   */
  lemma MetSleeperIsWoken(cfg: Config, s: State, es: seq<Event>, t: Tid)
    requires !cfg.attachers && Init(cfg, s)
    ensures var x := Exec(cfg, s, es);
            var pc := PcOf(x, t);
            pc.Blocked? && Met(x.mem, pc.waiter) ==>
              && pc.loaded < Get(x.mem, pc.word)
              && ((Get(x.mem, pc.word) - pc.loaded) % TWO32 != 0 ==> Wakeups.WakeOnItsWay(cfg, x, t, pc.word))
  {
    InvAlways(cfg, s, es);
    hide Exec, Init, AllFit, Wakeups.WakeOnItsWay;
    var x := Exec(cfg, s, es);
    var pc := PcOf(x, t);
    if pc.Blocked? && Met(x.mem, pc.waiter) {
      assert ClientInv(x.mem, x.threads[t]);
      assert Fits(cfg, x.threads[t]) by {
        AllFitOf(cfg, x, t);
      }
      Wakeups.NoLostWakeup(cfg, s, es, t, pc.word);
      LowHalves(pc.loaded, Get(x.mem, pc.word));
    }
  }

  lemma AllFitOf(cfg: Config, x: State, t: Tid)
    requires AllFit(cfg, x) && t in x.threads
    ensures Fits(cfg, x.threads[t])
  {
  }

  lemma LowHalves(a: U64, b: U64)
    ensures Lo32(a) == Lo32(b) ==> (b - a) % TWO32 == 0
  {
  }

  // -- The exception --

  /** The watched word stands at 2^32; wait_until(5) with a timeout of 0 gets as far as its futex_wait. */
  function AliasPc(k: nat): Pc {
    match k
    case 0 => Idle
    case 1 => OnCounter(CounterLoad(Stamps.FIVE))
    case 2 => OnCounter(CounterCas(Stamps.FIVE, 0))
    case 3 => OnArm(ArmTime(0, CounterCaller(Stamps.FIVE)))
    case 4 => OnArm(ArmLoad(0, 0, CounterCaller(Stamps.FIVE)))
    case 5 => OnCounter(CounterClosed(Stamps.FIVE))
    case 6 => OnCounter(CounterOpen(Stamps.FIVE, 0))
    case _ => Enter(ClosedWord, 0, 0, CounterWaiter(Stamps.FIVE))
  }

  function AliasMem(k: nat): Mem {
    var m := FreshZero().mem.(watched := 0x1_0000_0000);
    if k < 3 then m else if k < 5 then m.(open := 5) else m.(open := 5, armed := [Arm(0, 0, 0)])
  }

  function AliasTrail(k: nat): State {
    State(AliasMem(k), if k == 0 then map[] else map[1 := AliasPc(k)], DIdle(true), [])
  }

  lemma AliasAdvances(k: nat)
    requires k < 7
    ensures ClientStep(Stamps.COUNTER, AliasMem(k), AliasPc(k), Stamps.CALL.choice)
            == Goto(AliasMem(k + 1), AliasPc(k + 1))
  {
    hide WordStep, TimerStep, CronStep, BarrierStep;
    assert SaturatingMul(0, 2) == 0 && Arm(0, 0, 0).Deadline() == 0;
  }

  lemma AliasSteps(k: nat)
    requires k < 7
    ensures Step(Stamps.COUNTER, AliasTrail(k), Stamps.CALL) == AliasTrail(k + 1)
  {
    hide Step, ClientStep, AliasMem;
    var s := AliasTrail(k);
    AliasAdvances(k);
    ClientMoves(Stamps.COUNTER, s, 1, Stamps.CALL.choice);
    assert s.threads[1 := AliasPc(k + 1)] == AliasTrail(k + 1).threads;
  }

  lemma Aliases()
    ensures Exec(Stamps.COUNTER, AliasTrail(0), seq(7, k => Stamps.CALL)) == AliasTrail(7)
  {
    hide Step;
    forall k: nat | k < 7
      ensures AliasTrail(k + 1) == Step(Stamps.COUNTER, AliasTrail(k), seq(7, i => Stamps.CALL)[k])
    {
      AliasSteps(k);
    }
    Follow(Stamps.COUNTER, AliasTrail, seq(7, k => Stamps.CALL));
  }

  /** Asleep, met, and nobody owes a wake. */
  ghost predicate SleptThrough(s: State, t: Tid) {
    PcOf(s, t).Blocked? && Met(s.mem, PcOf(s, t).waiter) && !Wakeups.Owed(s, PcOf(s, t).word)
  }

  lemma FallsAsleep(s: State)
    requires s.daemon == DIdle(true) && s.mem.open == 5 && s.mem.closed == 0x1_0000_0000
    requires s.threads == map[1 := Enter(ClosedWord, 0, 0, CounterWaiter(Stamps.FIVE))]
    ensures SleptThrough(Step(Stamps.COUNTER, s, Stamps.CALL), 1)
  {
    hide ArmStep, WordStep, TimerStep, CounterStep, CronStep, BarrierStep;
  }

  /**
   A reachable run in which the exception strikes: a pass stamps 2^32 between the load of 0 and futex_wait,
   whose low 32 bits agree, so the thread sleeps, without a timeout, on a counter that is met and nobody wakes it.
   */
  lemma AliasIsSleptThrough() returns (es: seq<Event>)
    ensures Init(Stamps.COUNTER, AliasTrail(0)) && SleptThrough(Exec(Stamps.COUNTER, AliasTrail(0), es), 1)
  {
    hide Exec, Step, SleptThrough;
    var s := AliasTrail(7);
    ValuePositive(5, 0);
    Aliases();
    Stamps.Passes(s);
    var x := Stamps.PassTrail(s, 10);
    FallsAsleep(x);
    var call, pass := seq(7, k => Stamps.CALL), seq(10, k => GO);
    ExecConcat(Stamps.COUNTER, AliasTrail(0), call, pass);
    ExecConcat(Stamps.COUNTER, AliasTrail(0), call + pass, [Stamps.CALL]);
    LastStep(x);
    es := call + pass + [Stamps.CALL];
  }

  lemma LastStep(s: State)
    ensures Exec(Stamps.COUNTER, s, [Stamps.CALL]) == Step(Stamps.COUNTER, s, Stamps.CALL)
  {
    hide Step;
    assert Exec(Stamps.COUNTER, Step(Stamps.COUNTER, s, Stamps.CALL), []) == Step(Stamps.COUNTER, s, Stamps.CALL);
  }
}
