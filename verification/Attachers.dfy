/**
 Why the wait tiers' promises are about interlocks without attachers: a handle obtained by
 name may open and close anything, and what it writes is returned as the daemon's answer.
 */
module Attachers {
  import opened Core
  import opened Protocol
  import BarrierSafety
  import CounterSafety
  import CronSafety
  import Lattice
  import TimerSafety

  // -- A timer --

  predicate AttachedTimer(cfg: Config) {
    cfg.tier == WaitTimer && cfg.attachers
  }

  /** wait_ms(10) at clock 5 up to its wait loop; then close(10) on an attached handle. */
  function TimerPcs(k: nat): Pc {
    var call := TimerCall(10, 0, 5, 1);
    var wait := TimerWait(call, 5_000_000, 5_000_000);
    match k
    case 0 => Idle
    case 1 => OnTimer(TimerClock(10, 0))
    case 2 => OnTimer(TimerLoad(call))
    case 3 => OnTimer(TimerCas(call, 5))
    case 4 => OnArm(ArmTime(20_000_000, TimerCaller(call)))
    case 5 => OnArm(ArmLoad(5_000_000, 20_000_000, TimerCaller(call)))
    case 6 => OnTimer(TimerDeadline(call, 5_000_000))
    case 7 => OnTimer(TimerClosed(wait))
    case 8 => OnTimer(TimerClosed(wait))
    case 9 => OnTimer(TimerClosed(wait))
    case 10 => OnTimer(TimerOpen(wait, 15))
    case _ => OnTimer(TimerDone(call, Delivered(15, Normal)))
  }

  function TimerMem(k: nat): Mem {
    var m := FreshTimer().mem;
    if k < 4 then m
    else if k < 6 then m.(open := 15)
    else if k < 9 then m.(open := 15, armed := [Arm(5_000_000, 20_000_000, 5_000_000)])
    else m.(open := 15, armed := [Arm(5_000_000, 20_000_000, 5_000_000)], closed := 15)
  }

  function TimerTrail(k: nat): State {
    State(TimerMem(k),
          if k == 0 then map[]
          else if k < 8 then map[1 := TimerPcs(k)]
          else map[1 := TimerPcs(k), 2 := if k == 8 then Add(ClosedWord, 10) else Waking([ClosedWord])],
          DIdle(true), [])
  }

  function TimerEvent(k: nat): Event {
    if 7 <= k < 9 then Do(2, OpAdd(ClosedWord, 10)) else Do(1, OpTimer(10))
  }

  lemma WaiterAdvances(cfg: Config, k: nat)
    requires AttachedTimer(cfg) && k < 11 && !(7 <= k < 9)
    ensures ClientStep(cfg, TimerMem(k), TimerPcs(k), TimerEvent(k).choice) == Goto(TimerMem(k + 1), TimerPcs(k + 1))
  {
    hide WordStep, CounterStep, CronStep, BarrierStep;
    assert TimerCall(10, 0, 5, 1).Ttl() == 20_000_000 && TimerCall(10, 0, 5, 1).Target() == 15;
    assert Arm(5_000_000, 20_000_000, 5_000_000).Deadline() == 25_000_000;
  }

  lemma WaiterSteps(cfg: Config, k: nat)
    requires AttachedTimer(cfg) && k < 11 && !(7 <= k < 9)
    ensures Step(cfg, TimerTrail(k), TimerEvent(k)) == TimerTrail(k + 1)
  {
    hide ClientStep, DaemonStep, Step, TimerMem;
    var s := TimerTrail(k);
    WaiterAdvances(cfg, k);
    ClientMoves(cfg, s, 1, TimerEvent(k).choice);
    assert s.threads[1 := TimerPcs(k + 1)] == TimerTrail(k + 1).threads;
  }

  lemma AttacherSteps(cfg: Config, k: nat)
    requires AttachedTimer(cfg) && 7 <= k < 9
    ensures Step(cfg, TimerTrail(k), TimerEvent(k)) == TimerTrail(k + 1)
  {
    hide TimerStep, ArmStep, WordStep, CounterStep, CronStep, BarrierStep, DaemonStep, Step;
    var s := TimerTrail(k);
    ClientMoves(cfg, s, 2, TimerEvent(k).choice);
    assert s.threads[2 := PcOf(TimerTrail(k + 1), 2)] == TimerTrail(k + 1).threads;
  }

  /**
   A reachable run of any attached timer without a single daemon step: a wait of 10 ms from clock 5
   returns Ok with 15 while the clock still reads 5.
   */
  lemma AttacherDeliversEarly(cfg: Config) returns (es: seq<Event>)
    requires AttachedTimer(cfg)
    ensures Init(cfg, FreshTimer()) && forall e | e in es :: e.Client?
    ensures var x := Exec(cfg, FreshTimer(), es);
            && PcOf(x, 1) == OnTimer(TimerDone(TimerCall(10, 0, 5, 1), Delivered(15, Normal)))
            && x.mem.published == [5]
  {
    hide Exec, Step;
    es := seq(11, i requires i >= 0 => TimerEvent(i));
    forall i: nat | i < 11 ensures TimerTrail(i + 1) == Step(cfg, TimerTrail(i), es[i]) {
      if 7 <= i < 9 {
        AttacherSteps(cfg, i);
      } else {
        WaiterSteps(cfg, i);
      }
    }
    Follow(cfg, TimerTrail, es);
  }

  /** A timer keeps its promise in all runs if and only if nobody can attach to it. */
  lemma TimerPromiseIff(cfg: Config)
    requires cfg.tier == WaitTimer
    ensures !cfg.attachers <==>
            forall s, es, t | Init(cfg, s) && TimerSafety.DoneWith(Exec(cfg, s, es), t).Some? ::
              var x := Exec(cfg, s, es);
              var (call, v) := TimerSafety.DoneWith(x, t).value;
              TimerSafety.OnTime(x.mem, call, v)
  {
    hide Exec, Init;
    if cfg.attachers {
      var es := AttacherDeliversEarly(cfg);
      assert TimerSafety.DoneWith(Exec(cfg, FreshTimer(), es), 1) == Some((TimerCall(10, 0, 5, 1), 15 as U64));
    } else {
      hide TimerSafety.OnTime;
      forall s, es, t | Init(cfg, s) && TimerSafety.DoneWith(Exec(cfg, s, es), t).Some?
        ensures var x := Exec(cfg, s, es);
                var (call, v) := TimerSafety.DoneWith(x, t).value;
                TimerSafety.OnTime(x.mem, call, v)
      {
        TimerSafety.TimerNeverEarly(cfg, s, es, t);
      }
    }
  }

  // -- A cron --

  /** A wait takes its snapshot, an attached handle closes by 1, and the wait reads on. */
  function CronTrail(i: CronInterval, k: nat): State {
    var s := Lattice.Fresh(i);
    var closed := s.mem.(closed := 1);
    match k
    case 0 => s
    case 1 => s.(threads := map[1 := OnCron(CronSnap)])
    case 2 => s.(threads := map[1 := OnCron(CronClosed(0))])
    case 3 => s.(threads := map[1 := OnCron(CronClosed(0)), 2 := Add(ClosedWord, 1)])
    case 4 => s.(mem := closed, threads := map[1 := OnCron(CronClosed(0)), 2 := Waking([ClosedWord])])
    case 5 => s.(mem := closed, threads := map[1 := OnCron(CronOpen(0, 1)), 2 := Waking([ClosedWord])])
    case _ => s.(mem := closed, threads := map[1 := OnCron(CronDone(Delivered(1, Normal))), 2 := Waking([ClosedWord])],
                 oks := Reported())
  }

  /** What the wait has returned: 1, which no pass has stamped. */
  function Reported(): seq<(Tid, U64)> {
    [(1, 1)]
  }

  function CronEvent(k: nat): Event {
    if 2 <= k < 4 then Do(2, OpAdd(ClosedWord, 1)) else Do(1, OpCron)
  }

  lemma CronTrailStarts(i: CronInterval, k: nat)
    requires k < 3
    ensures Step(Lattice.Cron(i), CronTrail(i, k), CronEvent(k)) == CronTrail(i, k + 1)
  {
    hide ArmStep, WordStep, TimerStep, CounterStep, BarrierStep, DaemonStep, Lattice.Due;
    var s, e := CronTrail(i, k), CronEvent(k);
    assert WakeAll(None, s.threads) == s.threads;
    assert s.threads[e.t := PcOf(CronTrail(i, k + 1), e.t)] == CronTrail(i, k + 1).threads;
  }

  lemma CronTrailEnds(i: CronInterval, k: nat)
    requires 3 <= k < 6
    ensures Step(Lattice.Cron(i), CronTrail(i, k), CronEvent(k)) == CronTrail(i, k + 1)
  {
    hide ArmStep, WordStep, TimerStep, CounterStep, BarrierStep, DaemonStep, Lattice.Due;
    var s, e := CronTrail(i, k), CronEvent(k);
    assert WakeAll(None, s.threads) == s.threads;
    assert s.threads[e.t := PcOf(CronTrail(i, k + 1), e.t)] == CronTrail(i, k + 1).threads;
    assert [] + [(1 as Tid, 1 as U64)] == Reported();
  }

  /** A reachable run of an attached cron of any interval in which a wait reports a fire, with no daemon step. */
  lemma AttacherFiresCron(i: CronInterval) returns (es: seq<Event>)
    ensures Init(Lattice.Cron(i), Lattice.Fresh(i)) && forall e | e in es :: e.Client?
    ensures var x := Exec(Lattice.Cron(i), Lattice.Fresh(i), es);
            x.oks == [(1, 1)] && x.mem.stamps == [0]
  {
    hide Exec, Step;
    Lattice.FreshIsInit(i);
    es := seq(6, k requires k >= 0 => CronEvent(k));
    forall k: nat | k < 6 ensures CronTrail(i, k + 1) == Step(Lattice.Cron(i), CronTrail(i, k), es[k]) {
      if k < 3 {
        CronTrailStarts(i, k);
      } else {
        CronTrailEnds(i, k);
      }
    }
    Follow(Lattice.Cron(i), (k: nat) => CronTrail(i, k), es);
  }

  /** A cron keeps its promise in all runs if and only if nobody can attach to it. */
  lemma CronPromiseIff(cfg: Config)
    requires cfg.tier == WaitCron
    ensures !cfg.attachers <==> forall s, es | Init(cfg, s) :: CronSafety.NeverRepeats(cfg, Exec(cfg, s, es))
  {
    hide Exec, Init;
    if cfg.attachers {
      var es := AttacherFiresCron(cfg.interval);
      assert cfg == Lattice.Cron(cfg.interval);
      assert Exec(cfg, Lattice.Fresh(cfg.interval), es).oks[0].1 == 1;
    } else {
      hide CronSafety.NeverRepeats;
      forall s, es | Init(cfg, s) ensures CronSafety.NeverRepeats(cfg, Exec(cfg, s, es)) {
        CronSafety.CronNeverRepeats(cfg, s, es);
      }
    }
  }

  // -- A counter --

  predicate AttachedCounter(cfg: Config) {
    cfg.tier == WaitCounter && cfg.attachers
  }

  const FIVE: CounterCall := CounterCall(5, 0)

  /** wait_until(5) up to its check of the counters; then close(5) on an attached handle. */
  function CounterPcs(k: nat): Pc {
    match k
    case 0 => Idle
    case 1 => OnCounter(CounterLoad(FIVE))
    case 2 => OnCounter(CounterCas(FIVE, 0))
    case 3 => OnArm(ArmTime(0, CounterCaller(FIVE)))
    case 4 => OnArm(ArmLoad(0, 0, CounterCaller(FIVE)))
    case 5 => OnCounter(CounterClosed(FIVE))
    case 6 => OnCounter(CounterClosed(FIVE))
    case 7 => OnCounter(CounterClosed(FIVE))
    case 8 => OnCounter(CounterOpen(FIVE, 5))
    case _ => OnCounter(CounterDone(FIVE, Delivered(5, Normal)))
  }

  function CounterMem(k: nat): Mem {
    var m := FreshZero().mem;
    if k < 3 then m
    else if k < 5 then m.(open := 5)
    else if k < 7 then m.(open := 5, armed := [Arm(0, 0, 0)])
    else m.(open := 5, armed := [Arm(0, 0, 0)], closed := 5)
  }

  function CounterTrail(k: nat): State {
    State(CounterMem(k),
          if k == 0 then map[]
          else if k < 6 then map[1 := CounterPcs(k)]
          else map[1 := CounterPcs(k), 2 := if k == 6 then Add(ClosedWord, 5) else Waking([ClosedWord])],
          DIdle(true), [])
  }

  function CounterEvent(k: nat): Event {
    if 5 <= k < 7 then Do(2, OpAdd(ClosedWord, 5)) else Do(1, OpCounter(FIVE))
  }

  lemma CounterAdvances(cfg: Config, k: nat)
    requires AttachedCounter(cfg) && k < 9 && !(5 <= k < 7)
    ensures ClientStep(cfg, CounterMem(k), CounterPcs(k), CounterEvent(k).choice)
            == Goto(CounterMem(k + 1), CounterPcs(k + 1))
  {
    hide WordStep, TimerStep, CronStep, BarrierStep;
    assert Arm(0, 0, 0).Deadline() == 0;
  }

  lemma CounterTrailSteps(cfg: Config, k: nat)
    requires AttachedCounter(cfg) && k < 9
    ensures Step(cfg, CounterTrail(k), CounterEvent(k)) == CounterTrail(k + 1)
  {
    var s, e := CounterTrail(k), CounterEvent(k);
    if 5 <= k < 7 {
      hide TimerStep, ArmStep, WordStep, CounterStep, CronStep, BarrierStep, DaemonStep, Step;
      ClientMoves(cfg, s, 2, e.choice);
      assert s.threads[2 := PcOf(CounterTrail(k + 1), 2)] == CounterTrail(k + 1).threads;
    } else {
      hide ClientStep, DaemonStep, Step, CounterMem;
      CounterAdvances(cfg, k);
      ClientMoves(cfg, s, 1, e.choice);
      assert s.threads[1 := CounterPcs(k + 1)] == CounterTrail(k + 1).threads;
    }
  }

  /** A reachable run in which a wait returns Ok with a value nobody read from the watched word. */
  lemma AttacherDeliversCounter(cfg: Config) returns (es: seq<Event>)
    requires AttachedCounter(cfg)
    ensures Init(cfg, FreshZero()) && forall e | e in es :: e.Client?
    ensures var x := Exec(cfg, FreshZero(), es);
            && PcOf(x, 1) == OnCounter(CounterDone(FIVE, Delivered(5, Normal)))
            && x.mem.seen == []
  {
    hide Exec, Step;
    es := seq(9, i requires i >= 0 => CounterEvent(i));
    forall i: nat | i < 9 ensures CounterTrail(i + 1) == Step(cfg, CounterTrail(i), es[i]) {
      CounterTrailSteps(cfg, i);
    }
    Follow(cfg, CounterTrail, es);
  }

  /** A counter keeps its promise in all runs if and only if nobody can attach to it. */
  lemma CounterPromiseIff(cfg: Config)
    requires cfg.tier == WaitCounter
    ensures !cfg.attachers <==>
            forall s, es, t | Init(cfg, s) :: CounterSafety.Sound(Exec(cfg, s, es).mem, PcOf(Exec(cfg, s, es), t))
  {
    hide Exec, Init;
    if cfg.attachers {
      var es := AttacherDeliversCounter(cfg);
      var x := Exec(cfg, FreshZero(), es);
      assert !CounterSafety.Sound(x.mem, PcOf(x, 1));
    } else {
      hide CounterSafety.Sound;
      forall s, es, t | Init(cfg, s) ensures CounterSafety.Sound(Exec(cfg, s, es).mem, PcOf(Exec(cfg, s, es), t)) {
        CounterSafety.CounterSound(cfg, s, es, t);
      }
    }
  }

  // -- A barrier --

  predicate AttachedBarrier(cfg: Config) {
    cfg.tier == WaitBarrier && cfg.attachers
  }

  /** A wait is about to load the counters, an attached handle closes by 1, and the wait loads them. */
  function BarrierTrail(k: nat): State {
    var s := BarrierSafety.FreshBarrier();
    var closed := s.mem.(closed := 1);
    match k
    case 0 => s
    case 1 => s.(threads := map[1 := OnBarrier(BarrierClosed)])
    case 2 => s.(threads := map[1 := OnBarrier(BarrierClosed), 2 := Add(ClosedWord, 1)])
    case 3 => s.(mem := closed, threads := map[1 := OnBarrier(BarrierClosed), 2 := Waking([ClosedWord])])
    case 4 => s.(mem := closed, threads := map[1 := OnBarrier(BarrierOpen(1)), 2 := Waking([ClosedWord])])
    case _ => s.(mem := closed,
                 threads := map[1 := OnBarrier(BarrierDone(Delivered(1, Normal))), 2 := Waking([ClosedWord])])
  }

  function BarrierEvent(k: nat): Event {
    if 1 <= k < 3 then Do(2, OpAdd(ClosedWord, 1)) else Do(1, OpBarrier)
  }

  lemma BarrierTrailSteps(cfg: Config, k: nat)
    requires AttachedBarrier(cfg) && k < 5
    ensures Step(cfg, BarrierTrail(k), BarrierEvent(k)) == BarrierTrail(k + 1)
  {
    hide Step, ArmStep, WordStep, TimerStep, CounterStep, CronStep, DaemonStep;
    var s, e := BarrierTrail(k), BarrierEvent(k);
    ValuePositive(1, 1);
    ClientMoves(cfg, s, e.t, e.choice);
    assert s.threads[e.t := PcOf(BarrierTrail(k + 1), e.t)] == BarrierTrail(k + 1).threads;
  }

  /** A reachable run in which a wait returns Ok although the daemon has stamped nothing. */
  lemma AttacherFiresBarrier(cfg: Config) returns (es: seq<Event>)
    requires AttachedBarrier(cfg)
    ensures Init(cfg, BarrierSafety.FreshBarrier()) && forall e | e in es :: e.Client?
    ensures var x := Exec(cfg, BarrierSafety.FreshBarrier(), es);
            BarrierSafety.Returned(x, 1) == Some(1 as U64) && x.mem.stamps == [0]
  {
    hide Exec, Step;
    es := seq(5, i requires i >= 0 => BarrierEvent(i));
    forall i: nat | i < 5 ensures BarrierTrail(i + 1) == Step(cfg, BarrierTrail(i), es[i]) {
      BarrierTrailSteps(cfg, i);
    }
    Follow(cfg, BarrierTrail, es);
  }

  /** A barrier keeps its promise in all runs if and only if nobody can attach to it. */
  lemma BarrierPromiseIff(cfg: Config)
    requires cfg.tier == WaitBarrier
    ensures !cfg.attachers <==>
            forall s, es, t | Init(cfg, s) && BarrierSafety.Returned(Exec(cfg, s, es), t).Some? ::
              BarrierSafety.OneStamp(Exec(cfg, s, es).mem, BarrierSafety.Returned(Exec(cfg, s, es), t).value)
  {
    hide Exec, Init;
    if cfg.attachers {
      var es := AttacherFiresBarrier(cfg);
      var x := Exec(cfg, BarrierSafety.FreshBarrier(), es);
      assert !BarrierSafety.OneStamp(x.mem, BarrierSafety.Returned(x, 1).value);
    } else {
      hide BarrierSafety.OneStamp;
      forall s, es, t | Init(cfg, s) && BarrierSafety.Returned(Exec(cfg, s, es), t).Some?
        ensures BarrierSafety.OneStamp(Exec(cfg, s, es).mem, BarrierSafety.Returned(Exec(cfg, s, es), t).value)
      {
        BarrierSafety.BarrierSound(cfg, s, es, t);
      }
    }
  }
}
