/**
 WaitBarrier::wait under every interleaving: what it returns is the barrier's one stamp, or
 the marker of a reap that got in between.
 */
module BarrierSafety {
  import opened Core
  import opened Protocol
  import opened OneCall
  import Stamps

  predicate IsBarrier(cfg: Config) {
    cfg.tier == WaitBarrier && !cfg.attachers
  }

  /** A value closed_count got from a stamp, or the marker once open_count holds it too. */
  predicate Held(m: Mem, v: U64) {
    (v in m.stamps && v <= MAX_MS) || (v == SENTINEL && m.open == SENTINEL)
  }

  predicate DaemonInv(m: Mem, d: Dpc) {
    && (d.DReapClosed? ==> m.open == SENTINEL)
    && (d.DStamp? ==> d.value <= MAX_MS)
  }

  predicate ClientInv(m: Mem, pc: Pc) {
    match pc
    case OnBarrier(BarrierOpen(closed)) => Held(m, closed)
    case OnBarrier(BarrierDone(Delivered(v, _))) => Held(m, v) && v > 0
    case _ => true
  }

  ghost predicate Inv(cfg: Config, s: State) {
    && AllFit(cfg, s)
    && Held(s.mem, s.mem.closed) && DaemonInv(s.mem, s.daemon)
    && forall t | t in s.threads :: ClientInv(s.mem, s.threads[t])
  }

  predicate Grows(m: Mem, m': Mem) {
    m.stamps <= m'.stamps && (m.open == SENTINEL ==> m'.open == SENTINEL)
  }

  lemma HeldStays(m: Mem, m': Mem, v: U64)
    requires Grows(m, m') && Held(m, v)
    ensures Held(m', v)
  {
    if v in m.stamps {
      var i :| 0 <= i < |m.stamps| && m.stamps[i] == v;
      assert m'.stamps[i] == v;
    }
  }

  lemma ClientStable(m: Mem, m': Mem, w: Option<Word>, pc: Pc)
    requires ClientInv(m, pc) && Grows(m, m')
    ensures ClientInv(m', Wake(w, pc))
  {
    match pc
    case OnBarrier(BarrierOpen(closed)) => HeldStays(m, m', closed);
    case OnBarrier(BarrierDone(Delivered(v, _))) => HeldStays(m, m', v);
    case _ =>
  }

  lemma BarrierKeeps(m: Mem, b: BarrierPc)
    requires Held(m, m.closed) && ClientInv(m, OnBarrier(b))
    ensures var o := BarrierStep(m, b); ClientInv(m, o.pc) && o.mem == m
  {
  }

  lemma ClientKeeps(cfg: Config, m: Mem, pc: Pc, ch: Choice)
    requires IsBarrier(cfg) && Fits(cfg, pc) && Held(m, m.closed) && ClientInv(m, pc)
    ensures var o := ClientStep(cfg, m, pc, ch);
            ClientInv(o.mem, o.pc) && Grows(m, o.mem) && o.mem.closed == m.closed
  {
    hide BarrierStep;
    Stamps.ClientLeaves(cfg, m, pc, ch);
    if pc.OnBarrier? {
      BarrierKeeps(m, pc.barrier);
    }
  }

  lemma DaemonKeeps(cfg: Config, m: Mem, d: Dpc, ch: DChoice)
    requires IsBarrier(cfg) && FitsDaemon(cfg, d) && Held(m, m.closed) && DaemonInv(m, d)
    ensures var o := DaemonStep(cfg, m, d, ch);
            Held(o.mem, o.mem.closed) && DaemonInv(o.mem, o.daemon) && Grows(m, o.mem)
  {
    var o := DaemonStep(cfg, m, d, ch);
    if d.DStamp? {
      assert o.mem.stamps[|m.stamps|] == d.value;
    } else if d.DBarrier? {
      MsBound(d.at);
    }
  }

  lemma StepKeeps(cfg: Config, s: State, e: Event)
    requires IsBarrier(cfg) && Inv(cfg, s)
    ensures Inv(cfg, Step(cfg, s, e))
  {
    StepFits(cfg, s, e);
    ActorKeeps(cfg, s, e);
    OthersKeep(cfg, s, e);
  }

  lemma ActorKeeps(cfg: Config, s: State, e: Event)
    requires IsBarrier(cfg) && Inv(cfg, s)
    ensures var s' := Step(cfg, s, e);
            && Held(s'.mem, s'.mem.closed) && DaemonInv(s'.mem, s'.daemon) && Grows(s.mem, s'.mem)
            && (e.Client? ==> ClientInv(s'.mem, s'.threads[e.t]))
  {
    hide ClientStep, DaemonStep;
    match e
    case Client(t, ch) =>
      ClientKeeps(cfg, s.mem, PcOf(s, t), ch);
      HeldStays(s.mem, Step(cfg, s, e).mem, s.mem.closed);
    case Daemon(ch) => DaemonKeeps(cfg, s.mem, s.daemon, ch);
    case _ =>
  }

  lemma OthersKeep(cfg: Config, s: State, e: Event)
    requires Inv(cfg, s) && Grows(s.mem, Step(cfg, s, e).mem)
    ensures forall t | t in s.threads && !(e.Client? && e.t == t) ::
              ClientInv(Step(cfg, s, e).mem, Step(cfg, s, e).threads[t])
  {
    hide ClientStep, DaemonStep;
    var s' := Step(cfg, s, e);
    forall w, t | t in s.threads && !(e.Client? && e.t == t) ensures ClientInv(s'.mem, Wake(w, s.threads[t])) {
      ClientStable(s.mem, s'.mem, w, s.threads[t]);
    }
    forall t | t in s.threads ensures s.threads[t] == Wake(None, s.threads[t]) {}
  }

  function Returned(s: State, t: Tid): Option<U64> {
    match PcOf(s, t)
    case OnBarrier(BarrierDone(Delivered(v, _))) => Some(v)
    case _ => None
  }

  /** The one value other than 0 that the daemon has stamped, or the marker of a reap. */
  predicate OneStamp(m: Mem, v: U64) {
    (Stamps.Once(m.stamps) && v == Stamps.Last(m.stamps) && 1 <= v <= MAX_MS) || (v == SENTINEL && m.open == SENTINEL)
  }

  lemma InvAlways(cfg: Config, s: State, es: seq<Event>)
    requires IsBarrier(cfg) && Init(cfg, s)
    ensures Inv(cfg, Exec(cfg, s, es))
  {
    var inv := (x: State) => Inv(cfg, x);
    forall x, e | inv(x) ensures inv(Step(cfg, x, e)) {
      StepKeeps(cfg, x, e);
    }
    ExecKeeps(cfg, inv, s, es);
  }

  /**
   A wait that returns Ok returns the one value the daemon has stamped, a clock value of at
   least 1, or the marker; and the marker only once open_count has been reaped.
   */
  lemma BarrierSound(cfg: Config, s: State, es: seq<Event>, t: Tid)
    requires IsBarrier(cfg) && Init(cfg, s)
    requires Returned(Exec(cfg, s, es), t).Some?
    ensures OneStamp(Exec(cfg, s, es).mem, Returned(Exec(cfg, s, es), t).value)
  {
    InvAlways(cfg, s, es);
    Stamps.InvAlways(cfg, s, es);
    hide Exec, Init, AllFit, DaemonInv;
    var x := Exec(cfg, s, es);
    assert ClientInv(x.mem, x.threads[t]);
  }

  // -- A stamped barrier returns --

  /** Top of the loop, or a stamp loaded, or a stamp returned: normal if it is the barrier's open_count of 1. */
  predicate Returning(pc: Pc, stamp: U64) {
    match pc
    case OnBarrier(BarrierClosed) => true
    case OnBarrier(BarrierOpen(closed)) => closed == stamp
    case OnBarrier(BarrierDone(outcome)) => outcome == Delivered(stamp, if stamp == 1 then Normal else Overrun)
    case _ => false
  }

  function Left(pc: Pc): nat {
    match pc
    case OnBarrier(BarrierClosed) => 2
    case OnBarrier(BarrierOpen(_)) => 1
    case _ => 0
  }

  /** The stamp stays where it is, unless the entry is being reaped. */
  ghost predicate Fired(cfg: Config, s: State, base: U64, stamp: U64) {
    Stamps.Inv(cfg, s, base) && (Gone(s.daemon) || s.mem.closed == stamp)
  }

  lemma FiredStays(cfg: Config, s: State, e: Event, base: U64, stamp: U64)
    requires IsBarrier(cfg) && 1 <= stamp && Fired(cfg, s, base, stamp)
    ensures Fired(cfg, Step(cfg, s, e), base, stamp)
  {
    hide ClientStep, DaemonStep, Fits, FitsDaemon;
    Stamps.StepKeeps(cfg, s, e, base);
    if Gone(s.daemon) {
      GoneForGood(cfg, s, e);
    } else {
      match e
      case Client(t, ch) =>
        assert Fits(cfg, PcOf(s, t)) by {
          IdleFits(cfg);
        }
        Stamps.ClientLeaves(cfg, s.mem, PcOf(s, t), ch);
      case Daemon(ch) => NoSecondStamp(cfg, s.mem, s.daemon, ch, base);
      case _ =>
    }
  }

  lemma IdleFits(cfg: Config)
    ensures Fits(cfg, Idle)
  {
  }

  lemma NoSecondStamp(cfg: Config, m: Mem, d: Dpc, ch: DChoice, base: U64)
    requires IsBarrier(cfg) && Stamps.MemInv(cfg, m, d, base) && Stamps.DaemonInv(cfg, m, d, base)
    requires !Gone(d) && 1 <= m.closed
    ensures DaemonStep(cfg, m, d, ch).mem.closed == m.closed
  {
    ValuePositive(1, m.closed);
  }

  lemma ReturningStep(cfg: Config, m: Mem, pc: Pc, ch: Choice, w: Option<Word>, stamp: U64)
    requires Returning(pc, stamp)
    ensures Wake(w, pc) == pc && (Left(pc) == 0 <==> BetweenCalls(pc))
    ensures m.open == 1 && m.closed == stamp && 1 <= stamp <= MAX_MS && !BetweenCalls(pc) ==>
              var pc' := ClientStep(cfg, m, pc, ch).pc; Returning(pc', stamp) && Left(pc') < Left(pc)
  {
    ValuePositive(1, stamp);
  }

  lemma {:induction false} FiredReturns(
    cfg: Config, s: State, es: seq<Event>, t: Tid, base: U64, stamp: U64)
    requires IsBarrier(cfg) && 1 <= stamp && Fired(cfg, s, base, stamp) && Returning(PcOf(s, t), stamp)
    requires Along(cfg, s, es, (x, e) => ThisCallOnly(t, x, e))
    ensures var y := Exec(cfg, s, es);
            Gone(y.daemon)
            || (Returning(PcOf(y, t), stamp) && Left(PcOf(y, t)) + StepsTaken(t, es) <= Left(PcOf(s, t)))
    decreases |es|
  {
    hide Step, ClientStep, Returning, Left, BetweenCalls, Wake, Gone, AllFit;
    if es != [] {
      var e, s' := es[0], Step(cfg, s, es[0]);
      FiredStays(cfg, s, e, base, stamp);
      if Gone(s'.daemon) {
        StaysGone(cfg, s', es[1..]);
      } else {
        if Gone(s.daemon) {
          GoneForGood(cfg, s, e);
        }
        var w := NextPc(cfg, t, s, e);
        var ch := if e.Client? then e.choice else Choice(OpCron, false, Interrupted);
        ReturningStep(cfg, s.mem, PcOf(s, t), ch, w, stamp);
        FiredReturns(cfg, s', es[1..], t, base, stamp);
      }
    }
  }

  /**
   Once a barrier has been stamped with a clock value of at least 1, an iteration that starts returns Ok
   with that stamp within two own steps, Normal for the stamp 1 and Overrun for any other; it neither
   sleeps nor reports Reaped, for as long as the daemon does not go on to reap the entry.
   */
  lemma StampIsReturned(cfg: Config, s: State, before: seq<Event>, after: seq<Event>, t: Tid)
    requires IsBarrier(cfg) && Init(cfg, s)
    requires var x := Exec(cfg, s, before);
             PcOf(x, t) == OnBarrier(BarrierClosed) && x.mem.closed >= 1 && !Gone(x.daemon)
    requires Along(cfg, Exec(cfg, s, before), after, (x, e) => ThisCallOnly(t, x, e))
    ensures var (x, y) := (Exec(cfg, s, before), Exec(cfg, Exec(cfg, s, before), after));
            var stamp := x.mem.closed;
            Gone(y.daemon)
            || (&& Returning(PcOf(y, t), stamp)
                && (StepsTaken(t, after) >= 2 ==>
                      PcOf(y, t) == OnBarrier(BarrierDone(Delivered(stamp, if stamp == 1 then Normal else Overrun)))))
  {
    Stamps.InvAlways(cfg, s, before);
    hide Exec, Init, Along, Stamps.Inv, Returning, Left, Gone, Step;
    var x := Exec(cfg, s, before);
    TopReturns(x.mem.closed);
    FiredReturns(cfg, x, after, t, s.mem.clock, x.mem.closed);
    DoneReturned(PcOf(Exec(cfg, x, after), t), x.mem.closed);
  }

  lemma TopReturns(stamp: U64)
    ensures Returning(OnBarrier(BarrierClosed), stamp) && Left(OnBarrier(BarrierClosed)) == 2
  {
  }

  lemma DoneReturned(pc: Pc, stamp: U64)
    ensures Returning(pc, stamp) && Left(pc) == 0 ==>
              pc == OnBarrier(BarrierDone(Delivered(stamp, if stamp == 1 then Normal else Overrun)))
  {
  }

  // -- A reap in the middle of a wait can be reported as success --

  const BARRIER: Config := Config(WaitBarrier, 1, false)

  function FreshBarrier(): State {
    State(Mem(1, 0, 100_000_000, 1, 0, 1_000_000, [1], [0], [], []), map[], DIdle(true), [])
  }

  /** A create under the same name reaps two words; then the wait loads both. */
  function ReapTrail(k: nat): State {
    var s := FreshBarrier();
    var half := s.mem.(open := SENTINEL, closed := SENTINEL);
    match k
    case 0 => s
    case 1 => s.(daemon := DReapOpen)
    case 2 => s.(mem := s.mem.(open := SENTINEL), daemon := DReapClosed)
    case 3 => s.(mem := half, daemon := DReapExp)
    case 4 => s.(mem := half, daemon := DReapExp, threads := map[1 := OnBarrier(BarrierClosed)])
    case 5 => s.(mem := half, daemon := DReapExp, threads := map[1 := OnBarrier(BarrierOpen(SENTINEL))])
    case _ => s.(mem := half, daemon := DReapExp,
                 threads := map[1 := OnBarrier(BarrierDone(Delivered(SENTINEL, Normal)))])
  }

  function ReapEvent(k: nat): Event {
    if k < 3 then Daemon(DChoice(Takeover, false)) else Do(1, OpBarrier)
  }

  lemma ReapSteps(k: nat)
    requires k < 3
    ensures Step(BARRIER, ReapTrail(k), ReapEvent(k)) == ReapTrail(k + 1)
  {
    hide ClientStep, Contract, Judge;
    assert WakeAll(None, map[]) == map[];
  }

  lemma WaitSteps(k: nat)
    requires 3 <= k < 6
    ensures Step(BARRIER, ReapTrail(k), ReapEvent(k)) == ReapTrail(k + 1)
  {
    hide ArmStep, WordStep, TimerStep, CounterStep, CronStep, DaemonStep, Step;
    var s := ReapTrail(k);
    ValuePositive(SENTINEL, SENTINEL);
    ClientMoves(BARRIER, s, 1, ReapEvent(k).choice);
    assert s.threads[1 := PcOf(ReapTrail(k + 1), 1)] == ReapTrail(k + 1).threads;
  }

  /** A reachable run in which wait returns Ok(Normal) with the marker, nothing ever stamped. */
  lemma ReapReturnedAsSuccess() returns (es: seq<Event>)
    ensures Init(BARRIER, FreshBarrier())
    ensures var x := Exec(BARRIER, FreshBarrier(), es);
            && PcOf(x, 1) == OnBarrier(BarrierDone(Delivered(SENTINEL, Normal)))
            && x.mem.stamps == [0]
  {
    hide Exec, Step;
    es := seq(6, i requires i >= 0 => ReapEvent(i));
    forall i: nat | i < 6 ensures ReapTrail(i + 1) == Step(BARRIER, ReapTrail(i), es[i]) {
      if i < 3 {
        ReapSteps(i);
      } else {
        WaitSteps(i);
      }
    }
    Follow(BARRIER, ReapTrail, es);
  }
}
