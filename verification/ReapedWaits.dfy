/**
 When a reap is reported as success. A wait returns Ok with the marker exactly when its load of
 closed_count found the marker; so once a reap has stored the counters, a call that loads again
 always does, and never reports that the interlock was reaped.
 */
module ReapedWaits {
  import opened Core
  import opened Protocol
  import opened OneCall
  import BarrierSafety
  import CounterSafety
  import Lattice
  import Stamps
  import TimerSafety

  /** Ok, with the marker for a value. */
  predicate ReturnsMarker(o: Outcome) {
    o.Delivered? && o.value == SENTINEL && !o.state.Timeout?
  }

  // -- The load decides --

  lemma TimerOpenDecides(cfg: Config, m: Mem, p: TimerPc, ch: Choice)
    requires p.TimerOpen? && TimerSafety.MemInv(m) && TimerSafety.IsStamp(m, p.closed)
    ensures var pc' := ClientStep(cfg, m, OnTimer(p), ch).pc;
            && (p.closed == SENTINEL ==> pc' == OnTimer(TimerDone(p.wait.call, Delivered(SENTINEL, Normal))))
            && (p.closed == SENTINEL <==> pc'.OnTimer? && pc'.timer.TimerDone? && ReturnsMarker(pc'.timer.outcome))
  {
    if SENTINEL in m.published {
      TimerSafety.PublishedBounded(m, SENTINEL);
    }
  }

  lemma TimerMarkerIff(cfg: Config, s: State, es: seq<Event>, t: Tid, ch: Choice)
    requires TimerSafety.IsTimer(cfg) && Init(cfg, s)
    requires var pc := PcOf(Exec(cfg, s, es), t); pc.OnTimer? && pc.timer.TimerOpen?
    ensures var x := Exec(cfg, s, es);
            var p, pc' := PcOf(x, t).timer, PcOf(Step(cfg, x, Client(t, ch)), t);
            && (p.closed == SENTINEL ==> pc' == OnTimer(TimerDone(p.wait.call, Delivered(SENTINEL, Normal))))
            && (p.closed == SENTINEL <==> pc'.OnTimer? && pc'.timer.TimerDone? && ReturnsMarker(pc'.timer.outcome))
  {
    TimerSafety.InvAlways(cfg, s, es);
    hide Exec, Init, AllFit, ClientStep, ReturnsMarker;
    var x := Exec(cfg, s, es);
    assert TimerSafety.ClientInv(x.mem, x.threads[t]);
    TimerOpenDecides(cfg, x.mem, x.threads[t].timer, ch);
  }

  /** The load of a counter's check of the pair, before its sleep or after it. */
  function Checked(pc: Pc): Option<(CounterCall, U64)> {
    match pc
    case OnCounter(CounterOpen(c, closed)) => Some((c, closed))
    case OnCounter(CounterOpen2(c, _, closed)) => Some((c, closed))
    case _ => None
  }

  lemma CounterCheckDecides(cfg: Config, m: Mem, pc: Pc, ch: Choice)
    requires Checked(pc).Some? && (Checked(pc).value.1 == SENTINEL ==> SENTINEL in m.seen || m.open == SENTINEL)
    ensures var (c, closed) := Checked(pc).value;
            var pc' := ClientStep(cfg, m, pc, ch).pc;
            && (closed == SENTINEL && SENTINEL !in m.seen ==>
                  pc' == OnCounter(CounterDone(c, Delivered(SENTINEL, Normal))))
            && (closed == SENTINEL && SENTINEL in m.seen ==>
                  pc' == OnCounter(CounterDone(c, Delivered(SENTINEL, if m.open == SENTINEL then Normal else Overrun))))
            && (closed == SENTINEL <==>
                  pc'.OnCounter? && pc'.counterPc.CounterDone? && ReturnsMarker(pc'.counterPc.outcome))
  {
  }

  /**
   A counter's load can also find the marker as a stamp, when the daemon read it from the watched word.
   Otherwise it comes from a reap of the counter itself, and the result is Normal.
   */
  lemma CounterMarkerIff(cfg: Config, s: State, es: seq<Event>, t: Tid, ch: Choice)
    requires CounterSafety.IsCounter(cfg) && Init(cfg, s)
    requires Checked(PcOf(Exec(cfg, s, es), t)).Some?
    ensures var x := Exec(cfg, s, es);
            var (c, closed) := Checked(PcOf(x, t)).value;
            var pc' := PcOf(Step(cfg, x, Client(t, ch)), t);
            && (closed == SENTINEL && SENTINEL !in x.mem.seen ==>
                  pc' == OnCounter(CounterDone(c, Delivered(SENTINEL, Normal))))
            && (closed == SENTINEL && SENTINEL in x.mem.seen ==>
                  pc'
                  == OnCounter(CounterDone(c, Delivered(SENTINEL, if x.mem.open == SENTINEL then Normal else Overrun))))
            && (closed == SENTINEL <==>
                  pc'.OnCounter? && pc'.counterPc.CounterDone? && ReturnsMarker(pc'.counterPc.outcome))
  {
    CounterSafety.InvAlways(cfg, s, es);
    hide Exec, Init, AllFit, ClientStep, ReturnsMarker;
    var x := Exec(cfg, s, es);
    assert CounterSafety.ClientInv(x.mem, x.threads[t]);
    CounterCheckDecides(cfg, x.mem, PcOf(x, t), ch);
  }

  lemma BarrierMarkerIff(cfg: Config, s: State, es: seq<Event>, t: Tid, ch: Choice)
    requires BarrierSafety.IsBarrier(cfg) && Init(cfg, s)
    requires var pc := PcOf(Exec(cfg, s, es), t); pc.OnBarrier? && pc.barrier.BarrierOpen?
    ensures var x := Exec(cfg, s, es);
            var p, pc' := PcOf(x, t).barrier, PcOf(Step(cfg, x, Client(t, ch)), t);
            && (p.closed == SENTINEL ==> pc' == OnBarrier(BarrierDone(Delivered(SENTINEL, Normal))))
            && (p.closed == SENTINEL <==>
                  pc'.OnBarrier? && pc'.barrier.BarrierDone? && ReturnsMarker(pc'.barrier.outcome))
  {
    BarrierSafety.InvAlways(cfg, s, es);
    hide Exec, Init, AllFit, ClientStep, ReturnsMarker;
    var x := Exec(cfg, s, es);
    assert BarrierSafety.ClientInv(x.mem, x.threads[t]);
    BarrierOpenDecides(cfg, x.mem, x.threads[t].barrier, ch);
  }

  lemma BarrierOpenDecides(cfg: Config, m: Mem, p: BarrierPc, ch: Choice)
    requires p.BarrierOpen? && BarrierSafety.Held(m, p.closed)
    ensures var pc' := ClientStep(cfg, m, OnBarrier(p), ch).pc;
            && (p.closed == SENTINEL ==> pc' == OnBarrier(BarrierDone(Delivered(SENTINEL, Normal))))
            && (p.closed == SENTINEL <==>
                  pc'.OnBarrier? && pc'.barrier.BarrierDone? && ReturnsMarker(pc'.barrier.outcome))
  {
    ValuePositive(m.open, p.closed);
  }

  // -- After the reap has stored the counters --

  /** The reap has marked both counters; expiration_ns and the wakes may still be to come. */
  predicate CountersReaped(s: State) {
    Gone(s.daemon) && s.mem.open == SENTINEL && s.mem.closed == SENTINEL
  }

  /** Past its arm and about to load the counters again, or already holding the marker. */
  predicate Misled(pc: Pc) {
    match pc
    case Enter(_, _, _, waiter) => waiter.TimerWaiter? || waiter.CounterWaiter?
    case Blocked(_, _, _, waiter) => waiter.TimerWaiter? || waiter.CounterWaiter?
    case OnTimer(TimerDeadline(_, _)) => true
    case OnTimer(TimerClosed(_)) => true
    case OnTimer(TimerOpen(_, closed)) => closed == SENTINEL
    case OnTimer(TimerDone(_, outcome)) => outcome == Delivered(SENTINEL, Normal)
    case OnCounter(CounterClosed(_)) => true
    case OnCounter(CounterOpen(_, closed)) => closed == SENTINEL
    case OnCounter(CounterClosed2(_, _)) => true
    case OnCounter(CounterOpen2(_, _, closed)) => closed == SENTINEL
    case OnCounter(CounterDone(_, outcome)) => outcome == Delivered(SENTINEL, Normal)
    case OnBarrier(BarrierClosed) => true
    case OnBarrier(BarrierOpen(closed)) => closed == SENTINEL
    case OnBarrier(BarrierDone(outcome)) => outcome == Delivered(SENTINEL, Normal)
    case _ => false
  }

  lemma MisledStays(cfg: Config, m: Mem, pc: Pc, ch: Choice)
    requires Misled(pc) && !BetweenCalls(pc) && m.open == SENTINEL && m.closed == SENTINEL
    ensures Misled(ClientStep(cfg, m, pc, ch).pc)
  {
    ValuePositive(SENTINEL, SENTINEL);
  }

  lemma MisledWakes(w: Option<Word>, pc: Pc)
    requires Misled(pc)
    ensures Misled(Wake(w, pc))
  {
  }

  lemma DaemonKeepsReaped(cfg: Config, m: Mem, d: Dpc, ch: DChoice)
    requires Gone(d) && m.open == SENTINEL && m.closed == SENTINEL
    ensures var o := DaemonStep(cfg, m, d, ch); o.mem.open == SENTINEL && o.mem.closed == SENTINEL
  {
  }

  lemma ClientKeepsReaped(cfg: Config, m: Mem, pc: Pc, ch: Choice)
    requires Stamps.IsWaitTier(cfg) && Fits(cfg, pc) && Lattice.CasRaises(pc) && m.open == SENTINEL
    ensures ClientStep(cfg, m, pc, ch).mem.open == SENTINEL
  {
  }

  ghost predicate Inv(cfg: Config, t: Tid, s: State) {
    AllFit(cfg, s) && Lattice.CasInv(s) && CountersReaped(s) && Misled(PcOf(s, t))
  }

  lemma StepKeeps(cfg: Config, t: Tid, s: State, e: Event)
    requires Stamps.IsWaitTier(cfg) && Inv(cfg, t, s) && ThisCallOnly(t, s, e)
    ensures Inv(cfg, t, Step(cfg, s, e))
  {
    hide ClientStep, DaemonStep, Misled, Fits, FitsDaemon, Gone, BetweenCalls;
    StepFits(cfg, s, e);
    Lattice.CasStep(cfg, s, e);
    GoneForGood(cfg, s, e);
    match e
    case Client(u, ch) =>
      IdleFits(cfg);
      ClientKeepsReaped(cfg, s.mem, PcOf(s, u), ch);
      Stamps.ClientLeaves(cfg, s.mem, PcOf(s, u), ch);
      if u == t {
        MisledStays(cfg, s.mem, PcOf(s, t), ch);
      } else {
        MisledWakes(ClientStep(cfg, s.mem, PcOf(s, u), ch).wakes, PcOf(s, t));
        MisledIsNotIdle();
      }
    case Daemon(ch) =>
      DaemonKeepsReaped(cfg, s.mem, s.daemon, ch);
      MisledWakes(DaemonStep(cfg, s.mem, s.daemon, ch).wakes, PcOf(s, t));
      MisledIsNotIdle();
    case _ =>
  }

  lemma IdleFits(cfg: Config)
    ensures Fits(cfg, Idle) && Lattice.CasRaises(Idle)
  {
  }

  lemma MisledIsNotIdle()
    ensures !Misled(Idle)
  {
  }

  /**
   After the counters have been reaped, a timer or counter wait past its arm, asleep or about to
   load the counters, and a barrier wait about to load them, only ever goes on to return Ok with the
   marker: never InterlockReaped, never a timeout, never an abort.
   */
  lemma ReapIsReportedAsSuccess(cfg: Config, s: State, before: seq<Event>, after: seq<Event>, t: Tid)
    requires Stamps.IsWaitTier(cfg) && Init(cfg, s)
    requires CountersReaped(Exec(cfg, s, before)) && Misled(PcOf(Exec(cfg, s, before), t))
    requires Along(cfg, Exec(cfg, s, before), after, (x, e) => ThisCallOnly(t, x, e))
    ensures var pc := PcOf(Exec(cfg, Exec(cfg, s, before), after), t);
            Misled(pc) && (BetweenCalls(pc) ==> ReturnedMarker(pc))
  {
    AlwaysFits(cfg, s, before);
    Lattice.CasAlwaysRaises(cfg, s, before);
    var rule := (x, e) => ThisCallOnly(t, x, e);
    var inv := (x: State) => Inv(cfg, t, x);
    forall x, e | inv(x) && rule(x, e) ensures inv(Step(cfg, x, e)) {
      StepKeeps(cfg, t, x, e);
    }
    AlongKeeps(cfg, inv, Exec(cfg, s, before), after, rule);
  }

  /** The call is over and its result is Ok with the marker. */
  predicate ReturnedMarker(pc: Pc) {
    || (pc.OnTimer? && pc.timer.TimerDone? && ReturnsMarker(pc.timer.outcome))
    || (pc.OnCounter? && pc.counterPc.CounterDone? && ReturnsMarker(pc.counterPc.outcome))
    || (pc.OnBarrier? && pc.barrier.BarrierDone? && ReturnsMarker(pc.barrier.outcome))
  }
}
