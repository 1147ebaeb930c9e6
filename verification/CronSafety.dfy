/**
 A WaitCron under every interleaving: the daemon's stamps lie in strictly increasing grid
 intervals, and so do the successive Ok results of each thread, which are never the marker.
 */
module CronSafety {
  import opened Core
  import opened Protocol
  import opened OneCall

  predicate IsCron(cfg: Config) {
    cfg.tier == WaitCron && !cfg.attachers
  }

  function Cell(cfg: Config, v: U64): nat {
    v / cfg.interval
  }

  /** Strictly increasing grid intervals, hence strictly increasing values. */
  predicate Spread(cfg: Config, p: seq<U64>) {
    forall i, j | 0 <= i < j < |p| :: Cell(cfg, p[i]) < Cell(cfg, p[j])
  }

  function LastStamp(m: Mem): U64
    requires |m.stamps| > 0
  {
    m.stamps[|m.stamps| - 1]
  }

  /** The line armed for the interval after the last stamp. */
  predicate OnGrid(cfg: Config, m: Mem) {
    |m.stamps| > 0 && m.open == NextLine(LastStamp(m), cfg.interval)
  }

  /** Between its stamp and its re-arm the daemon has yet to move open_count. */
  predicate MidFire(d: Dpc) {
    d.DRearm? || (d.DWaking? && d.after.ToRearm?)
  }

  predicate MemInv(cfg: Config, m: Mem, d: Dpc) {
    && |m.stamps| > 0 && Spread(cfg, m.stamps) && LastStamp(m) <= m.clock <= MAX_MS
    && m.clock * NANOS_PER_MS <= m.now
    && (m.closed == LastStamp(m) || (Gone(d) && m.closed == SENTINEL))
    && (!Gone(d) && !MidFire(d) ==> OnGrid(cfg, m))
  }

  predicate DaemonInv(cfg: Config, m: Mem, d: Dpc) {
    match d
    case DPublish(_, at) => m.clock * NANOS_PER_MS <= at <= m.now
    case DTtl(at) => at / NANOS_PER_MS == m.clock
    case DOpen(at, _) => at / NANOS_PER_MS == m.clock
    case DClosed(at, _, open) => at / NANOS_PER_MS == m.clock && open == m.open
    case DExp(at, _, open, _) => at / NANOS_PER_MS == m.clock && open == m.open
    case DStamp(at, _, _, value) => value == at / NANOS_PER_MS == m.clock && m.open <= value
    case DRearm(at) => |m.stamps| > 0 && at / NANOS_PER_MS == LastStamp(m)
    case DWaking(_, ToRearm(at)) => |m.stamps| > 0 && at / NANOS_PER_MS == LastStamp(m)
    case _ => true
  }

  /** The value of closed_count a call started from, as far as the thread has loaded it. */
  function Floor(m: Mem, pc: Pc): U64 {
    match pc
    case OnCron(CronClosed(initial)) => initial
    case OnCron(CronOpen(initial, _)) => initial
    case OnCron(CronExp(initial, _)) => initial
    case OnCron(CronTime(initial, _, _)) => initial
    case Enter(_, _, _, CronWaiter(initial)) => initial
    case Blocked(_, _, _, CronWaiter(initial)) => initial
    case _ => m.closed
  }

  predicate ClientInv(m: Mem, pc: Pc) {
    match pc
    case OnCron(CronOpen(initial, closed)) => initial < closed <= m.closed && closed in m.stamps
    case _ => Floor(m, pc) <= m.closed
  }

  /** Results so far: stamps, rising per thread, none above what the thread now waits past. */
  predicate OksInv(s: State) {
    && (forall i | 0 <= i < |s.oks| :: s.oks[i].1 in s.mem.stamps)
    && (forall i, j | 0 <= i < j < |s.oks| && s.oks[i].0 == s.oks[j].0 :: s.oks[i].1 < s.oks[j].1)
    && (forall i | 0 <= i < |s.oks| :: s.oks[i].1 <= Floor(s.mem, PcOf(s, s.oks[i].0)))
  }

  ghost predicate Inv(cfg: Config, s: State) {
    && AllFit(cfg, s)
    && MemInv(cfg, s.mem, s.daemon) && DaemonInv(cfg, s.mem, s.daemon)
    && (forall t | t in s.threads :: ClientInv(s.mem, s.threads[t]))
    && OksInv(s)
  }

  // -- Steps --

  predicate Grows(m: Mem, m': Mem) {
    m.closed <= m'.closed && m.stamps <= m'.stamps
  }

  lemma StampStays(m: Mem, m': Mem, v: U64)
    requires Grows(m, m') && v in m.stamps
    ensures v in m'.stamps
  {
    var i :| 0 <= i < |m.stamps| && m.stamps[i] == v;
    assert m'.stamps[i] == v;
  }

  lemma ClientStable(m: Mem, m': Mem, w: Option<Word>, pc: Pc)
    requires ClientInv(m, pc) && Grows(m, m')
    ensures ClientInv(m', Wake(w, pc)) && Floor(m, pc) <= Floor(m', Wake(w, pc))
  {
    if pc.OnCron? && pc.cron.CronOpen? {
      StampStays(m, m', pc.cron.closed);
    }
  }

  lemma CronKeeps(m: Mem, k: CronPc)
    requires |m.stamps| > 0 && ClientInv(m, OnCron(k))
    requires m.closed == LastStamp(m) || m.closed == SENTINEL
    ensures var o := CronStep(m, k);
            && o.mem == m && ClientInv(m, o.pc)
            && (Floor(m, OnCron(k)) <= Floor(m, o.pc))
            && (k.CronOpen? ==>
                  o.pc == OnCron(CronDone(Delivered(k.closed, if k.closed > m.open then Overrun else Normal))))
            && (!k.CronOpen? && o.pc.OnCron? && o.pc.cron.CronDone? && !k.CronDone? ==> !o.pc.cron.outcome.Delivered?)
  {
  }

  lemma ClientKeeps(cfg: Config, m: Mem, pc: Pc, ch: Choice)
    requires IsCron(cfg) && Fits(cfg, pc) && ClientInv(m, pc) && |m.stamps| > 0
    requires m.closed == LastStamp(m) || m.closed == SENTINEL
    ensures var o := ClientStep(cfg, m, pc, ch);
            && ClientInv(o.mem, o.pc) && Floor(m, pc) <= Floor(o.mem, o.pc)
            && o.mem == m.(expiration := o.mem.expiration, armed := o.mem.armed)
  {
    match pc
    case OnCron(k) =>
      if !BetweenCalls(pc) {
        CronKeeps(m, k);
      }
    case _ =>
  }

  lemma DaemonKeeps(cfg: Config, m: Mem, d: Dpc, ch: DChoice)
    requires IsCron(cfg) && FitsDaemon(cfg, d) && MemInv(cfg, m, d) && DaemonInv(cfg, m, d)
    ensures var o := DaemonStep(cfg, m, d, ch);
            && MemInv(cfg, o.mem, o.daemon) && DaemonInv(cfg, o.mem, o.daemon) && Grows(m, o.mem)
  {
    var o := DaemonStep(cfg, m, d, ch);
    if d.DStamp? {
      StampKeeps(cfg, m, d.value);
    } else if d.DPublish? {
      ReachedLine(d.at, m.clock, NANOS_PER_MS);
      MsBound(d.at);
    }
  }

  /** A value at or past the armed line lies in a later grid interval than every stamp. */
  lemma StampKeeps(cfg: Config, m: Mem, value: U64)
    requires |m.stamps| > 0 && Spread(cfg, m.stamps) && OnGrid(cfg, m) && LastStamp(m) <= MAX_MS
    requires m.open <= value
    ensures Spread(cfg, m.stamps + [value]) && LastStamp(m) < value
  {
    var last := LastStamp(m);
    NextLineIsLeast(last, cfg.interval);
    ReachedLine(value, Cell(cfg, last) + 1, cfg.interval);
    var p := m.stamps + [value];
    forall i, j | 0 <= i < j < |p| ensures Cell(cfg, p[i]) < Cell(cfg, p[j]) {
      if j == |m.stamps| {
        assert Cell(cfg, p[i]) <= Cell(cfg, last);
      }
    }
  }

  lemma StepKeeps(cfg: Config, s: State, e: Event)
    requires IsCron(cfg) && Inv(cfg, s)
    ensures Inv(cfg, Step(cfg, s, e))
  {
    StepFits(cfg, s, e);
    ActorKeeps(cfg, s, e);
    match e
    case Client(t, ch) => ClientStepKeeps(cfg, s, t, ch);
    case _ => DaemonStepKeeps(cfg, s, e);
  }

  lemma ActorKeeps(cfg: Config, s: State, e: Event)
    requires IsCron(cfg) && Inv(cfg, s)
    ensures var s' := Step(cfg, s, e);
            && MemInv(cfg, s'.mem, s'.daemon) && DaemonInv(cfg, s'.mem, s'.daemon) && Grows(s.mem, s'.mem)
  {
    hide Contract, ArmStep, WordStep, TimerStep, CounterStep, CronStep, BarrierStep, ClientStep, DaemonStep, NextLine;
    match e
    case Client(t, ch) => ClientKeeps(cfg, s.mem, PcOf(s, t), ch);
    case Daemon(ch) => DaemonKeeps(cfg, s.mem, s.daemon, ch);
    case _ =>
  }

  lemma DaemonStepKeeps(cfg: Config, s: State, e: Event)
    requires IsCron(cfg) && Inv(cfg, s) && !e.Client? && Grows(s.mem, Step(cfg, s, e).mem)
    ensures var s' := Step(cfg, s, e);
            && (forall t | t in s'.threads :: ClientInv(s'.mem, s'.threads[t]))
            && OksInv(s')
  {
    var s' := Step(cfg, s, e);
    var w := if e.Daemon? then DaemonStep(cfg, s.mem, s.daemon, e.dchoice).wakes else None;
    forall t | t in s.threads
      ensures ClientInv(s'.mem, s'.threads[t]) && Floor(s.mem, s.threads[t]) <= Floor(s'.mem, s'.threads[t])
    {
      ClientStable(s.mem, s'.mem, w, s.threads[t]);
    }
    OksStay(s, s');
  }

  lemma OksStay(s: State, s': State)
    requires OksInv(s) && Grows(s.mem, s'.mem) && s'.oks == s.oks
    requires forall t: Tid :: Floor(s.mem, PcOf(s, t)) <= Floor(s'.mem, PcOf(s', t))
    ensures OksInv(s')
  {
    forall i | 0 <= i < |s.oks|
      ensures s.oks[i].1 in s'.mem.stamps && s.oks[i].1 <= Floor(s'.mem, PcOf(s', s.oks[i].0))
    {
      StampStays(s.mem, s'.mem, s.oks[i].1);
    }
  }

  lemma ClientStepKeeps(cfg: Config, s: State, t: Tid, ch: Choice)
    requires IsCron(cfg) && Inv(cfg, s)
    ensures var s' := Step(cfg, s, Client(t, ch));
            && (forall u | u in s'.threads :: ClientInv(s'.mem, s'.threads[u]))
            && OksInv(s')
  {
    var s' := Step(cfg, s, Client(t, ch));
    ThreadsKeep(cfg, s, t, ch);
    OksStay(s, s'.(oks := s.oks));
    if s'.oks != s.oks {
      OksGrow(cfg, s, t, ch);
    }
  }

  lemma ThreadsKeep(cfg: Config, s: State, t: Tid, ch: Choice)
    requires IsCron(cfg) && Inv(cfg, s)
    ensures var s' := Step(cfg, s, Client(t, ch));
            && Grows(s.mem, s'.mem)
            && (forall u | u in s'.threads :: ClientInv(s'.mem, s'.threads[u]))
            && (forall u: Tid :: Floor(s.mem, PcOf(s, u)) <= Floor(s'.mem, PcOf(s', u)))
  {
    var s' := Step(cfg, s, Client(t, ch));
    var o := ClientStep(cfg, s.mem, PcOf(s, t), ch);
    ClientKeeps(cfg, s.mem, PcOf(s, t), ch);
    forall u: Tid | u != t
      ensures u in s.threads ==> ClientInv(s'.mem, s'.threads[u])
      ensures Floor(s.mem, PcOf(s, u)) <= Floor(s'.mem, PcOf(s', u))
    {
      ClientStable(s.mem, s'.mem, o.wakes, PcOf(s, u));
    }
  }

  /** A result of WaitCron::wait is above every earlier one of the same thread. */
  lemma OksGrow(cfg: Config, s: State, t: Tid, ch: Choice)
    requires IsCron(cfg) && Inv(cfg, s)
    requires var s' := Step(cfg, s, Client(t, ch)); s'.oks != s.oks && OksInv(s'.(oks := s.oks))
    ensures OksInv(Step(cfg, s, Client(t, ch)))
  {
    hide DaemonStep, ArmStep, WordStep, TimerStep, CounterStep, CronStep, BarrierStep;
    hide DaemonInv, Spread, Fits, FitsDaemon, NextLine;
    var s' := Step(cfg, s, Client(t, ch));
    var pc := PcOf(s, t);
    assert ClientInv(s.mem, pc);
    CronKeeps(s.mem, pc.cron);
    var v := pc.cron.closed;
    assert s'.mem == s.mem && s'.oks == s.oks + [(t, v)];
    assert Floor(s'.mem, PcOf(s', t)) == s.mem.closed;
    forall i | 0 <= i < |s.oks| && s.oks[i].0 == t ensures s.oks[i].1 < v {
      assert s.oks[i].1 <= Floor(s.mem, pc);
    }
  }

  lemma InvAlways(cfg: Config, s: State, es: seq<Event>)
    requires IsCron(cfg) && Init(cfg, s)
    ensures Inv(cfg, Exec(cfg, s, es))
  {
    MsBound(s.mem.now);
    ReachedLine(s.mem.now, s.mem.clock, NANOS_PER_MS);
    var inv := (x: State) => Inv(cfg, x);
    forall x, e | inv(x) ensures inv(Step(cfg, x, e)) {
      StepKeeps(cfg, x, e);
    }
    ExecKeeps(cfg, inv, s, es);
  }

  // -- The theorems --

  lemma Ordered(cfg: Config, p: seq<U64>, a: U64, b: U64)
    requires Spread(cfg, p) && a in p && b in p && a < b
    ensures Cell(cfg, a) < Cell(cfg, b)
  {
    var i :| 0 <= i < |p| && p[i] == a;
    var j :| 0 <= j < |p| && p[j] == b;
    if j < i {
      DivMonotone(a, b, cfg.interval);
    }
  }

  /** Results are stamps; two of one thread never share a grid interval, and come in order. */
  predicate NeverRepeats(cfg: Config, s: State) {
    && (forall i | 0 <= i < |s.oks| :: s.oks[i].1 in s.mem.stamps && s.oks[i].1 <= MAX_MS)
    && (forall i, j | 0 <= i < j < |s.oks| && s.oks[i].0 == s.oks[j].0 ::
          Cell(cfg, s.oks[i].1) < Cell(cfg, s.oks[j].1))
  }

  /**
   Across all interleavings, any two Ok results of one thread are daemon stamps, the later one
   in a strictly later grid interval; so no grid line is reported twice, even when the thread
   reads between the daemon's stamp and its re-arm. The marker is never a result.
   */
  lemma CronNeverRepeats(cfg: Config, s: State, es: seq<Event>)
    requires IsCron(cfg) && Init(cfg, s)
    ensures NeverRepeats(cfg, Exec(cfg, s, es))
  {
    InvAlways(cfg, s, es);
    var x := Exec(cfg, s, es);
    forall i | 0 <= i < |x.oks| ensures x.oks[i].1 <= MAX_MS {
      var k :| 0 <= k < |x.mem.stamps| && x.mem.stamps[k] == x.oks[i].1;
      if k < |x.mem.stamps| - 1 && x.oks[i].1 > LastStamp(x.mem) {
        DivMonotone(LastStamp(x.mem), x.oks[i].1, cfg.interval);
      }
    }
    forall i, j | 0 <= i < j < |x.oks| && x.oks[i].0 == x.oks[j].0
      ensures Cell(cfg, x.oks[i].1) < Cell(cfg, x.oks[j].1)
    {
      Ordered(cfg, x.mem.stamps, x.oks[i].1, x.oks[j].1);
    }
  }

  /**
   The stamps themselves never share a grid interval, and whenever the daemon is not in the
   middle of firing or reaping, open_count is the first line after the last stamp.
   */
  lemma CronStaysOnGrid(cfg: Config, s: State, es: seq<Event>)
    requires IsCron(cfg) && Init(cfg, s)
    ensures var x := Exec(cfg, s, es);
            && Spread(cfg, x.mem.stamps)
            && (!Gone(x.daemon) && !MidFire(x.daemon) ==>
                  x.mem.open == (Cell(cfg, x.mem.closed) + 1) * cfg.interval)
  {
    InvAlways(cfg, s, es);
    var x := Exec(cfg, s, es);
    NextLineIsLeast(LastStamp(x.mem), cfg.interval);
  }

  // -- A fire is returned --

  /** Past `initial`: at the top of the loop, a later stamp loaded, or a later stamp returned. */
  predicate Returning(pc: Pc, initial: U64) {
    match pc
    case OnCron(CronClosed(i)) => i == initial
    case OnCron(CronOpen(i, closed)) => i == initial < closed
    case OnCron(CronDone(Delivered(v, _))) => initial < v
    case _ => false
  }

  function Left(pc: Pc): nat {
    match pc
    case OnCron(CronClosed(_)) => 2
    case OnCron(CronOpen(_, _)) => 1
    case _ => 0
  }

  lemma ReturningStep(cfg: Config, m: Mem, pc: Pc, ch: Choice, w: Option<Word>, initial: U64)
    requires Returning(pc, initial)
    ensures Wake(w, pc) == pc && (Left(pc) == 0 <==> BetweenCalls(pc))
    ensures initial < m.closed < SENTINEL && !BetweenCalls(pc) ==>
              var pc' := ClientStep(cfg, m, pc, ch).pc; Returning(pc', initial) && Left(pc') < Left(pc)
  {
  }

  lemma {:induction false} FiredReturns(cfg: Config, s: State, es: seq<Event>, t: Tid, initial: U64)
    requires IsCron(cfg) && Inv(cfg, s) && Returning(PcOf(s, t), initial) && initial < s.mem.closed
    requires Along(cfg, s, es, (x, e) => ThisCallOnly(t, x, e))
    ensures var y := Exec(cfg, s, es);
            Gone(y.daemon)
            || (Returning(PcOf(y, t), initial) && Left(PcOf(y, t)) + StepsTaken(t, es) <= Left(PcOf(s, t)))
    decreases |es|
  {
    hide Step, ClientStep, Returning, Left, BetweenCalls, Wake, AllFit, ClientInv, DaemonInv, OksInv, Spread, OnGrid;
    if es != [] {
      var e, s' := es[0], Step(cfg, s, es[0]);
      StepKeeps(cfg, s, e);
      ActorKeeps(cfg, s, e);
      if Gone(s.daemon) {
        StaysGone(cfg, s, es);
      } else {
        var w := NextPc(cfg, t, s, e);
        var ch := if e.Client? then e.choice else Choice(OpCron, false, Interrupted);
        ReturningStep(cfg, s.mem, PcOf(s, t), ch, w, initial);
        FiredReturns(cfg, s', es[1..], t, initial);
      }
    }
  }

  /**
   Once the daemon has fired past the value a call started from, an iteration that starts returns Ok with a
   later value within two own steps; it neither sleeps nor reports Reaped, for as long as the daemon does
   not go on to reap the entry.
   */
  lemma FireIsReturned(cfg: Config, s: State, before: seq<Event>, after: seq<Event>, t: Tid, initial: U64)
    requires IsCron(cfg) && Init(cfg, s)
    requires var x := Exec(cfg, s, before);
             PcOf(x, t) == OnCron(CronClosed(initial)) && initial < x.mem.closed && !Gone(x.daemon)
    requires Along(cfg, Exec(cfg, s, before), after, (x, e) => ThisCallOnly(t, x, e))
    ensures var y := Exec(cfg, Exec(cfg, s, before), after);
            Gone(y.daemon)
            || (&& Returning(PcOf(y, t), initial)
                && (StepsTaken(t, after) >= 2 ==> BetweenCalls(PcOf(y, t))))
  {
    InvAlways(cfg, s, before);
    hide Exec, Init, Along, Inv;
    var y := Exec(cfg, Exec(cfg, s, before), after);
    FiredReturns(cfg, Exec(cfg, s, before), after, t, initial);
    if !Gone(y.daemon) {
      ReturningStep(cfg, y.mem, PcOf(y, t), Choice(OpCron, false, Interrupted), None, initial);
    }
  }
}
