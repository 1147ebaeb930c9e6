/**
 The daemon's stamps on a wait tier nobody has attached to. Under every interleaving each
 stamp strictly raises closed_count, also when a client raises open_count between the
 daemon's load and its store, and a barrier is stamped once.
 */
module Stamps {
  import opened Core
  import opened Protocol

  predicate IsWaitTier(cfg: Config) {
    cfg.tier != Interlock && !cfg.attachers
  }

  function Last(p: seq<U64>): U64
    requires |p| > 0
  {
    p[|p| - 1]
  }

  /** A loaded pair the pass judged open, against the words as they are now. */
  predicate Loaded(m: Mem, open: U64, closed: U64) {
    |m.stamps| > 0 && closed == Last(m.stamps) && Value(open, closed) > 0
  }

  /** base: the clock value at creation. */
  ghost predicate DaemonInv(cfg: Config, m: Mem, d: Dpc, base: U64) {
    match d
    case DPublish(_, at) => base * NANOS_PER_MS <= at <= m.now
    case DTtl(at) => base <= at / NANOS_PER_MS
    case DOpen(at, _) => base <= at / NANOS_PER_MS
    case DClosed(at, _, open) => base <= at / NANOS_PER_MS && (cfg.tier == WaitBarrier ==> open == 1)
    case DExp(at, _, open, closed) =>
      base <= at / NANOS_PER_MS && |m.stamps| > 0 && closed == Last(m.stamps)
      && (cfg.tier == WaitBarrier ==> open == 1)
    case DWatch(open, closed) => Loaded(m, open, closed)
    case DBarrier(at, open, closed) => base <= at / NANOS_PER_MS && open == 1 && Loaded(m, open, closed)
    case DStamp(_, open, closed, value) =>
      Loaded(m, open, closed) && if cfg.tier == WaitBarrier then open == 1 && base <= value <= MAX_MS else open <= value
    case _ => true
  }

  /** Between two neighbouring stamps the word rises, unless it had passed 2^63. */
  ghost predicate Rising(p: seq<U64>) {
    forall i | 0 < i < |p| && p[i - 1] <= TWO63 :: p[i - 1] < p[i]
  }

  /** What a barrier's closed_count has held: 0, then at most one clock value. */
  predicate OneShot(p: seq<U64>) {
    |p| > 0 && p[0] == 0 && |p| <= 2 && (|p| == 2 ==> 1 <= p[1] <= MAX_MS)
  }

  /** Nothing but the last can be other than 0: what a barrier created at clock 0 may hold, too. */
  predicate Once(p: seq<U64>) {
    |p| > 0 && Last(p) <= MAX_MS && forall i | 0 <= i < |p| - 1 :: p[i] == 0
  }

  ghost predicate MemInv(cfg: Config, m: Mem, d: Dpc, base: U64) {
    && |m.stamps| > 0
    && base * NANOS_PER_MS <= m.now
    && (m.closed == Last(m.stamps) || (Gone(d) && m.closed == SENTINEL))
    && (cfg.tier == WaitBarrier && !Gone(d) ==> m.open == 1)
    && (cfg.tier == WaitBarrier ==> Once(m.stamps))
    && (cfg.tier == WaitBarrier && base >= 1 ==> OneShot(m.stamps))
    && ((cfg.tier == WaitBarrier ==> base >= 1) ==> Rising(m.stamps))
  }

  ghost predicate Inv(cfg: Config, s: State, base: U64) {
    && AllFit(cfg, s)
    && MemInv(cfg, s.mem, s.daemon, base)
    && DaemonInv(cfg, s.mem, s.daemon, base)
  }

  /** Clients of an unattached wait tier never touch closed_count, nor a barrier's open_count. */
  lemma ClientLeaves(cfg: Config, m: Mem, pc: Pc, ch: Choice)
    requires IsWaitTier(cfg) && Fits(cfg, pc)
    ensures var o := ClientStep(cfg, m, pc, ch).mem;
            && o.closed == m.closed && o.stamps == m.stamps && o.now == m.now && o.seen == m.seen
            && (cfg.tier == WaitBarrier ==> o.open == m.open)
  {
  }

  lemma StampKeeps(cfg: Config, m: Mem, d: Dpc, ch: DChoice, base: U64)
    requires IsWaitTier(cfg) && MemInv(cfg, m, d, base) && DaemonInv(cfg, m, d, base) && d.DStamp?
    ensures var o := DaemonStep(cfg, m, d, ch); MemInv(cfg, o.mem, o.daemon, base)
  {
    ValuePositive(d.open, d.closed);
  }

  /** The steps that load, and those that only move on. */
  lemma LoadKeeps(cfg: Config, m: Mem, d: Dpc, ch: DChoice, base: U64)
    requires IsWaitTier(cfg) && MemInv(cfg, m, d, base) && DaemonInv(cfg, m, d, base) && FitsDaemon(cfg, d)
    requires d.DOpen? || d.DClosed? || d.DExp? || d.DWatch? || d.DBarrier? || d.DTtl?
    ensures var o := DaemonStep(cfg, m, d, ch);
            MemInv(cfg, o.mem, o.daemon, base) && DaemonInv(cfg, o.mem, o.daemon, base)
  {
  }

  lemma DaemonKeeps(cfg: Config, m: Mem, d: Dpc, ch: DChoice, base: U64)
    requires IsWaitTier(cfg) && MemInv(cfg, m, d, base) && DaemonInv(cfg, m, d, base) && FitsDaemon(cfg, d)
    ensures var o := DaemonStep(cfg, m, d, ch);
            MemInv(cfg, o.mem, o.daemon, base) && DaemonInv(cfg, o.mem, o.daemon, base)
  {
    if d.DStamp? {
      StampKeeps(cfg, m, d, ch, base);
    } else if d.DOpen? || d.DClosed? || d.DExp? || d.DWatch? || d.DBarrier? || d.DTtl? {
      LoadKeeps(cfg, m, d, ch, base);
    } else if d.DPublish? {
      ReachedLine(d.at, base, NANOS_PER_MS);
    }
  }

  lemma StepKeeps(cfg: Config, s: State, e: Event, base: U64)
    requires IsWaitTier(cfg) && Inv(cfg, s, base)
    ensures Inv(cfg, Step(cfg, s, e), base)
  {
    StepFits(cfg, s, e);
    match e
    case Client(t, ch) => ClientLeaves(cfg, s.mem, PcOf(s, t), ch);
    case Daemon(ch) => DaemonKeeps(cfg, s.mem, s.daemon, ch, base);
    case _ =>
  }

  lemma InvAlways(cfg: Config, s: State, es: seq<Event>)
    requires IsWaitTier(cfg) && Init(cfg, s)
    ensures Inv(cfg, Exec(cfg, s, es), s.mem.clock)
  {
    var inv := (x: State) => Inv(cfg, x, s.mem.clock);
    forall x, e | inv(x) ensures inv(Step(cfg, x, e)) {
      StepKeeps(cfg, x, e, s.mem.clock);
    }
    ExecKeeps(cfg, inv, s, es);
  }

  /**
   The values closed_count takes before a reap, in order: each daemon stamp is above the value it
   replaces as long as that is at most 2^63; only a barrier may be stamped with 0 again, at clock 0.
   A barrier is stamped with at most one other value, and once in all if created at a later clock.
   */
  lemma StampsRise(cfg: Config, s: State, es: seq<Event>)
    requires IsWaitTier(cfg) && Init(cfg, s)
    ensures var m := Exec(cfg, s, es).mem;
            && (forall i | 0 < i < |m.stamps| && m.stamps[i - 1] <= TWO63 ::
                  m.stamps[i - 1] < m.stamps[i]
                  || (cfg.tier == WaitBarrier && s.mem.clock == 0 && m.stamps[i - 1] == m.stamps[i] == 0))
            && (cfg.tier == WaitBarrier ==> Once(m.stamps))
            && (cfg.tier == WaitBarrier && s.mem.clock >= 1 ==> |m.stamps| <= 2)
            && (m.closed != SENTINEL ==> m.closed in m.stamps)
  {
    InvAlways(cfg, s, es);
    hide Exec, Init, AllFit, DaemonInv;
  }

  // -- Beyond 2^63 the bound is needed --

  const COUNTER: Config := Config(WaitCounter, 1, false)

  const FIVE: CounterCall := CounterCall(5, 0)

  /** Further than 2^63 above any target the trail uses. */
  const HIGH: U64 := 0x8000_0000_0000_000A

  /** A pass over a counter that finds it open and its target reached, k steps in. */
  function PassTrail(s: State, k: nat): State {
    var m := s.mem;
    var published := m.(clock := 0, published := m.published + [0]);
    var read := published.(seen := m.seen + [m.watched]);
    match k
    case 0 => s
    case 1 => s.(daemon := DClock(true))
    case 2 => s.(daemon := DPublish(true, 0))
    case 3 => s.(mem := published, daemon := DTtl(0))
    case 4 => s.(mem := published, daemon := DOpen(0, 0))
    case 5 => s.(mem := published, daemon := DClosed(0, 0, m.open))
    case 6 => s.(mem := published, daemon := DExp(0, 0, m.open, m.closed))
    case 7 => s.(mem := published, daemon := DWatch(m.open, m.closed))
    case 8 => s.(mem := read, daemon := DStamp(0, m.open, m.closed, m.watched))
    case 9 => s.(mem := Stamped(read), daemon := DWaking([ClosedWord], ToIdle))
    case _ => s.(mem := Stamped(read))
  }

  function Stamped(m: Mem): Mem {
    m.(closed := m.watched, stamps := m.stamps + [m.watched])
  }

  predicate Deliverable(s: State) {
    && s.daemon == DIdle(true) && s.mem.now == 0 && s.mem.open <= s.mem.watched
    && Judge(s.mem.open, s.mem.closed, s.mem.expiration, 0) == Evaluate
    && forall t | t in s.threads :: !s.threads[t].Blocked?
  }

  lemma PassSteps(s: State, k: nat)
    requires Deliverable(s) && k < 10
    ensures Step(COUNTER, PassTrail(s, k), GO) == PassTrail(s, k + 1)
  {
    hide ClientStep, Judge;
    forall w ensures WakeAll(w, s.threads) == s.threads {}
  }

  lemma Passes(s: State)
    requires Deliverable(s)
    ensures Exec(COUNTER, s, seq(10, k => GO)) == PassTrail(s, 10)
  {
    hide Step, Judge, Deliverable;
    forall k: nat | k < 10 ensures PassTrail(s, k + 1) == Step(COUNTER, PassTrail(s, k), seq(10, i => GO)[k]) {
      PassSteps(s, k);
    }
    Follow(COUNTER, (k: nat) => PassTrail(s, k), seq(10, k => GO));
  }

  function FreshHigh(): State {
    FreshZero().(mem := FreshZero().mem.(watched := HIGH))
  }

  /** wait_until(5) sets its target. */
  function CallTrail(k: nat): State {
    var s := FreshHigh();
    match k
    case 0 => s
    case 1 => s.(threads := map[1 := OnCounter(CounterLoad(FIVE))])
    case 2 => s.(threads := map[1 := OnCounter(CounterCas(FIVE, 0))])
    case _ => s.(mem := s.mem.(open := 5), threads := map[1 := OnArm(ArmTime(0, CounterCaller(FIVE)))])
  }

  const CALL: Event := Do(1, OpCounter(FIVE))

  lemma CallSteps(k: nat)
    requires k < 3
    ensures Step(COUNTER, CallTrail(k), CALL) == CallTrail(k + 1)
  {
    hide Step, WordStep, ArmStep, TimerStep, CronStep, BarrierStep, DaemonStep;
    var s := CallTrail(k);
    ClientMoves(COUNTER, s, 1, CALL.choice);
    assert s.threads[1 := PcOf(CallTrail(k + 1), 1)] == CallTrail(k + 1).threads;
  }

  lemma Calls()
    ensures Exec(COUNTER, CallTrail(0), seq(3, k => CALL)) == CallTrail(3)
  {
    hide Step;
    forall k: nat | k < 3 ensures CallTrail(k + 1) == Step(COUNTER, CallTrail(k), seq(3, i => CALL)[k]) {
      CallSteps(k);
    }
    Follow(COUNTER, CallTrail, seq(3, k => CALL));
  }

  /**
   A reachable run in which two passes stamp the same value: the target 5 is met by a watched word more
   than 2^63 above it, so the signed value wraps and the entry still looks open.
   */
  lemma HighStampRepeats() returns (es: seq<Event>)
    ensures Init(COUNTER, FreshHigh())
    ensures Exec(COUNTER, FreshHigh(), es).mem.stamps == [0, HIGH, HIGH]
  {
    hide Exec, Step;
    var s1 := CallTrail(3);
    var s2 := PassTrail(s1, 10);
    ValuePositive(5, 0);
    ValuePositive(5, HIGH);
    Calls();
    Passes(s1);
    Passes(s2);
    var call, pass := seq(3, k => CALL), seq(10, k => GO);
    ExecConcat(COUNTER, FreshHigh(), call, pass);
    ExecConcat(COUNTER, FreshHigh(), call + pass, pass);
    es := call + pass + pass;
  }
}
