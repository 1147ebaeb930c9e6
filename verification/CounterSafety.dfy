/**
 WaitCounter::wait_until under every interleaving: what it returns was really held by the
 watched word, and a crossing that precedes a pass is delivered by that pass.
 */
module CounterSafety {
  import opened Core
  import opened Protocol
  import Lattice

  predicate IsCounter(cfg: Config) {
    cfg.tier == WaitCounter && !cfg.attachers
  }

  /** The initial zero, a value the daemon read from the watched word, or the reap marker. */
  ghost predicate Known(m: Mem, v: U64) {
    v == 0 || v in m.seen || (v == SENTINEL && m.open == SENTINEL)
  }

  ghost predicate DaemonInv(m: Mem, d: Dpc) {
    match d
    case DStamp(_, _, _, value) => value in m.seen
    case DReapClosed => m.open == SENTINEL
    case _ => true
  }

  predicate TargetSet(m: Mem, c: CounterCall) {
    c.target <= m.open
  }

  ghost predicate CounterInv(m: Mem, p: CounterPc) {
    match p
    case CounterLoad(_) => true
    case CounterCas(c, current) => current < c.target
    case CounterClosed(c) => TargetSet(m, c)
    case CounterOpen(c, closed) => TargetSet(m, c) && Known(m, closed)
    case CounterClosed2(c, _) => TargetSet(m, c)
    case CounterOpen2(c, _, closed) => TargetSet(m, c) && Known(m, closed)
    case CounterExp2(c, _, _) => TargetSet(m, c)
    case CounterDone(c, outcome) =>
      outcome.Delivered? && !outcome.state.Timeout? ==> Known(m, outcome.value) && c.target <= outcome.value
  }

  ghost predicate ClientInv(m: Mem, pc: Pc) {
    match pc
    case OnArm(a) => a.caller.CounterCaller? ==> TargetSet(m, a.caller.counter)
    case Enter(_, _, _, waiter) => waiter.CounterWaiter? ==> TargetSet(m, waiter.counter)
    case Blocked(_, _, _, waiter) => waiter.CounterWaiter? ==> TargetSet(m, waiter.counter)
    case OnCounter(p) => CounterInv(m, p)
    case _ => true
  }

  ghost predicate Inv(cfg: Config, s: State) {
    && AllFit(cfg, s)
    && Known(s.mem, s.mem.closed) && DaemonInv(s.mem, s.daemon)
    && forall t | t in s.threads :: ClientInv(s.mem, s.threads[t])
  }

  ghost predicate Grows(m: Mem, m': Mem) {
    m.open <= m'.open && m.seen <= m'.seen
  }

  lemma KnownStays(m: Mem, m': Mem, v: U64)
    requires Grows(m, m') && Known(m, v)
    ensures Known(m', v)
  {
    if v in m.seen {
      var i :| 0 <= i < |m.seen| && m.seen[i] == v;
      assert m'.seen[i] == v;
    }
  }

  lemma ClientStable(m: Mem, m': Mem, pc: Pc)
    requires ClientInv(m, pc) && Grows(m, m')
    ensures ClientInv(m', pc)
  {
    forall v | Known(m, v) ensures Known(m', v) {
      KnownStays(m, m', v);
    }
  }

  lemma CounterKeeps(m: Mem, p: CounterPc, spurious: bool)
    requires Known(m, m.closed) && CounterInv(m, p)
    ensures var o := CounterStep(m, p, spurious);
            && ClientInv(o.mem, o.pc) && Grows(m, o.mem) && o.mem == m.(open := o.mem.open)
  {
  }

  lemma ClientKeeps(cfg: Config, m: Mem, pc: Pc, ch: Choice)
    requires IsCounter(cfg) && Fits(cfg, pc) && Known(m, m.closed) && ClientInv(m, pc)
    ensures var o := ClientStep(cfg, m, pc, ch);
            && ClientInv(o.mem, o.pc) && Grows(m, o.mem)
            && o.mem == m.(open := o.mem.open, expiration := o.mem.expiration, armed := o.mem.armed)
  {
    match pc
    case OnCounter(p) => CounterKeeps(m, p, ch.spurious);
    case _ =>
  }

  lemma DaemonKeeps(cfg: Config, m: Mem, d: Dpc, ch: DChoice)
    requires IsCounter(cfg) && FitsDaemon(cfg, d) && Known(m, m.closed) && DaemonInv(m, d)
    ensures var o := DaemonStep(cfg, m, d, ch);
            Known(o.mem, o.mem.closed) && DaemonInv(o.mem, o.daemon) && Grows(m, o.mem)
  {
    var o := DaemonStep(cfg, m, d, ch);
    if d.DWatch? {
      assert o.mem.seen[|m.seen|] == m.watched;
      KnownStays(m, o.mem, m.closed);
    }
  }

  lemma StepKeeps(cfg: Config, s: State, e: Event)
    requires IsCounter(cfg) && Inv(cfg, s)
    ensures Inv(cfg, Step(cfg, s, e))
  {
    StepFits(cfg, s, e);
    ActorKeeps(cfg, s, e);
    OthersKeep(cfg, s, e);
  }

  lemma ActorKeeps(cfg: Config, s: State, e: Event)
    requires IsCounter(cfg) && Inv(cfg, s)
    ensures var s' := Step(cfg, s, e);
            && Known(s'.mem, s'.mem.closed) && DaemonInv(s'.mem, s'.daemon) && Grows(s.mem, s'.mem)
            && (e.Client? ==> ClientInv(s'.mem, s'.threads[e.t]))
  {
    match e
    case Client(t, ch) =>
      ClientKeeps(cfg, s.mem, PcOf(s, t), ch);
      KnownStays(s.mem, Step(cfg, s, e).mem, s.mem.closed);
    case Daemon(ch) => DaemonKeeps(cfg, s.mem, s.daemon, ch);
    case _ =>
  }

  lemma OthersKeep(cfg: Config, s: State, e: Event)
    requires Inv(cfg, s) && Grows(s.mem, Step(cfg, s, e).mem)
    ensures forall t | t in s.threads && !(e.Client? && e.t == t) ::
              ClientInv(Step(cfg, s, e).mem, Step(cfg, s, e).threads[t])
  {
    var s' := Step(cfg, s, e);
    forall t | t in s.threads && !(e.Client? && e.t == t) ensures ClientInv(s'.mem, s'.threads[t]) {
      ClientStable(s.mem, s'.mem, s.threads[t]);
    }
  }

  lemma InvAlways(cfg: Config, s: State, es: seq<Event>)
    requires IsCounter(cfg) && Init(cfg, s)
    ensures Inv(cfg, Exec(cfg, s, es))
  {
    var inv := (x: State) => Inv(cfg, x);
    forall x, e | inv(x) ensures inv(Step(cfg, x, e)) {
      StepKeeps(cfg, x, e);
    }
    ExecKeeps(cfg, inv, s, es);
  }

  /** What a call that is over is promised of a result other than Timeout. */
  ghost predicate Sound(m: Mem, pc: Pc) {
    pc.OnCounter? && pc.counterPc.CounterDone?
    && pc.counterPc.outcome.Delivered? && !pc.counterPc.outcome.state.Timeout? ==>
      var (target, v) := (pc.counterPc.counter.target, pc.counterPc.outcome.value);
      && target <= v
      && (target >= 1 ==> v in m.seen || (v == SENTINEL && m.open == SENTINEL))
  }

  /**
   wait_until with a positive target that returns Normal or Overrun returns a value at or
   above the target, and the daemon read that value from the watched word. The one exception
   is the marker of a reap, and then open_count holds it too.
   */
  lemma CounterSound(cfg: Config, s: State, es: seq<Event>, t: Tid)
    requires IsCounter(cfg) && Init(cfg, s)
    ensures Sound(Exec(cfg, s, es).mem, PcOf(Exec(cfg, s, es), t))
  {
    InvAlways(cfg, s, es);
    hide Exec, Init, AllFit;
  }

  // -- No missed crossing --

  /** The daemon finishes its cycle without starting another; the watched word never falls. */
  predicate OnePass(s: State, e: Event) {
    && (e.Daemon? ==> e.dchoice.op.Rest?)
    && (e.WatchedSet? ==> s.mem.watched <= e.v)
  }

  /** The signed value of the pair does not hide a target that is still ahead. */
  predicate Visible(target: U64, closed0: U64) {
    target < closed0 + TWO63
  }

  /** How far the pass has come; target and closed0 are the words it started from. */
  predicate PassAt(m: Mem, d: Dpc, target: U64, closed0: U64, ttlAt: U64) {
    match d
    case DOpen(_, n) => n == ttlAt && m.closed == closed0
    case DClosed(_, n, open) => n == ttlAt && m.closed == closed0 && open == target
    case DExp(_, n, open, closed) => n == ttlAt && m.closed == closed == closed0 && open == target
    case DWatch(open, _) => Visible(target, closed0) && open == target
    case DStamp(_, open, _, value) => Visible(target, closed0) && open == target && target <= value
    case DWaking(_, after) => Visible(target, closed0) && after.ToIdle? && target <= m.closed
    case DIdle(live) => live && if Visible(target, closed0) then target <= m.closed else m.closed == closed0
    case _ => false
  }

  /** The pass is on its way, unless the entry was terminated or somebody raised the target. */
  predicate Crossing(s: State, target: U64, closed0: U64, ttlAt: U64) {
    || s.mem.expiration == SENTINEL || s.mem.open > target
    || (&& s.mem.open == target <= s.mem.watched && ttlAt < s.mem.expiration
        && PassAt(s.mem, s.daemon, target, closed0, ttlAt))
  }

  lemma PassAdvances(cfg: Config, m: Mem, d: Dpc, ch: DChoice, target: U64, closed0: U64, ttlAt: U64)
    requires IsCounter(cfg) && ch.op.Rest? && PassAt(m, d, target, closed0, ttlAt)
    requires m.open == target <= m.watched && target != SENTINEL && closed0 != SENTINEL
    requires ttlAt < m.expiration < SENTINEL
    ensures var o := DaemonStep(cfg, m, d, ch);
            && PassAt(o.mem, o.daemon, target, closed0, ttlAt)
            && o.mem.open == m.open && o.mem.expiration == m.expiration && o.mem.watched == m.watched
  {
    if d.DExp? {
      ValuePositive(d.open, d.closed);
    }
  }

  lemma CrossingStep(cfg: Config, s: State, e: Event, target: U64, closed0: U64, ttlAt: U64)
    requires IsCounter(cfg) && Inv(cfg, s) && OnePass(s, e) && target != SENTINEL && closed0 != SENTINEL
    requires Crossing(s, target, closed0, ttlAt)
    ensures Crossing(Step(cfg, s, e), target, closed0, ttlAt)
  {
    hide ClientStep, DaemonStep, PassAt, AllFit, DaemonInv;
    ActorKeeps(cfg, s, e);
    Lattice.StepRaises(cfg, s, e);
    if s.mem.expiration != SENTINEL && s.mem.open == target {
      match e
      case Client(t, ch) =>
        FitsOf(cfg, s, t);
        ClientKeeps(cfg, s.mem, PcOf(s, t), ch);
        PassIgnoresClients(s.mem, Step(cfg, s, e).mem, s.daemon, target, closed0, ttlAt);
      case Daemon(ch) => PassAdvances(cfg, s.mem, s.daemon, ch, target, closed0, ttlAt);
      case _ => PassIgnoresClients(s.mem, Step(cfg, s, e).mem, s.daemon, target, closed0, ttlAt);
    }
  }

  lemma FitsOf(cfg: Config, s: State, t: Tid)
    requires Inv(cfg, s)
    ensures Fits(cfg, PcOf(s, t)) && ClientInv(s.mem, PcOf(s, t))
  {
  }

  lemma PassIgnoresClients(m: Mem, m': Mem, d: Dpc, target: U64, closed0: U64, ttlAt: U64)
    requires m'.closed == m.closed
    ensures PassAt(m', d, target, closed0, ttlAt) == PassAt(m, d, target, closed0, ttlAt)
  {
  }

  /**
   A crossing that precedes a pass: the pass is about to load a live entry, neither counter marked,
   whose target the watched word has reached, and the watched word does not fall. Unless
   expiration_ns is terminated or another call raises the target meanwhile, the pass keeps the
   entry, and it delivers if and only if the target leads closed_count by less than 2^63.
   Otherwise it leaves closed_count as it was.
   */
  lemma CrossingDelivered(cfg: Config, s: State, before: seq<Event>, during: seq<Event>)
    requires IsCounter(cfg) && Init(cfg, s)
    requires var x := Exec(cfg, s, before);
             && x.daemon.DOpen? && x.daemon.ttlAt < x.mem.expiration
             && x.mem.open <= x.mem.watched && x.mem.open != SENTINEL && x.mem.closed != SENTINEL
    requires Along(cfg, Exec(cfg, s, before), during, OnePass)
    ensures var x, y := Exec(cfg, s, before), Exec(cfg, Exec(cfg, s, before), during);
            y.daemon.DIdle? && y.mem.expiration != SENTINEL && y.mem.open == x.mem.open ==>
              && y.daemon == DIdle(true)
              && (x.mem.open <= y.mem.closed <==> x.mem.open < x.mem.closed + TWO63)
              && (x.mem.open >= x.mem.closed + TWO63 ==> y.mem.closed == x.mem.closed)
  {
    InvAlways(cfg, s, before);
    hide Init, Step, AllFit;
    var x := Exec(cfg, s, before);
    var target, closed0, ttlAt := x.mem.open, x.mem.closed, x.daemon.ttlAt;
    var inv := (z: State) => Inv(cfg, z) && Crossing(z, target, closed0, ttlAt) && z.mem.open >= target;
    forall z, e | inv(z) && OnePass(z, e) ensures inv(Step(cfg, z, e)) {
      StepKeeps(cfg, z, e);
      ActorKeeps(cfg, z, e);
      CrossingStep(cfg, z, e, target, closed0, ttlAt);
    }
    AlongKeeps(cfg, inv, x, during, OnePass);
  }

  // -- A target that is never delivered --

  const COUNTER: Config := Config(WaitCounter, 1, false)

  const FAR: CounterCall := CounterCall(0x8000_0000_0000_0000, 0)

  /** A fresh counter whose watched word has already reached 2^63. */
  function FreshFar(): State {
    FreshZero().(mem := FreshZero().mem.(watched := FAR.target))
  }

  /** wait_until(2^63) sets its target; then a whole pass. */
  function FarTrail(k: nat): State {
    var s := FreshFar();
    var m := s.mem.(open := FAR.target);
    var passed := State(m.(published := [0, 0]), map[1 := FarPc()], DIdle(true), []);
    match k
    case 0 => s
    case 1 => s.(threads := map[1 := OnCounter(CounterLoad(FAR))])
    case 2 => s.(threads := map[1 := OnCounter(CounterCas(FAR, 0))])
    case 3 => s.(mem := m, threads := map[1 := FarPc()])
    case 4 => s.(mem := m, threads := map[1 := FarPc()], daemon := DClock(true))
    case 5 => s.(mem := m, threads := map[1 := FarPc()], daemon := DPublish(true, 0))
    case 6 => passed.(daemon := DTtl(0))
    case 7 => passed.(daemon := DOpen(0, 0))
    case 8 => passed.(daemon := DClosed(0, 0, FAR.target))
    case 9 => passed.(daemon := DExp(0, 0, FAR.target, 0))
    case _ => passed
  }

  function FarPc(): Pc {
    OnArm(ArmTime(0, CounterCaller(FAR)))
  }

  function FarEvent(k: nat): Event {
    if k < 3 then Do(1, OpCounter(FAR)) else GO
  }

  lemma FarCalls(k: nat)
    requires k < 3
    ensures Step(COUNTER, FarTrail(k), FarEvent(k)) == FarTrail(k + 1)
  {
    hide Step, WordStep, ArmStep, TimerStep, CronStep, BarrierStep, DaemonStep;
    var s := FarTrail(k);
    ClientMoves(COUNTER, s, 1, FarEvent(k).choice);
    assert s.threads[1 := PcOf(FarTrail(k + 1), 1)] == FarTrail(k + 1).threads;
  }

  lemma FarPasses(k: nat)
    requires 3 <= k < 10
    ensures Step(COUNTER, FarTrail(k), FarEvent(k)) == FarTrail(k + 1)
  {
    hide ClientStep;
    ValuePositive(FAR.target, 0);
    assert WakeAll(None, FarTrail(k).threads) == FarTrail(k).threads;
    assert [0 as U64] + [0] == [0, 0];
  }

  /**
   A reachable live counter with the target 2^63 and closed_count 0, its watched word at the target:
   the signed value is the least i64, and the whole pass leaves the entry undelivered.
   */
  lemma FarTargetIsMissed() returns (es: seq<Event>)
    ensures Init(COUNTER, FreshFar())
    ensures var x := Exec(COUNTER, FreshFar(), es);
            && x.daemon == DIdle(true) && x.mem.published == [0, 0] && x.mem.stamps == [0]
            && x.mem.closed == 0 < x.mem.open == x.mem.watched == TWO63
            && Judge(x.mem.open, x.mem.closed, x.mem.expiration, x.mem.now) == Skip
  {
    hide Exec, Step;
    es := seq(10, i requires i >= 0 => FarEvent(i));
    forall i: nat | i < 10 ensures FarTrail(i + 1) == Step(COUNTER, FarTrail(i), es[i]) {
      if i < 3 {
        FarCalls(i);
      } else {
        FarPasses(i);
      }
    }
    Follow(COUNTER, FarTrail, es);
    ValuePositive(FAR.target, 0);
  }
}
