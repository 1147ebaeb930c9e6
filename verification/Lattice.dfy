/**
 The expiration word under every interleaving: it never falls, SENTINEL in it is
 permanent, successful arms stay honoured, and nothing arms a terminated interlock.
 The counters give no such guarantee.
 */
module Lattice {
  import opened Core
  import opened Protocol

  // -- Never decreases --

  lemma ClientRaises(cfg: Config, m: Mem, pc: Pc, ch: Choice)
    ensures ClientStep(cfg, m, pc, ch).mem.expiration >= m.expiration
  {
  }

  lemma DaemonRaises(cfg: Config, m: Mem, d: Dpc, ch: DChoice)
    ensures DaemonStep(cfg, m, d, ch).mem.expiration >= m.expiration
  {
  }

  lemma StepRaises(cfg: Config, s: State, e: Event)
    ensures Step(cfg, s, e).mem.expiration >= s.mem.expiration
  {
    match e
    case Client(t, ch) => ClientRaises(cfg, s.mem, PcOf(s, t), ch);
    case Daemon(ch) => DaemonRaises(cfg, s.mem, s.daemon, ch);
    case _ =>
  }

  /** From any state, through any interleaving, expiration_ns never falls. */
  lemma ExpirationNeverFalls(cfg: Config, s: State, es: seq<Event>)
    ensures Exec(cfg, s, es).mem.expiration >= s.mem.expiration
    ensures s.mem.expiration == SENTINEL ==> Exec(cfg, s, es).mem.expiration == SENTINEL
  {
    var inv := (x: State) => x.mem.expiration >= s.mem.expiration;
    forall x, e | inv(x) ensures inv(Step(cfg, x, e)) {
      StepRaises(cfg, x, e);
    }
    ExecKeeps(cfg, inv, s, es);
  }

  // -- Arms are honoured, and stop at termination --

  /** A compare-exchange is only attempted on a value that was not the marker. */
  predicate CasFresh(pc: Pc) {
    pc.OnArm? && pc.arm.ArmCas? ==> pc.arm.current != SENTINEL
  }

  ghost predicate ArmInv(s: State) {
    && (forall i | 0 <= i < |s.mem.armed| :: s.mem.armed[i].Deadline() <= s.mem.expiration)
    && (forall t | t in s.threads :: CasFresh(s.threads[t]))
  }

  lemma ClientArms(cfg: Config, m: Mem, pc: Pc, ch: Choice)
    requires CasFresh(pc)
    ensures var o := ClientStep(cfg, m, pc, ch);
            && CasFresh(o.pc)
            && (o.mem.armed == m.armed
                || exists a: Arm :: a.Deadline() <= o.mem.expiration && o.mem.armed == m.armed + [a])
            && (m.expiration == SENTINEL ==> o.mem.armed == m.armed)
  {
    if pc.OnArm? && !pc.arm.ArmTime? {
      var a := Arm(pc.arm.start, pc.arm.ttl, m.now);
      var o := ClientStep(cfg, m, pc, ch).mem;
      assert o.armed == m.armed || o.armed == m.armed + [a];
    }
  }

  lemma StepArms(cfg: Config, s: State, e: Event)
    requires ArmInv(s)
    ensures ArmInv(Step(cfg, s, e))
    ensures s.mem.expiration == SENTINEL ==> Step(cfg, s, e).mem.armed == s.mem.armed
  {
    StepRaises(cfg, s, e);
    if e.Client? {
      ClientArms(cfg, s.mem, PcOf(s, e.t), e.choice);
    }
  }

  /**
   In every reachable state every arm that has returned Ok is still honoured: expiration_ns
   is at or above its deadline. Once expiration_ns is the marker, no arm ever returns Ok
   again, not even one that was under way, and whatever happens to the counters.
   */
  lemma ArmsHonoured(cfg: Config, s: State, before: seq<Event>, es: seq<Event>)
    requires Init(cfg, s)
    ensures var s0, s1 := Exec(cfg, s, before), Exec(cfg, Exec(cfg, s, before), es);
            && (forall i | 0 <= i < |s1.mem.armed| :: s1.mem.armed[i].Deadline() <= s1.mem.expiration)
            && (s0.mem.expiration == SENTINEL ==> s1.mem.armed == s0.mem.armed)
  {
    forall x, e | ArmInv(x) ensures ArmInv(Step(cfg, x, e)) {
      StepArms(cfg, x, e);
    }
    ExecKeeps(cfg, ArmInv, s, before);
    var s0 := Exec(cfg, s, before);
    ExecKeeps(cfg, ArmInv, s0, es);
    if s0.mem.expiration == SENTINEL {
      var inv := (x: State) => ArmInv(x) && x.mem.expiration == SENTINEL && x.mem.armed == s0.mem.armed;
      forall x, e | inv(x) ensures inv(Step(cfg, x, e)) {
        StepArms(cfg, x, e);
        StepRaises(cfg, x, e);
      }
      ExecKeeps(cfg, inv, s0, es);
    }
  }

  // -- The counters are not absorbing --

  /** Counter compare-exchanges only ever raise the word. */
  predicate CasRaises(pc: Pc) {
    && (pc.OnTimer? && pc.timer.TimerCas? ==> pc.timer.current < pc.timer.call.Target())
    && (pc.OnCounter? && pc.counterPc.CounterCas? ==> pc.counterPc.current < pc.counterPc.counter.target)
    && CasFresh(pc)
  }

  ghost predicate CasInv(s: State) {
    forall t | t in s.threads :: CasRaises(s.threads[t])
  }

  lemma CasStep(cfg: Config, s: State, e: Event)
    requires CasInv(s)
    ensures CasInv(Step(cfg, s, e))
  {
    if e.Client? {
      ClientCas(cfg, s.mem, PcOf(s, e.t), e.choice);
    }
  }

  lemma CasAlwaysRaises(cfg: Config, s: State, es: seq<Event>)
    requires Init(cfg, s)
    ensures CasInv(Exec(cfg, s, es))
  {
    forall x, e | CasInv(x) ensures CasInv(Step(cfg, x, e)) {
      CasStep(cfg, x, e);
    }
    ExecKeeps(cfg, CasInv, s, es);
  }

  lemma ClientCas(cfg: Config, m: Mem, pc: Pc, ch: Choice)
    requires CasRaises(pc)
    ensures CasRaises(ClientStep(cfg, m, pc, ch).pc)
  {
  }

  /** The three stores that can wipe out the last marker: fetch_add, a stamp, a cron re-arm. */
  predicate Unmarks(cfg: Config, s: State, e: Event) {
    match e
    case Client(t, _) =>
      var pc := PcOf(s, t);
      && pc.Add? && Get(s.mem, pc.word) == SENTINEL && pc.h != 0
      && Get(s.mem, if pc.word == OpenWord then ClosedWord else OpenWord) != SENTINEL
    case Daemon(_) =>
      || (s.daemon.DStamp? && s.daemon.value != SENTINEL && s.mem.open != SENTINEL)
      || (s.daemon.DRearm? && NextLine(s.daemon.at / NANOS_PER_MS, cfg.interval) != SENTINEL
          && s.mem.closed != SENTINEL)
    case _ => false
  }

  /**
   In reachable states a marker in expiration_ns is permanent, and otherwise one transition
   revives a terminated interlock exactly when it is one of those three stores onto the
   last marked counter. So the claim that any one marked word terminates an interlock
   irreversibly holds for expiration_ns only.
   */
  lemma TerminationSurvives(cfg: Config, s0: State, es: seq<Event>, e: Event)
    requires Init(cfg, s0)
    ensures var s := Exec(cfg, s0, es);
            var m, m' := s.mem, Step(cfg, s, e).mem;
            Terminated(m.open, m.closed, m.expiration) ==>
              (!Terminated(m'.open, m'.closed, m'.expiration) <==>
               m.expiration != SENTINEL && Unmarks(cfg, s, e))
  {
    var s := Exec(cfg, s0, es);
    CasAlwaysRaises(cfg, s0, es);
    StepRaises(cfg, s, e);
    match e
    case Client(t, ch) =>
      ClientTerminates(cfg, s.mem, PcOf(s, t), ch);
      if PcOf(s, t).Add? {
        MarkerPlus(PcOf(s, t).h);
      }
    case Daemon(ch) => DaemonTerminates(cfg, s.mem, s.daemon, ch);
    case _ =>
  }

  lemma DaemonTerminates(cfg: Config, m: Mem, d: Dpc, ch: DChoice)
    ensures var m' := DaemonStep(cfg, m, d, ch).mem;
            && (d.DStamp? ==> m' == m.(closed := d.value, stamps := m'.stamps))
            && (d.DRearm? ==> m' == m.(open := NextLine(d.at / NANOS_PER_MS, cfg.interval)))
            && (!d.DStamp? && !d.DRearm? ==>
                  (m.open == SENTINEL ==> m'.open == SENTINEL) && (m.closed == SENTINEL ==> m'.closed == SENTINEL))
  {
  }

  lemma ClientTerminates(cfg: Config, m: Mem, pc: Pc, ch: Choice)
    requires CasRaises(pc)
    ensures var m' := ClientStep(cfg, m, pc, ch).mem;
            && (pc.Add? ==> m' == Put(m, pc.word, Wrap(Get(m, pc.word) + pc.h)))
            && (!pc.Add? ==> (m.open == SENTINEL ==> m'.open == SENTINEL) && m'.closed == m.closed)
            && (m.expiration == SENTINEL ==> m'.expiration == SENTINEL)
  {
  }

  /** SENTINEL + h wraps to h - 1, so it stays the marker only for h == 0. */
  lemma MarkerPlus(h: U64)
    ensures Wrap(SENTINEL + h) == if h == 0 then SENTINEL else h - 1
  {
  }

  // -- Witnesses: a cron of any interval i, created at clock 0, which fires at i --

  function Cron(i: CronInterval): Config {
    Config(WaitCron, i, true)
  }

  /** The cycle's clock reads. */
  function Due(i: CronInterval): U64 {
    i * NANOS_PER_MS
  }

  /** The clock at creation, and when the cron fires. */
  function Readings(i: CronInterval): seq<U64> {
    [0 as U64, i as U64]
  }

  function Fresh(i: CronInterval): State {
    State(Mem(i, 0, SENTINEL - 1, 0, 0, Due(i), [0], [0], [], []), map[], DIdle(true), [])
  }

  /** The daemon has stamped the cron and woken closed_count; its re-arm is next. */
  function AtRearm(i: CronInterval): State {
    State(Mem(i, i, SENTINEL - 1, i, 0, Due(i), Readings(i), Readings(i), [], []), map[], DRearm(Due(i)), [])
  }

  /** A pass up to its re-arm, then an attacher's free. */
  const PASS_TO_REARM: seq<Event> := seq(9, k => GO)
  const FREE: Event := Do(1, OpAttacherFree)
  const FREE_BEFORE_REARM: seq<Event> := PASS_TO_REARM + [FREE, FREE]

  /**
   Reachable for every interval: an attacher frees a cron between the daemon's stamp and its
   re-arm, and the re-arm erases the marker. The freed interlock is live again.
   */
  lemma RearmRevivesFreedCron(i: CronInterval)
    ensures Init(Cron(i), Fresh(i))
    ensures var s := Exec(Cron(i), Fresh(i), FREE_BEFORE_REARM);
            && s.mem.open == SENTINEL && s.mem.expiration != SENTINEL
            && var m := Exec(Cron(i), s, [GO]).mem;
            Judge(m.open, m.closed, m.expiration, m.now) == Evaluate
  {
    hide Exec;
    FreshIsInit(i);
    FreedBeforeRearm(i);
    FreedRun(i);
    FreedIsLive(i);
  }

  lemma Lines(i: CronInterval)
    ensures NextLine(0, i) == i && NextLine(i, i) == 2 * i && Due(i) / NANOS_PER_MS == i
  {
    assert 0 / i == 0 && i / i == 1;
  }

  lemma FreshIsInit(i: CronInterval)
    ensures Init(Cron(i), Fresh(i))
  {
    Lines(i);
  }

  lemma FreedBeforeRearm(i: CronInterval)
    ensures Exec(Cron(i), Fresh(i), FREE_BEFORE_REARM) == FreedTrail(i, 2)
  {
    hide Exec, FreedTrail, AtRearm, Fresh;
    CronPass(i);
    FreedRun(i);
    ExecConcat(Cron(i), Fresh(i), PASS_TO_REARM, [FREE, FREE]);
    FreedTrailStarts(i);
  }

  lemma FreedTrailStarts(i: CronInterval)
    ensures FreedTrail(i, 0) == AtRearm(i)
  {
  }

  lemma FreedIsLive(i: CronInterval)
    ensures FreedTrail(i, 2).mem.open == SENTINEL && FreedTrail(i, 2).mem.expiration != SENTINEL
    ensures var m := FreedTrail(i, 3).mem; Judge(m.open, m.closed, m.expiration, m.now) == Evaluate
  {
    ValuePositive(2 * i, i);
  }

  function FreedTrail(i: CronInterval, k: nat): State {
    var s := AtRearm(i);
    var freed := s.mem.(open := SENTINEL);
    match k
    case 0 => s
    case 1 => s.(threads := map[1 := AttacherFree])
    case 2 => s.(mem := freed, threads := map[1 := Waking([OpenWord, ClosedWord])])
    case _ => s.(mem := freed.(open := 2 * i), threads := map[1 := Waking([OpenWord, ClosedWord])],
                 daemon := DIdle(true))
  }

  lemma FreedTrailSteps(i: CronInterval, k: nat)
    requires k < 3
    ensures Step(Cron(i), FreedTrail(i, k), if k < 2 then FREE else GO) == FreedTrail(i, k + 1)
  {
    hide ArmStep, WordStep, TimerStep, CounterStep, CronStep, BarrierStep, Contract, Judge, NextLine, Due;
    var s := FreedTrail(i, k);
    if k < 2 {
      ClientMoves(Cron(i), s, 1, FREE.choice);
      assert s.threads[1 := PcOf(FreedTrail(i, k + 1), 1)] == FreedTrail(i, k + 1).threads;
    } else {
      Lines(i);
      assert WakeAll(None, s.threads) == s.threads;
    }
  }

  lemma FreedRun(i: CronInterval)
    ensures Exec(Cron(i), AtRearm(i), [FREE, FREE]) == FreedTrail(i, 2)
    ensures Exec(Cron(i), FreedTrail(i, 2), [GO]) == FreedTrail(i, 3)
  {
    hide Step;
    forall k: nat | k < 2 ensures FreedTrail(i, k + 1) == Step(Cron(i), FreedTrail(i, k), [FREE, FREE][k]) {
      FreedTrailSteps(i, k);
    }
    Follow(Cron(i), (k: nat) => FreedTrail(i, k), [FREE, FREE]);
    var rest := (k: nat) => FreedTrail(i, k + 2);
    forall k: nat | k < 1 ensures rest(k + 1) == Step(Cron(i), rest(k), [GO][k]) {
      FreedTrailSteps(i, 2);
    }
    Follow(Cron(i), rest, [GO]);
  }

  /** The first nine steps of a pass over the fresh cron, which fires. */
  function PassTrail(i: CronInterval, k: nat): State {
    var s, m, at := Fresh(i), Fresh(i).mem.(clock := i, published := Readings(i)), Due(i);
    match k
    case 0 => s
    case 1 => s.(daemon := DClock(true))
    case 2 => s.(daemon := DPublish(true, at))
    case 3 => s.(mem := m, daemon := DTtl(at))
    case 4 => s.(mem := m, daemon := DOpen(at, at))
    case 5 => s.(mem := m, daemon := DClosed(at, at, i))
    case 6 => s.(mem := m, daemon := DExp(at, at, i, 0))
    case 7 => s.(mem := m, daemon := DStamp(at, i, 0, i))
    case 8 => AtRearm(i).(daemon := DWaking([ClosedWord], ToRearm(at)))
    case _ => AtRearm(i)
  }

  lemma CronPass(i: CronInterval)
    ensures Exec(Cron(i), Fresh(i), PASS_TO_REARM) == AtRearm(i)
  {
    hide Step;
    forall k: nat | k < 9
      ensures PassTrail(i, k + 1) == Step(Cron(i), PassTrail(i, k), GO)
    {
      PassTrailSteps(i, k);
    }
    Follow(Cron(i), (k: nat) => PassTrail(i, k), PASS_TO_REARM);
  }

  lemma PassTrailSteps(i: CronInterval, k: nat)
    requires k < 9
    ensures PassTrail(i, k + 1) == Step(Cron(i), PassTrail(i, k), GO)
  {
    hide Due, Step;
    Lines(i);
    ValuePositive(i, 0);
    assert Fresh(i).mem.published + [i as U64] == Readings(i);
    DueInRange(i);
    QuietPass(Cron(i), PassTrail(i, k));
  }

  lemma DueInRange(i: CronInterval)
    ensures Due(i) < SENTINEL - 1
  {
  }

  lemma QuietPass(cfg: Config, s: State)
    requires s.threads == map[]
    ensures var o := DaemonStep(cfg, s.mem, s.daemon, GO.dchoice);
            Step(cfg, s, GO) == State(o.mem, map[], o.daemon, s.oks, s.touches)
  {
  }
}
