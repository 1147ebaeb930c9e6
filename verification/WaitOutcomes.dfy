/**
 What each wait comes to, under every interleaving: which answer a thread is bound to get, in how
 many of its own steps, and that it does not go back to sleep first. In each theorem the words are
 only known to stay within bounds while the call lasts.
 */
module WaitOutcomes {
  import opened Core
  import opened Protocol
  import opened OneCall
  import Lattice

  // -- Answers --

  predicate Asleep(pc: Pc) {
    pc.Enter? || pc.Blocked?
  }

  /** The call is over and says that the interlock is gone. */
  predicate SaysReaped(pc: Pc) {
    match pc
    case TouchDone(ok) => !ok
    case OnWord(WordDone(_, o)) => o.Reaped?
    case OnTimer(TimerDone(_, o)) => o.Reaped?
    case OnCounter(CounterDone(_, o)) => o.Reaped?
    case OnCron(CronDone(o)) => o.Reaped?
    case OnBarrier(BarrierDone(o)) => o.Reaped?
    case _ => false
  }

  /** The call of a wait tier is over and has a value, not a timeout. */
  predicate SaysDelivered(pc: Pc) {
    match pc
    case OnTimer(TimerDone(_, o)) => o.Delivered? && !o.state.Timeout?
    case OnCounter(CounterDone(_, o)) => o.Delivered? && !o.state.Timeout?
    case OnCron(CronDone(o)) => o.Delivered?
    case OnBarrier(BarrierDone(o)) => o.Delivered?
    case _ => false
  }

  /** Own steps to the end of the call, for a thread that does not fall asleep. */
  function Left(pc: Pc): nat {
    match pc
    case OnArm(a) => if a.ArmLoad? then 1 else 2
    case OnWord(w) => if w.WordExp? then 2 else if w.WordDone? then 0 else 1
    case OnTimer(TimerClosed(_)) => 3
    case OnTimer(TimerOpen(_, _)) => 2
    case OnTimer(TimerExp(_, _)) => 1
    case OnCounter(CounterClosed(_)) => 2
    case OnCounter(CounterOpen(_, _)) => 1
    case OnCounter(CounterClosed2(_, _)) => 3
    case OnCounter(CounterOpen2(_, _, _)) => 2
    case OnCounter(CounterExp2(_, _, _)) => 1
    case OnCron(CronClosed(_)) => 3
    case OnCron(CronExp(_, _)) => 2
    case OnCron(CronOpen(_, _)) => 1
    case OnCron(CronTime(_, _, _)) => 1
    case OnBarrier(BarrierClosed) => 3
    case OnBarrier(BarrierOpen(_)) => 2
    case OnBarrier(BarrierExp(_, _)) => 1
    case OnBarrier(BarrierExp2) => 2
    case OnBarrier(BarrierTime2(_)) => 1
    case _ => 0
  }

  // -- Counters that are met --

  /** Where an iteration of a timer's or counter's loop starts, or goes on after its sleep. */
  predicate AtLoads(pc: Pc) {
    (pc.OnTimer? && pc.timer.TimerClosed?)
    || (pc.OnCounter? && (pc.counterPc.CounterClosed? || pc.counterPc.CounterClosed2?))
  }

  /** A loaded closed_count that has reached `high`, and the label it gets while open_count is within bounds. */
  predicate Answers(low: U64, high: U64, v: U64, state: WaitState) {
    && high <= v && !state.Timeout?
    && (v > high ==> state.Overrun?)
    && (v == high == low ==> state.Normal?)
  }

  /** On the way from `start` to a value of at least `high`. */
  predicate Returning(start: Pc, low: U64, high: U64, pc: Pc) {
    pc == start ||
    match pc
    case OnTimer(TimerOpen(wait, v)) => start == OnTimer(TimerClosed(wait)) && high <= v
    case OnTimer(TimerDone(call, Delivered(v, state))) =>
      start.OnTimer? && start.timer.TimerClosed? && start.timer.wait.call == call && Answers(low, high, v, state)
    case OnCounter(CounterOpen(c, v)) => start == OnCounter(CounterClosed(c)) && high <= v
    case OnCounter(CounterOpen2(c, timedOut, v)) => start == OnCounter(CounterClosed2(c, timedOut)) && high <= v
    case OnCounter(CounterDone(c, Delivered(v, state))) =>
      && start.OnCounter? && (start.counterPc.CounterClosed? || start.counterPc.CounterClosed2?)
      && start.counterPc.counter == c && Answers(low, high, v, state)
    case _ => false
  }

  predicate MetWithin(m: Mem, low: U64, high: U64) {
    low <= m.open <= high <= m.closed
  }

  lemma ReturningStep(cfg: Config, m: Mem, pc: Pc, ch: Choice, start: Pc, low: U64, high: U64)
    requires AtLoads(start) && Returning(start, low, high, pc) && MetWithin(m, low, high) && !BetweenCalls(pc)
    ensures var pc' := ClientStep(cfg, m, pc, ch).pc; Returning(start, low, high, pc') && Left(pc') < Left(pc)
  {
  }

  lemma ReturningWakes(w: Option<Word>, start: Pc, low: U64, high: U64, pc: Pc)
    requires AtLoads(start) && Returning(start, low, high, pc)
    ensures Wake(w, pc) == pc
  {
  }

  /**
   A timer or counter wait about to load the counters, in a run in which closed_count stays at or above
   `high` and open_count at or below it, returns a value of at least `high` within three of its own
   steps: it does not sleep, time out, abort or report a reap. The value is an overrun when above
   `high`, and normal when equal to an open_count that does not move.
   */
  lemma MetIsReturned(cfg: Config, s: State, es: seq<Event>, t: Tid, low: U64, high: U64)
    requires AtLoads(PcOf(s, t))
    requires Along(cfg, s, es, (x, e) => ThisCallOnly(t, x, e) && MetWithin(x.mem, low, high))
    ensures var pc := PcOf(Exec(cfg, s, es), t);
            && Returning(PcOf(s, t), low, high, pc)
            && (StepsTaken(t, es) >= 3 ==> BetweenCalls(pc))
  {
    hide Step, ClientStep, Returning, MetWithin, AtLoads, Exec, Along;
    var start := PcOf(s, t);
    var rule := (x: State, e) => ThisCallOnly(t, x, e) && MetWithin(x.mem, low, high);
    var keep := (pc: Pc) => Returning(start, low, high, pc);
    forall x: State, e | keep(PcOf(x, t)) && rule(x, e)
      ensures keep(PcOf(Step(cfg, x, e), t))
      ensures Left(PcOf(Step(cfg, x, e), t)) + (if IsOwn(t, e) then 1 else 0) <= Left(PcOf(x, t))
    {
      var w := NextPc(cfg, t, x, e);
      if IsOwn(t, e) {
        ReturningStep(cfg, x.mem, PcOf(x, t), e.choice, start, low, high);
      } else {
        ReturningWakes(w, start, low, high, PcOf(x, t));
      }
    }
    StartsReturning(start, low, high);
    KeepsAndEnds(cfg, t, s, es, rule, keep, Left);
    if StepsTaken(t, es) >= 3 {
      ReturnedIsOver(start, low, high, PcOf(Exec(cfg, s, es), t));
    }
  }

  lemma StartsReturning(start: Pc, low: U64, high: U64)
    requires AtLoads(start)
    ensures Returning(start, low, high, start) && Left(start) <= 3
  {
  }

  lemma ReturnedIsOver(start: Pc, low: U64, high: U64, pc: Pc)
    requires AtLoads(start) && Returning(start, low, high, pc) && Left(pc) == 0
    ensures BetweenCalls(pc)
  {
  }

  // -- A terminated expiration is reported --

  /** A thread that arms, or that looks at expiration_ns before it can sleep. */
  predicate Looking(pc: Pc) {
    match pc
    case OnArm(_) => true
    case OnWord(w) => w.WordExp?
    case OnTimer(p) => p.TimerClosed? || p.TimerOpen? || p.TimerExp?
    case OnCounter(p) => p.CounterClosed2? || p.CounterOpen2? || p.CounterExp2?
    case OnCron(k) => k.CronClosed? || k.CronOpen? || k.CronExp?
    case OnBarrier(b) => b.BarrierClosed? || b.BarrierOpen? || b.BarrierExp? || b.BarrierExp2?
    case _ => false
  }

  predicate Answered(pc: Pc) {
    SaysReaped(pc) || SaysDelivered(pc)
  }

  /** What becomes of a thread once expiration_ns holds the marker. */
  predicate Ending(pc: Pc) {
    (Looking(pc) && Lattice.CasFresh(pc)) || Answered(pc)
  }

  lemma EndingStep(cfg: Config, m: Mem, pc: Pc, ch: Choice)
    requires Ending(pc) && m.expiration == SENTINEL && !BetweenCalls(pc)
    ensures var pc' := ClientStep(cfg, m, pc, ch).pc; Ending(pc') && Left(pc') < Left(pc)
  {
  }

  lemma EndingBasics(pc: Pc, w: Option<Word>)
    ensures Ending(pc) ==> Wake(w, pc) == pc && Left(pc) <= 3 && (Answered(pc) <==> Left(pc) == 0)
    ensures Asleep(pc) ==> Asleep(Wake(w, pc)) || Ending(Wake(w, pc))
    ensures Asleep(pc) ==> !Ending(pc) && !BetweenCalls(pc)
    ensures Looking(pc) ==> !Answered(pc)
    ensures Answered(pc) ==> BetweenCalls(pc)
  {
  }

  lemma SleeperStep(cfg: Config, m: Mem, pc: Pc, ch: Choice)
    requires Asleep(pc)
    ensures var pc' := ClientStep(cfg, m, pc, ch).pc; Asleep(pc') || Ending(pc')
  {
    hide ArmStep, WordStep, TimerStep, CounterStep, CronStep, BarrierStep;
  }

  /**
   Once expiration_ns is the marker: a thread that arms, has slept, or starts an iteration that looks at
   expiration_ns, ends its call within three of its own steps, Reaped or with a value its loads found
   delivered. It neither sleeps, times out nor aborts.
   */
  lemma FreedIsReported(cfg: Config, s: State, before: seq<Event>, after: seq<Event>, t: Tid)
    requires Init(cfg, s) && Exec(cfg, s, before).mem.expiration == SENTINEL
    requires Looking(PcOf(Exec(cfg, s, before), t))
    requires Along(cfg, Exec(cfg, s, before), after, (x, e) => ThisCallOnly(t, x, e))
    ensures var pc := PcOf(Exec(cfg, Exec(cfg, s, before), after), t);
            && (Looking(pc) || Answered(pc))
            && (StepsTaken(t, after) >= 3 ==> Answered(pc))
  {
    hide Step, ClientStep, Ending, Looking, Answered, Exec, Along, Init, Wake;
    var x0 := Exec(cfg, s, before);
    Lattice.CasAlwaysRaises(cfg, s, before);
    StartsEnding(x0, t);
    FreedEnds(cfg, x0, after, t);
    var pc := PcOf(Exec(cfg, x0, after), t);
    EndingBasics(pc, None);
    EndingBasics(PcOf(x0, t), None);
    EndingMeans(pc);
  }

  lemma EndingMeans(pc: Pc)
    requires Ending(pc)
    ensures Looking(pc) || Answered(pc)
  {
  }

  lemma StartsEnding(x: State, t: Tid)
    requires Lattice.CasInv(x) && Looking(PcOf(x, t))
    ensures Ending(PcOf(x, t))
  {
  }

  lemma {:induction false} FreedEnds(cfg: Config, s: State, es: seq<Event>, t: Tid)
    requires s.mem.expiration == SENTINEL && Ending(PcOf(s, t))
    requires Along(cfg, s, es, (x, e) => ThisCallOnly(t, x, e))
    ensures Ending(PcOf(Exec(cfg, s, es), t))
    ensures Left(PcOf(Exec(cfg, s, es), t)) + StepsTaken(t, es) <= Left(PcOf(s, t))
    decreases |es|
  {
    hide Step, ClientStep, Ending, Wake, Left, BetweenCalls;
    if es != [] {
      var e, s' := es[0], Step(cfg, s, es[0]);
      Lattice.StepRaises(cfg, s, e);
      var w := NextPc(cfg, t, s, e);
      EndingBasics(PcOf(s, t), w);
      if IsOwn(t, e) {
        EndingStep(cfg, s.mem, PcOf(s, t), e.choice);
      }
      FreedEnds(cfg, s', es[1..], t);
    }
  }

  /** A thread asleep when expiration_ns is marked goes straight to such a look when it comes back. */
  lemma {:induction false} FreedSleeperLooks(cfg: Config, s: State, es: seq<Event>, t: Tid)
    requires s.mem.expiration == SENTINEL && Asleep(PcOf(s, t))
    requires Along(cfg, s, es, (x, e) => ThisCallOnly(t, x, e))
    ensures var pc := PcOf(Exec(cfg, s, es), t); Asleep(pc) || Looking(pc) || Answered(pc)
    decreases |es|
  {
    hide Step, ClientStep, Ending, Wake, Left, BetweenCalls, Looking, Answered, Asleep;
    if es != [] {
      var e, s' := es[0], Step(cfg, s, es[0]);
      Lattice.StepRaises(cfg, s, e);
      var w := NextPc(cfg, t, s, e);
      EndingBasics(PcOf(s, t), w);
      if IsOwn(t, e) {
        SleeperStep(cfg, s.mem, PcOf(s, t), e.choice);
      }
      if Asleep(PcOf(s', t)) {
        FreedSleeperLooks(cfg, s', es[1..], t);
      } else {
        FreedEnds(cfg, s', es[1..], t);
        EndingMeans(PcOf(Exec(cfg, s', es[1..]), t));
      }
    }
  }

  /** Counters that stay unmet: below a bound that open_count has reached, or as they were. */
  predicate Behind(tier: Option<Tier>, m: Mem, bound: U64) {
    match tier
    case Some(WaitTimer) => m.closed < bound <= m.open
    case Some(WaitCounter) => m.closed < bound <= m.open
    case Some(WaitCron) => m.closed <= bound
    case Some(WaitBarrier) => m.closed == 0
    case _ => true
  }

  /** What the thread holds in its hands is unmet, too, and so is its answer. */
  predicate Unread(pc: Pc, bound: U64) {
    match pc
    case Enter(_, _, _, CronWaiter(initial)) => bound <= initial
    case Blocked(_, _, _, CronWaiter(initial)) => bound <= initial
    case OnTimer(TimerOpen(_, closed)) => closed < bound
    case OnCounter(CounterOpen2(_, _, closed)) => closed < bound
    case OnCron(CronClosed(initial)) => bound <= initial
    case OnCron(CronExp(initial, _)) => bound <= initial
    case OnCron(CronOpen(_, _)) => false
    case OnBarrier(BarrierOpen(closed)) => closed == 0
    case _ => !SaysDelivered(pc)
  }

  lemma UnreadStep(cfg: Config, m: Mem, pc: Pc, ch: Choice, bound: U64)
    requires Ending(pc) && Unread(pc, bound) && Behind(CallTier(pc), m, bound)
    requires m.expiration == SENTINEL && !BetweenCalls(pc)
    ensures var pc' := ClientStep(cfg, m, pc, ch).pc; Unread(pc', bound) && CallTier(pc') == CallTier(pc)
  {
  }

  lemma UnreadSleeper(cfg: Config, m: Mem, pc: Pc, ch: Choice, w: Option<Word>, bound: U64)
    requires Asleep(pc) && Unread(pc, bound)
    ensures var pc' := ClientStep(cfg, m, pc, ch).pc; Unread(pc', bound) && CallTier(pc') == CallTier(pc)
    ensures Unread(Wake(w, pc), bound) && CallTier(Wake(w, pc)) == CallTier(pc)
  {
    hide ArmStep, WordStep, TimerStep, CounterStep, CronStep, BarrierStep;
  }

  lemma {:induction false} StaysUnread(
    cfg: Config, s: State, es: seq<Event>, t: Tid, tier: Option<Tier>, bound: U64)
    requires s.mem.expiration == SENTINEL && (Asleep(PcOf(s, t)) || Ending(PcOf(s, t)))
    requires Unread(PcOf(s, t), bound) && CallTier(PcOf(s, t)) == tier
    requires Along(cfg, s, es, (x, e) => ThisCallOnly(t, x, e) && Behind(tier, x.mem, bound))
    ensures var pc := PcOf(Exec(cfg, s, es), t); (Asleep(pc) || Ending(pc)) && Unread(pc, bound)
    decreases |es|
  {
    hide Step, ClientStep, Ending, Wake, Left, BetweenCalls, Asleep, Unread, Behind, CallTier;
    if es != [] {
      var e, s' := es[0], Step(cfg, s, es[0]);
      var pc := PcOf(s, t);
      Lattice.StepRaises(cfg, s, e);
      var w := NextPc(cfg, t, s, e);
      EndingBasics(pc, w);
      if Asleep(pc) {
        UnreadSleeper(cfg, s.mem, pc, if e.Client? then e.choice else Choice(OpCron, false, Interrupted), w, bound);
        if IsOwn(t, e) {
          SleeperStep(cfg, s.mem, pc, e.choice);
        }
      } else if IsOwn(t, e) {
        EndingStep(cfg, s.mem, pc, e.choice);
        UnreadStep(cfg, s.mem, pc, e.choice, bound);
      }
      StaysUnread(cfg, s', es[1..], t, tier, bound);
    }
  }

  /**
   So when the counters stay unmet, the only answer is Reaped: for a timer or counter while closed_count is
   below a bound that open_count has reached, for a cron while closed_count has not risen, for a barrier
   while it is 0, and for wait_open and wait_close always.
   */
  lemma FreedUnmetIsReaped(cfg: Config, s: State, before: seq<Event>, after: seq<Event>, t: Tid, bound: U64)
    requires Init(cfg, s) && Exec(cfg, s, before).mem.expiration == SENTINEL
    requires var pc := PcOf(Exec(cfg, s, before), t); (Asleep(pc) || Looking(pc)) && Unread(pc, bound)
    requires var tier := CallTier(PcOf(Exec(cfg, s, before), t));
             Along(cfg, Exec(cfg, s, before), after, (x, e) => ThisCallOnly(t, x, e) && Behind(tier, x.mem, bound))
    ensures var pc := PcOf(Exec(cfg, Exec(cfg, s, before), after), t);
            && (BetweenCalls(pc) ==> SaysReaped(pc))
            && (Looking(PcOf(Exec(cfg, s, before), t)) && StepsTaken(t, after) >= 3 ==> SaysReaped(pc))
  {
    hide Step, ClientStep, Ending, Looking, Exec, Along, Init, Asleep, Unread, Behind, CallTier, Answered;
    var x0 := Exec(cfg, s, before);
    var tier := CallTier(PcOf(x0, t));
    var strict := (x: State, e) => ThisCallOnly(t, x, e) && Behind(tier, x.mem, bound);
    Lattice.CasAlwaysRaises(cfg, s, before);
    if Looking(PcOf(x0, t)) {
      StartsEnding(x0, t);
    }
    StaysUnread(cfg, x0, after, t, tier, bound);
    var pc := PcOf(Exec(cfg, x0, after), t);
    UnreadAnswers(pc, bound);
    if Looking(PcOf(x0, t)) {
      AlongWeaker(cfg, x0, after, strict, (x, e) => ThisCallOnly(t, x, e));
      FreedIsReported(cfg, s, before, after, t);
    }
  }

  lemma UnreadAnswers(pc: Pc, bound: U64)
    requires (Asleep(pc) || Ending(pc)) && Unread(pc, bound)
    ensures BetweenCalls(pc) || Answered(pc) ==> SaysReaped(pc)
  {
  }

  // -- An expiration that has passed is reported --

  /** expiration_ns is at or below an instant that is over. */
  predicate Lapsed(m: Mem, instant: U64) {
    m.expiration <= instant < m.now
  }

  /** wait_open and wait_close behind their sleep, a cron's iteration, a barrier's look behind its sleep. */
  predicate ChecksTime(pc: Pc) {
    match pc
    case OnWord(WordExp(_, _)) => true
    case OnCron(CronClosed(_)) => true
    case OnBarrier(BarrierExp2) => true
    case _ => false
  }

  predicate Lapsing(pc: Pc, instant: U64) {
    match pc
    case OnWord(WordTime(_, _, exp)) => exp <= instant
    case OnCron(CronExp(_, _)) => true
    case OnCron(CronTime(_, _, exp)) => exp <= instant
    case OnCron(CronOpen(_, _)) => true
    case OnBarrier(BarrierTime2(exp)) => exp <= instant
    case _ => ChecksTime(pc) || SaysReaped(pc) || (pc.OnCron? && SaysDelivered(pc))
  }

  lemma LapsingStep(cfg: Config, m: Mem, pc: Pc, ch: Choice, instant: U64)
    requires Lapsing(pc, instant) && Lapsed(m, instant) && !BetweenCalls(pc)
    ensures var pc' := ClientStep(cfg, m, pc, ch).pc; Lapsing(pc', instant) && Left(pc') < Left(pc)
  {
  }

  lemma LapsingBasics(pc: Pc, instant: U64, w: Option<Word>)
    ensures Lapsing(pc, instant) ==> Wake(w, pc) == pc && (Left(pc) == 0 ==> SaysReaped(pc) || pc.OnCron?)
    ensures Lapsing(pc, instant) && Left(pc) == 0 ==> Answered(pc)
    ensures ChecksTime(pc) ==> Lapsing(pc, instant) && Left(pc) <= 3
    ensures Asleep(pc) ==> !Lapsing(pc, instant)
  {
  }

  /**
   While expiration_ns stays at or below an instant that is over: wait_open and wait_close behind their
   sleep, a cron's iteration and a barrier's check behind its sleep end the call within three own steps, without
   sleeping again. The answer is Reaped, or for a cron a value if its loads found one.
   */
  lemma LapsedIsReported(cfg: Config, s: State, es: seq<Event>, t: Tid, instant: U64)
    requires ChecksTime(PcOf(s, t))
    requires Along(cfg, s, es, (x, e) => ThisCallOnly(t, x, e) && Lapsed(x.mem, instant))
    ensures var pc := PcOf(Exec(cfg, s, es), t);
            && !Asleep(pc)
            && (StepsTaken(t, es) >= 3 ==> SaysReaped(pc) || (pc.OnCron? && SaysDelivered(pc)))
  {
    hide Step, ClientStep, Lapsing, Lapsed, ChecksTime, Exec, Along, Asleep, SaysReaped, SaysDelivered, Wake;
    var rule := (x: State, e) => ThisCallOnly(t, x, e) && Lapsed(x.mem, instant);
    var keep := (pc: Pc) => Lapsing(pc, instant);
    forall x: State, e | keep(PcOf(x, t)) && rule(x, e)
      ensures keep(PcOf(Step(cfg, x, e), t))
      ensures Left(PcOf(Step(cfg, x, e), t)) + (if IsOwn(t, e) then 1 else 0) <= Left(PcOf(x, t))
    {
      var w := NextPc(cfg, t, x, e);
      LapsingBasics(PcOf(x, t), instant, w);
      if IsOwn(t, e) {
        LapsingStep(cfg, x.mem, PcOf(x, t), e.choice, instant);
      }
    }
    LapsingBasics(PcOf(s, t), instant, None);
    KeepsAndEnds(cfg, t, s, es, rule, keep, Left);
    LapsingBasics(PcOf(Exec(cfg, s, es), t), instant, None);
  }

  /** In a timer's loop, or done without an abort. An expiration in hand is at or below the instant. */
  predicate Sparing(pc: Pc, instant: U64) {
    match pc
    case Enter(_, _, _, waiter) => waiter.TimerWaiter?
    case Blocked(_, _, _, waiter) => waiter.TimerWaiter?
    case OnTimer(TimerDeadline(_, _)) => true
    case OnTimer(TimerClosed(_)) => true
    case OnTimer(TimerOpen(_, _)) => true
    case OnTimer(TimerExp(_, _)) => true
    case OnTimer(TimerTime(_, _, exp)) => exp <= instant
    case OnTimer(TimerDone(_, o)) => !o.Aborted?
    case _ => false
  }

  lemma SparingStep(cfg: Config, m: Mem, pc: Pc, ch: Choice, w: Option<Word>, instant: U64)
    requires Sparing(pc, instant)
    ensures Lapsed(m, instant) && !BetweenCalls(pc) ==> Sparing(ClientStep(cfg, m, pc, ch).pc, instant)
    ensures Sparing(Wake(w, pc), instant)
  {
  }

  /** A timer wait in its loop does not abort while expiration_ns stays at or below an instant that is over. */
  lemma LapsedNeverAborts(cfg: Config, s: State, es: seq<Event>, t: Tid, instant: U64)
    requires Sparing(PcOf(s, t), instant)
    requires Along(cfg, s, es, (x, e) => ThisCallOnly(t, x, e) && Lapsed(x.mem, instant))
    ensures Sparing(PcOf(Exec(cfg, s, es), t), instant)
  {
    hide Step, ClientStep, Sparing, Lapsed, Exec, Along, Wake;
    var rule := (x: State, e) => ThisCallOnly(t, x, e) && Lapsed(x.mem, instant);
    var inv := (x: State) => Sparing(PcOf(x, t), instant);
    forall x: State, e | inv(x) && rule(x, e) ensures inv(Step(cfg, x, e)) {
      var w := NextPc(cfg, t, x, e);
      var ch := if e.Client? then e.choice else Choice(OpCron, false, Interrupted);
      SparingStep(cfg, x.mem, PcOf(x, t), ch, w, instant);
    }
    AlongKeeps(cfg, inv, s, es, rule);
  }

  // -- Nothing else is reported as reaped --

  /** No word is marked, and expiration_ns is at or above an instant that is still to come. */
  predicate Alive(m: Mem, instant: U64) {
    m.now <= instant <= m.expiration < SENTINEL && m.open < SENTINEL && m.closed < SENTINEL
  }

  /** Nothing the thread has loaded will make it say that the interlock is gone. */
  predicate Trusting(pc: Pc, instant: U64) {
    match pc
    case OnWord(WordTime(_, _, exp)) => instant <= exp
    case OnTimer(TimerTime(_, _, exp)) => instant <= exp
    case OnCron(CronTime(_, _, exp)) => instant <= exp
    case OnBarrier(BarrierExp(closed, open)) => closed < SENTINEL && open < SENTINEL
    case OnBarrier(BarrierOpen(closed)) => closed < SENTINEL
    case OnBarrier(BarrierTime2(exp)) => instant <= exp
    case _ => !SaysReaped(pc)
  }

  lemma TrustingStep(cfg: Config, m: Mem, pc: Pc, ch: Choice, w: Option<Word>, instant: U64)
    requires Trusting(pc, instant)
    ensures Alive(m, instant) ==> Trusting(ClientStep(cfg, m, pc, ch).pc, instant)
    ensures Trusting(Wake(w, pc), instant)
  {
  }

  /**
   While no word is marked and expiration_ns stays at or above an instant still to come, no call that
   begins, of whatever kind and however many follow each other, says that the interlock is gone.
   */
  lemma AliveIsNotReaped(cfg: Config, s: State, es: seq<Event>, t: Tid, op: Op, instant: U64)
    requires PcOf(s, t) == Begin(op)
    requires Along(cfg, s, es, (x: State, e) => Alive(x.mem, instant))
    ensures !SaysReaped(PcOf(Exec(cfg, s, es), t))
  {
    hide Step, ClientStep, Trusting, Alive, Exec, Along, Wake, Begin, SaysReaped;
    var rule := (x: State, e) => Alive(x.mem, instant);
    var inv := (x: State) => Trusting(PcOf(x, t), instant);
    forall x: State, e | inv(x) && rule(x, e) ensures inv(Step(cfg, x, e)) {
      var w := NextPc(cfg, t, x, e);
      var ch := if e.Client? then e.choice else Choice(OpCron, false, Interrupted);
      TrustingStep(cfg, x.mem, PcOf(x, t), ch, w, instant);
    }
    BeginsTrusting(op, instant);
    AlongKeeps(cfg, inv, s, es, rule);
    TrustingMeans(PcOf(Exec(cfg, s, es), t), instant);
  }

  lemma BeginsTrusting(op: Op, instant: U64)
    ensures Trusting(Begin(op), instant)
  {
  }

  lemma TrustingMeans(pc: Pc, instant: U64)
    requires Trusting(pc, instant)
    ensures !SaysReaped(pc)
  {
  }
}
