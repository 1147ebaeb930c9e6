/**
 Every call serves what it was asked for, from its first step to its answer: which calls a handle offers, and that
 a call keeps its arguments through arms, sleeps, wakes and retries.
 */
module Calls {
  import opened Core
  import opened Protocol
  import opened OneCall

  /** Every owner may touch and free; open, close and their waits are for bare interlocks and attachers. */
  predicate Offered(cfg: Config, op: Op) {
    || op.OpTouch? || op.OpOwnerFree?
    || ((op.OpAdd? || op.OpWaitWord?) && (cfg.tier == Interlock || cfg.attachers))
    || (op.OpAttacherFree? && cfg.attachers)
    || ((op.OpTimer? || op.OpTimerUntil?) && cfg.tier == WaitTimer)
    || (op.OpCounter? && cfg.tier == WaitCounter)
    || (op.OpCron? && cfg.tier == WaitCron)
    || (op.OpBarrier? && cfg.tier == WaitBarrier)
  }

  /** The call of a timer, where it has one. */
  function TimerCallOf(pc: Pc): Option<TimerCall> {
    match pc
    case OnArm(a) => if a.caller.TimerCaller? then Some(a.caller.call) else None
    case Enter(_, _, _, TimerWaiter(wait)) => Some(wait.call)
    case Blocked(_, _, _, TimerWaiter(wait)) => Some(wait.call)
    case OnTimer(TimerLoad(call)) => Some(call)
    case OnTimer(TimerCas(call, _)) => Some(call)
    case OnTimer(TimerDeadline(call, _)) => Some(call)
    case OnTimer(TimerClosed(wait)) => Some(wait.call)
    case OnTimer(TimerOpen(wait, _)) => Some(wait.call)
    case OnTimer(TimerExp(wait, _)) => Some(wait.call)
    case OnTimer(TimerTime(wait, _, _)) => Some(wait.call)
    case OnTimer(TimerDone(call, _)) => Some(call)
    case _ => None
  }

  function CounterCallOf(pc: Pc): Option<CounterCall> {
    match pc
    case OnArm(a) => if a.caller.CounterCaller? then Some(a.caller.counter) else None
    case Enter(_, _, _, CounterWaiter(c)) => Some(c)
    case Blocked(_, _, _, CounterWaiter(c)) => Some(c)
    case OnCounter(CounterLoad(c)) => Some(c)
    case OnCounter(CounterCas(c, _)) => Some(c)
    case OnCounter(CounterClosed(c)) => Some(c)
    case OnCounter(CounterOpen(c, _)) => Some(c)
    case OnCounter(CounterClosed2(c, _)) => Some(c)
    case OnCounter(CounterOpen2(c, _, _)) => Some(c)
    case OnCounter(CounterExp2(c, _, _)) => Some(c)
    case OnCounter(CounterDone(c, _)) => Some(c)
    case _ => None
  }

  predicate SleepsFor(pc: Pc, waiter: Waiter) {
    (pc.Enter? || pc.Blocked?) && pc.waiter == waiter
  }

  predicate Wakes(pc: Pc, words: seq<Word>) {
    pc.Idle? || (pc.Waking? && |pc.words| <= |words| && pc.words == words[|words| - |pc.words|..])
  }

  /** The thread is in this call, with these arguments, or the call is over. */
  predicate Serves(pc: Pc, op: Op) {
    match op
    case OpTouch(ttl) => (pc.OnArm? && pc.arm.caller.TouchCaller? && pc.arm.ttl == ttl) || pc.TouchDone?
    case OpAdd(word, h) => pc == Add(word, h) || Wakes(pc, [word])
    case OpOwnerFree => pc.OwnerFree? || Wakes(pc, [OpenWord, ClosedWord])
    case OpAttacherFree => pc.AttacherFree? || Wakes(pc, [OpenWord, ClosedWord])
    case OpWaitWord(word, target) =>
      || pc == OnWord(WordLoad(word, target)) || pc == OnWord(WordExp(word, target))
      || (pc.OnWord? && pc.wordPc.WordTime? && pc.wordPc.word == word && pc.wordPc.target == target)
      || (pc.OnWord? && pc.wordPc.WordDone? && pc.wordPc.target == target)
      || (SleepsFor(pc, WordWaiter(word, target)) && pc.word == word)
    case OpTimer(ms) =>
      || (pc.OnTimer? && pc.timer.TimerClock? && pc.timer.ms == ms)
      || (TimerCallOf(pc).Some? && TimerCallOf(pc).value.ms == ms)
    case OpTimerUntil(until) =>
      || pc == OnTimer(TimerUntil(until))
      || (pc.OnTimer? && pc.timer.TimerClock? && pc.timer.until == until)
      || (TimerCallOf(pc).Some? && TimerCallOf(pc).value.until == until)
    case OpCounter(c) => CounterCallOf(pc) == Some(c)
    case OpCron => pc.OnCron? || ((pc.Enter? || pc.Blocked?) && pc.waiter.CronWaiter?)
    case OpBarrier => pc.OnBarrier? || SleepsFor(pc, BarrierWaiter)
  }

  lemma ServesStep(cfg: Config, m: Mem, pc: Pc, ch: Choice, w: Option<Word>, op: Op)
    requires Serves(pc, op)
    ensures !BetweenCalls(pc) ==> Serves(ClientStep(cfg, m, pc, ch).pc, op)
    ensures Serves(Wake(w, pc), op)
  {
    hide ClientStep, Serves, Wake, BetweenCalls;
    match op
    case OpTimer(_) =>
      if pc.OnTimer? {
        TimerServes(cfg, m, pc, ch, w, op);
      } else {
        TimerSleeps(cfg, m, pc, ch, w, op);
      }
    case OpTimerUntil(_) =>
      if pc.OnTimer? {
        TimerServes(cfg, m, pc, ch, w, op);
      } else {
        TimerSleeps(cfg, m, pc, ch, w, op);
      }
    case OpCounter(_) => CounterServes(cfg, m, pc, ch, w, op);
    case OpTouch(_) => TouchServes(cfg, m, pc, ch, w, op);
    case OpWaitWord(_, _) => WordServes(cfg, m, pc, ch, w, op);
    case OpCron => CronServes(cfg, m, pc, ch, w, op);
    case OpBarrier => BarrierServes(cfg, m, pc, ch, w, op);
    case _ => StoreServes(cfg, m, pc, ch, w, op);
  }

  lemma TimerServes(cfg: Config, m: Mem, pc: Pc, ch: Choice, w: Option<Word>, op: Op)
    requires Serves(pc, op) && (op.OpTimer? || op.OpTimerUntil?) && pc.OnTimer?
    ensures Wake(w, pc) == pc
    ensures !BetweenCalls(pc) ==> Serves(ClientStep(cfg, m, pc, ch).pc, op)
  {
    hide ArmStep, WordStep, CounterStep, CronStep, BarrierStep;
  }

  lemma TimerSleeps(cfg: Config, m: Mem, pc: Pc, ch: Choice, w: Option<Word>, op: Op)
    requires Serves(pc, op) && (op.OpTimer? || op.OpTimerUntil?) && !pc.OnTimer?
    ensures !BetweenCalls(pc) ==> Serves(ClientStep(cfg, m, pc, ch).pc, op)
    ensures Serves(Wake(w, pc), op)
  {
    hide WordStep, TimerStep, CounterStep, CronStep, BarrierStep;
  }

  lemma CounterServes(cfg: Config, m: Mem, pc: Pc, ch: Choice, w: Option<Word>, op: Op)
    requires Serves(pc, op) && op.OpCounter?
    ensures !BetweenCalls(pc) ==> Serves(ClientStep(cfg, m, pc, ch).pc, op)
    ensures Serves(Wake(w, pc), op)
  {
    hide WordStep, TimerStep, CronStep, BarrierStep;
  }

  lemma TouchServes(cfg: Config, m: Mem, pc: Pc, ch: Choice, w: Option<Word>, op: Op)
    requires Serves(pc, op) && op.OpTouch?
    ensures !BetweenCalls(pc) ==> Serves(ClientStep(cfg, m, pc, ch).pc, op)
    ensures Serves(Wake(w, pc), op)
  {
    hide WordStep, TimerStep, CounterStep, CronStep, BarrierStep;
  }

  lemma StoreServes(cfg: Config, m: Mem, pc: Pc, ch: Choice, w: Option<Word>, op: Op)
    requires Serves(pc, op) && (op.OpAdd? || op.OpOwnerFree? || op.OpAttacherFree?)
    ensures !BetweenCalls(pc) ==> Serves(ClientStep(cfg, m, pc, ch).pc, op)
    ensures Serves(Wake(w, pc), op)
  {
    hide ArmStep, WordStep, TimerStep, CounterStep, CronStep, BarrierStep;
  }

  lemma WordServes(cfg: Config, m: Mem, pc: Pc, ch: Choice, w: Option<Word>, op: Op)
    requires Serves(pc, op) && op.OpWaitWord?
    ensures !BetweenCalls(pc) ==> Serves(ClientStep(cfg, m, pc, ch).pc, op)
    ensures Serves(Wake(w, pc), op)
  {
    hide ArmStep, TimerStep, CounterStep, CronStep, BarrierStep;
  }

  lemma CronServes(cfg: Config, m: Mem, pc: Pc, ch: Choice, w: Option<Word>, op: Op)
    requires Serves(pc, op) && op.OpCron?
    ensures !BetweenCalls(pc) ==> Serves(ClientStep(cfg, m, pc, ch).pc, op)
    ensures Serves(Wake(w, pc), op)
  {
    hide ArmStep, WordStep, TimerStep, CounterStep, BarrierStep;
  }

  lemma BarrierServes(cfg: Config, m: Mem, pc: Pc, ch: Choice, w: Option<Word>, op: Op)
    requires Serves(pc, op) && op.OpBarrier?
    ensures !BetweenCalls(pc) ==> Serves(ClientStep(cfg, m, pc, ch).pc, op)
    ensures Serves(Wake(w, pc), op)
  {
    hide ArmStep, WordStep, TimerStep, CounterStep, CronStep;
  }

  /**
   A thread between calls that makes one its handle offers is in that call from then on, with the arguments it
   gave, up to the answer; a call that is not offered changes nothing.
   */
  lemma CallServesItsArguments(cfg: Config, s: State, ch: Choice, es: seq<Event>, t: Tid)
    requires BetweenCalls(PcOf(s, t))
    requires Along(cfg, Step(cfg, s, Client(t, ch)), es, (x, e) => ThisCallOnly(t, x, e))
    ensures var s' := Step(cfg, s, Client(t, ch));
            && s'.mem == s.mem
            && (if Offered(cfg, ch.op) then Serves(PcOf(Exec(cfg, s', es), t), ch.op) && !BetweenCalls(PcOf(s', t))
                else PcOf(s', t) == PcOf(s, t))
  {
    BeginsServing(cfg, s.mem, PcOf(s, t), ch);
    hide ClientStep, Serves, Exec, Along, Wake, Allowed, Begin;
    if Offered(cfg, ch.op) {
      ServesOn(cfg, Step(cfg, s, Client(t, ch)), es, t, ch.op);
    }
  }

  lemma BeginsServing(cfg: Config, m: Mem, pc: Pc, ch: Choice)
    requires BetweenCalls(pc)
    ensures var o := ClientStep(cfg, m, pc, ch);
            && o.mem == m
            && if Offered(cfg, ch.op) then Serves(o.pc, ch.op) && !BetweenCalls(o.pc) else o.pc == pc
  {
  }

  lemma ServesOn(cfg: Config, s: State, es: seq<Event>, t: Tid, op: Op)
    requires Serves(PcOf(s, t), op) && Along(cfg, s, es, (x, e) => ThisCallOnly(t, x, e))
    ensures Serves(PcOf(Exec(cfg, s, es), t), op)
  {
    hide Step, ClientStep, Serves, Exec, Along, Wake;
    var rule := (x: State, e) => ThisCallOnly(t, x, e);
    var inv := (x: State) => Serves(PcOf(x, t), op);
    forall x: State, e | inv(x) && rule(x, e) ensures inv(Step(cfg, x, e)) {
      var w := NextPc(cfg, t, x, e);
      ServesStep(cfg, x.mem, PcOf(x, t), if e.Client? then e.choice else Choice(OpCron, false, Interrupted), w, op);
    }
    AlongKeeps(cfg, inv, s, es, rule);
  }
}
