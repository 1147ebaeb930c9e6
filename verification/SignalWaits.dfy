/**
 Cron and barrier waits over runs in which the counters stay within bounds, whoever moves them: how a fire is
 labelled, and that a marked counter ends the call.
 */
module SignalWaits {
  import opened Core
  import opened Protocol
  import opened OneCall

  function Left(pc: Pc): nat {
    match pc
    case OnCron(CronClosed(_)) => 2
    case OnCron(CronOpen(_, _)) => 1
    case OnBarrier(BarrierClosed) => 3
    case OnBarrier(BarrierOpen(_)) => 2
    case OnBarrier(BarrierExp(_, _)) => 1
    case _ => 0
  }

  // -- The label of a fire --

  /** closed_count is past the start value; open_count is at or above a bound it has not passed, or below. */
  predicate FiredWithin(m: Mem, initial: U64, bound: U64, rearmed: bool) {
    && initial < m.closed < SENTINEL
    && if rearmed then m.closed <= bound <= m.open else m.open < bound <= m.closed
  }

  predicate Labelled(pc: Pc, initial: U64, bound: U64, rearmed: bool) {
    match pc
    case OnCron(CronClosed(i)) => i == initial
    case OnCron(CronOpen(i, v)) => i == initial < v && if rearmed then v <= bound else bound <= v
    case OnCron(CronDone(Delivered(v, state))) =>
      && initial < v && (if rearmed then v <= bound else bound <= v)
      && state == if rearmed then Normal else Overrun
    case _ => false
  }

  lemma LabelledStep(cfg: Config, m: Mem, pc: Pc, ch: Choice, w: Option<Word>, initial: U64, bound: U64, rearmed: bool)
    requires Labelled(pc, initial, bound, rearmed)
    ensures Wake(w, pc) == pc && Left(pc) <= 2 && (Left(pc) == 0 <==> BetweenCalls(pc))
    ensures FiredWithin(m, initial, bound, rearmed) && !BetweenCalls(pc) ==>
              var pc' := ClientStep(cfg, m, pc, ch).pc;
              Labelled(pc', initial, bound, rearmed) && Left(pc') < Left(pc)
  {
  }

  /**
   A cron wait at the top of its loop, while closed_count stays past the call's start value: it returns a later
   value within two own steps. It is Normal while open_count has been re-armed to or above closed_count, and an
   Overrun while open_count is still below.
   */
  lemma FireIsLabelled(cfg: Config, s: State, es: seq<Event>, t: Tid, initial: U64, bound: U64, rearmed: bool)
    requires PcOf(s, t) == OnCron(CronClosed(initial))
    requires Along(cfg, s, es, (x, e) => ThisCallOnly(t, x, e) && FiredWithin(x.mem, initial, bound, rearmed))
    ensures var pc := PcOf(Exec(cfg, s, es), t);
            && Labelled(pc, initial, bound, rearmed)
            && (StepsTaken(t, es) >= 2 ==> BetweenCalls(pc))
  {
    assert Labelled(PcOf(s, t), initial, bound, rearmed);
    hide Step, ClientStep, Labelled, FiredWithin, Exec, Along, Wake, BetweenCalls, Left;
    var rule := (x: State, e) => ThisCallOnly(t, x, e) && FiredWithin(x.mem, initial, bound, rearmed);
    var keep := (pc: Pc) => Labelled(pc, initial, bound, rearmed);
    forall x: State, e | keep(PcOf(x, t)) && rule(x, e)
      ensures keep(PcOf(Step(cfg, x, e), t))
      ensures Left(PcOf(Step(cfg, x, e), t)) + (if IsOwn(t, e) then 1 else 0) <= Left(PcOf(x, t))
    {
      var w := NextPc(cfg, t, x, e);
      var ch := if e.Client? then e.choice else Choice(OpCron, false, Interrupted);
      LabelledStep(cfg, x.mem, PcOf(x, t), ch, w, initial, bound, rearmed);
    }
    KeepsAndEnds(cfg, t, s, es, rule, keep, Left);
    var idle := Choice(OpCron, false, Interrupted);
    LabelledStep(cfg, s.mem, PcOf(Exec(cfg, s, es), t), idle, None, initial, bound, rearmed);
    LabelledStep(cfg, s.mem, PcOf(s, t), idle, None, initial, bound, rearmed);
  }

  // -- A marked counter ends the call --

  /** One particular counter holds the marker. */
  predicate Marked(m: Mem, word: Word) {
    Get(m, word) == SENTINEL
  }

  /** On the way to the end; a marker already loaded is in hand. */
  predicate Stopping(pc: Pc, word: Word) {
    match pc
    case OnCron(CronClosed(_)) => word == ClosedWord
    case OnCron(CronDone(o)) => o.Reaped?
    case OnBarrier(BarrierClosed) => true
    case OnBarrier(BarrierOpen(closed)) => word == ClosedWord ==> closed == SENTINEL
    case OnBarrier(BarrierExp(closed, open)) => if word == ClosedWord then closed == SENTINEL else open == SENTINEL
    case OnBarrier(BarrierDone(o)) => o.Reaped? || o.Delivered?
    case _ => false
  }

  lemma StoppingStep(cfg: Config, m: Mem, pc: Pc, ch: Choice, w: Option<Word>, word: Word)
    requires Stopping(pc, word)
    ensures Wake(w, pc) == pc && (Left(pc) == 0 <==> BetweenCalls(pc)) && Left(pc) <= 3
    ensures Marked(m, word) && !BetweenCalls(pc) ==>
              var pc' := ClientStep(cfg, m, pc, ch).pc; Stopping(pc', word) && Left(pc') < Left(pc)
  {
  }

  /**
   While a counter stays marked, a barrier wait at the top of its loop ends within three own steps, Reaped or
   with the value it loaded, and so does a cron wait while closed_count stays marked, always Reaped. Neither
   sleeps again.
   */
  lemma MarkedCounterEnds(cfg: Config, s: State, es: seq<Event>, t: Tid, word: Word)
    requires var pc := PcOf(s, t);
             pc == OnBarrier(BarrierClosed) || (pc.OnCron? && pc.cron.CronClosed? && word == ClosedWord)
    requires Along(cfg, s, es, (x, e) => ThisCallOnly(t, x, e) && Marked(x.mem, word))
    ensures var pc := PcOf(Exec(cfg, s, es), t);
            && Stopping(pc, word)
            && (StepsTaken(t, es) >= 3 ==> BetweenCalls(pc))
  {
    assert Stopping(PcOf(s, t), word);
    hide Step, ClientStep, Stopping, Marked, Exec, Along, Wake, BetweenCalls, Left;
    var rule := (x: State, e) => ThisCallOnly(t, x, e) && Marked(x.mem, word);
    var keep := (pc: Pc) => Stopping(pc, word);
    forall x: State, e | keep(PcOf(x, t)) && rule(x, e)
      ensures keep(PcOf(Step(cfg, x, e), t))
      ensures Left(PcOf(Step(cfg, x, e), t)) + (if IsOwn(t, e) then 1 else 0) <= Left(PcOf(x, t))
    {
      var w := NextPc(cfg, t, x, e);
      var ch := if e.Client? then e.choice else Choice(OpCron, false, Interrupted);
      StoppingStep(cfg, x.mem, PcOf(x, t), ch, w, word);
    }
    KeepsAndEnds(cfg, t, s, es, rule, keep, Left);
    var idle := Choice(OpCron, false, Interrupted);
    StoppingStep(cfg, s.mem, PcOf(Exec(cfg, s, es), t), idle, None, word);
    StoppingStep(cfg, s.mem, PcOf(s, t), idle, None, word);
  }
}
