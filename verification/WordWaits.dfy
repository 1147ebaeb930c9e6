/**
 wait_open and wait_close under every interleaving: what they return was held by the word, at once
 when the word has reached the target.
 */
module WordWaits {
  import opened Core
  import opened Protocol
  import opened OneCall

  predicate Within(m: Mem, word: Word, low: U64, high: U64) {
    low <= Get(m, word) <= high
  }

  /** An unmet value of the word, and the sleep on it. */
  predicate Sleeping(
    on: Word, loaded: U64, timeoutNs: U64, waiter: Waiter, word: Word, target: U64, low: U64, high: U64) {
    && on == word && waiter == WordWaiter(word, target)
    && low <= loaded <= high && loaded < target && timeoutNs == 100_000_000
  }

  /** The call's positions, and its answers: Reaped, or a value of the word that has reached the target. */
  predicate Reading(pc: Pc, word: Word, target: U64, low: U64, high: U64) {
    match pc
    case Enter(on, loaded, timeoutNs, waiter) => Sleeping(on, loaded, timeoutNs, waiter, word, target, low, high)
    case Blocked(on, loaded, timeoutNs, waiter) => Sleeping(on, loaded, timeoutNs, waiter, word, target, low, high)
    case OnWord(WordLoad(w, to)) => w == word && to == target
    case OnWord(WordExp(w, to)) => w == word && to == target
    case OnWord(WordTime(w, to, _)) => w == word && to == target
    case OnWord(WordDone(to, Reaped)) => to == target
    case OnWord(WordDone(to, Delivered(v, state))) =>
      to == target && state.Normal? && target <= v < SENTINEL && low <= v <= high
    case _ => false
  }

  lemma ReadingStep(cfg: Config, m: Mem, pc: Pc, ch: Choice, w: Option<Word>,
                    word: Word, target: U64, low: U64, high: U64)
    requires Reading(pc, word, target, low, high)
    ensures Within(m, word, low, high) && !BetweenCalls(pc) ==>
              Reading(ClientStep(cfg, m, pc, ch).pc, word, target, low, high)
    ensures Reading(Wake(w, pc), word, target, low, high)
  {
  }

  /**
   Over a run in which the word stays between two bounds, wait_open or wait_close with a target returns
   Reaped or an unmarked value within these bounds and at or above the target; so below the target it
   never returns Ok. It sleeps only on a value below the target.
   */
  lemma ReturnsWhatWasHeld(
    cfg: Config, s: State, es: seq<Event>, t: Tid, word: Word, target: U64, low: U64, high: U64)
    requires PcOf(s, t) == OnWord(WordLoad(word, target))
    requires Along(cfg, s, es, (x, e) => ThisCallOnly(t, x, e) && Within(x.mem, word, low, high))
    ensures Reading(PcOf(Exec(cfg, s, es), t), word, target, low, high)
  {
    hide Step, ClientStep, Reading, Within, Exec, Along, Wake;
    var rule := (x: State, e) => ThisCallOnly(t, x, e) && Within(x.mem, word, low, high);
    var inv := (x: State) => Reading(PcOf(x, t), word, target, low, high);
    forall x: State, e | inv(x) && rule(x, e) ensures inv(Step(cfg, x, e)) {
      var w := NextPc(cfg, t, x, e);
      var ch := if e.Client? then e.choice else Choice(OpCron, false, Interrupted);
      ReadingStep(cfg, x.mem, PcOf(x, t), ch, w, word, target, low, high);
    }
    StartsReading(word, target, low, high);
    AlongKeeps(cfg, inv, s, es, rule);
  }

  lemma StartsReading(word: Word, target: U64, low: U64, high: U64)
    ensures Reading(OnWord(WordLoad(word, target)), word, target, low, high)
  {
  }

  /** The answer to a load: the value, or Reaped for the marker. */
  predicate AnswersWith(pc: Pc, target: U64, low: U64, high: U64) {
    match pc
    case OnWord(WordDone(to, Reaped)) => to == target && high == SENTINEL
    case OnWord(WordDone(to, Delivered(v, state))) =>
      to == target && state.Normal? && low <= v <= high && v != SENTINEL
    case _ => false
  }

  /**
   Once the word has reached the target, and stays between bounds that have, the first step of the call
   ends it: with such a value, or Reaped if that is the marker.
   */
  lemma ReachedAnswersAtOnce(
    cfg: Config, s: State, es: seq<Event>, t: Tid, word: Word, target: U64, low: U64, high: U64)
    requires PcOf(s, t) == OnWord(WordLoad(word, target)) && target <= low
    requires Along(cfg, s, es, (x, e) => ThisCallOnly(t, x, e) && Within(x.mem, word, low, high))
    ensures var pc := PcOf(Exec(cfg, s, es), t);
            && (pc == OnWord(WordLoad(word, target)) || AnswersWith(pc, target, low, high))
            && (StepsTaken(t, es) >= 1 ==> AnswersWith(pc, target, low, high))
  {
    hide Step, ClientStep, Within, Exec, Along, Wake, AnswersWith;
    var start := OnWord(WordLoad(word, target));
    var rule := (x: State, e) => ThisCallOnly(t, x, e) && Within(x.mem, word, low, high);
    var keep := (pc: Pc) => pc == start || AnswersWith(pc, target, low, high);
    var left := (pc: Pc) => if pc == start then 1 else 0;
    forall x: State, e | keep(PcOf(x, t)) && rule(x, e)
      ensures keep(PcOf(Step(cfg, x, e), t))
      ensures left(PcOf(Step(cfg, x, e), t)) + (if IsOwn(t, e) then 1 else 0) <= left(PcOf(x, t))
    {
      var w := NextPc(cfg, t, x, e);
      AnswerStays(start, PcOf(x, t), w, target, low, high);
      if IsOwn(t, e) {
        LoadAnswers(cfg, x.mem, e.choice, word, target, low, high);
      }
    }
    KeepsAndEnds(cfg, t, s, es, rule, keep, left);
  }

  lemma LoadAnswers(cfg: Config, m: Mem, ch: Choice, word: Word, target: U64, low: U64, high: U64)
    requires Within(m, word, low, high) && target <= low
    ensures AnswersWith(ClientStep(cfg, m, OnWord(WordLoad(word, target)), ch).pc, target, low, high)
  {
  }

  lemma AnswerStays(start: Pc, pc: Pc, w: Option<Word>, target: U64, low: U64, high: U64)
    requires start.OnWord? && start.wordPc.WordLoad?
    requires pc == start || AnswersWith(pc, target, low, high)
    ensures Wake(w, pc) == pc
    ensures BetweenCalls(pc) <==> pc != start
    ensures !AnswersWith(start, target, low, high)
  {
  }
}
