/**
 One call of one thread, in a run in which everybody else does as they please: what each event does
 to the thread's program counter, and how many steps of its own the call takes.
 */
module OneCall {
  import opened Core
  import opened Protocol
  import Wakeups

  /** The thread makes no further call. */
  predicate ThisCallOnly(t: Tid, s: State, e: Event) {
    e.Client? && e.t == t ==> !BetweenCalls(PcOf(s, t))
  }

  predicate IsOwn(t: Tid, e: Event) {
    e.Client? && e.t == t
  }

  /** How many of the events are the thread's own steps. */
  function StepsTaken(t: Tid, es: seq<Event>): nat {
    Wakeups.StepsOf(Wakeups.Thread(t), es)
  }

  /** An event either is the thread's own step, or at most wakes it. */
  lemma NextPc(cfg: Config, t: Tid, s: State, e: Event) returns (w: Option<Word>)
    ensures var pc' := PcOf(Step(cfg, s, e), t);
            if IsOwn(t, e) then pc' == ClientStep(cfg, s.mem, PcOf(s, t), e.choice).pc else pc' == Wake(w, PcOf(s, t))
  {
    w := match e
         case Client(u, ch) => ClientStep(cfg, s.mem, PcOf(s, u), ch).wakes
         case Daemon(ch) => DaemonStep(cfg, s.mem, s.daemon, ch).wakes
         case _ => None;
  }

  ghost predicate Approaches(
    cfg: Config, t: Tid, rule: (State, Event) -> bool, keep: Pc -> bool, left: Pc -> nat) {
    forall x, e | keep(PcOf(x, t)) && rule(x, e) ::
      && keep(PcOf(Step(cfg, x, e), t))
      && left(PcOf(Step(cfg, x, e), t)) + (if IsOwn(t, e) then 1 else 0) <= left(PcOf(x, t))
  }

  /** A thread whose every own step brings it nearer to its result gets there in so many steps. */
  lemma {:induction false} KeepsAndEnds(cfg: Config, t: Tid, s: State, es: seq<Event>, rule: (State, Event) -> bool,
                                        keep: Pc -> bool, left: Pc -> nat)
    requires Approaches(cfg, t, rule, keep, left)
    requires keep(PcOf(s, t)) && Along(cfg, s, es, rule)
    ensures keep(PcOf(Exec(cfg, s, es), t))
    ensures left(PcOf(Exec(cfg, s, es), t)) + StepsTaken(t, es) <= left(PcOf(s, t))
    decreases |es|
  {
    hide Step;
    if es != [] {
      KeepsAndEnds(cfg, t, Step(cfg, s, es[0]), es[1..], rule, keep, left);
    }
  }
}
