/**
 The touch loop over whole runs: the arms of a thread that only touches, when they leave no moment
 uncovered, and that the interlock then lives.
 */
module TouchLoop {
  import opened Core
  import opened Protocol
  import Keepalive

  /** What a record has of thread t, in order: of touches, its completed arms. */
  function Rounds<T>(touches: seq<(Tid, T)>, t: Tid): seq<T> {
    if touches == [] then []
    else
      var last := |touches| - 1;
      Rounds(touches[..last], t) + if touches[last].0 == t then [touches[last].1] else []
  }

  /** Every call of thread t is a touch, with twice the interval for a TTL. */
  predicate OnlyTouches(t: Tid, intervalMs: U64, s: State, e: Event) {
    e.Client? && e.t == t && BetweenCalls(PcOf(s, t)) ==> e.choice.op == OpTouch(Keepalive.TouchTtl(intervalMs))
  }

  // -- One step --

  /** Where a touching thread can be; since: when its last arm returned. */
  predicate Touching(m: Mem, pc: Pc, ttl: U64, since: U64) {
    || pc.Idle? || pc.TouchDone?
    || (pc.OnArm? && pc.arm.caller.TouchCaller? && pc.arm.ttl == ttl
        && (!pc.arm.ArmTime? ==> since <= pc.arm.start <= m.now))
  }

  function Since(rounds: seq<Arm>): U64 {
    if rounds == [] then 0 else rounds[|rounds| - 1].done
  }

  /** One arm after the other. */
  predicate Sequential(rounds: seq<Arm>) {
    && (forall i | 0 <= i < |rounds| :: rounds[i].start <= rounds[i].done)
    && (forall i, j | 0 <= i < j < |rounds| :: rounds[i].done <= rounds[j].start)
  }

  predicate HistoryOf(m: Mem, pc: Pc, rounds: seq<Arm>, ttl: U64) {
    && Sequential(rounds) && Since(rounds) <= m.now
    && (forall i | 0 <= i < |rounds| :: rounds[i].ttl == ttl && rounds[i] in m.armed)
    && Touching(m, pc, ttl, Since(rounds))
  }

  predicate History(s: State, t: Tid, ttl: U64) {
    HistoryOf(s.mem, PcOf(s, t), Rounds(s.touches, t), ttl)
  }

  lemma ArmsAreKept(cfg: Config, s: State, e: Event)
    ensures s.mem.armed <= Step(cfg, s, e).mem.armed && s.mem.now <= Step(cfg, s, e).mem.now
  {
    if e.Client? {
      ClientKeepsArms(cfg, s.mem, PcOf(s, e.t), e.choice);
    } else if e.Daemon? {
      Keepalive.DaemonArmsNothing(cfg, s.mem, s.daemon, e.dchoice);
    }
  }

  lemma ClientKeepsArms(cfg: Config, m: Mem, pc: Pc, ch: Choice)
    ensures m.armed <= ClientStep(cfg, m, pc, ch).mem.armed && ClientStep(cfg, m, pc, ch).mem.now == m.now
  {
  }

  /** A step completes at most one round, and that one now. */
  lemma RoundsStep(cfg: Config, s: State, e: Event, t: Tid)
    ensures var r, r' := Rounds(s.touches, t), Rounds(Step(cfg, s, e).touches, t);
            r' == r || (e.Client? && e.t == t && |r'| == |r| + 1 && r <= r' && r'[|r|].done == s.mem.now)
  {
    hide ClientStep, DaemonStep;
    var touches := Step(cfg, s, e).touches;
    if e.Client? {
      ClientKeepsArms(cfg, s.mem, PcOf(s, e.t), e.choice);
      if touches != s.touches {
        assert touches[..|touches| - 1] == s.touches;
      }
    }
  }

  /** The toucher's own step. */
  lemma TouchSteps(cfg: Config, m: Mem, pc: Pc, ch: Choice, ttl: U64, since: U64)
    requires Touching(m, pc, ttl, since) && since <= m.now
    requires BetweenCalls(pc) ==> ch.op == OpTouch(ttl)
    ensures var o := ClientStep(cfg, m, pc, ch);
            var done := pc.OnArm? && !pc.arm.ArmTime? && o.pc == TouchDone(true);
            && Touching(o.mem, o.pc, ttl, if done then m.now else since)
            && (done ==> o.mem.armed == m.armed + [Arm(pc.arm.start, ttl, m.now)] && since <= pc.arm.start <= m.now)
  {
  }

  lemma PrefixKeeps(a: seq<Arm>, b: seq<Arm>)
    requires a <= b
    ensures forall x | x in a :: x in b
  {
    forall x | x in a ensures x in b {
      var i :| 0 <= i < |a| && a[i] == x;
      assert b[i] == x;
    }
  }

  lemma OneMore(rounds: seq<Arm>, a: Arm)
    requires Sequential(rounds) && Since(rounds) <= a.start <= a.done
    ensures Sequential(rounds + [a])
  {
    forall i | 0 <= i < |rounds| ensures rounds[i].done <= a.start {
      if i < |rounds| - 1 {
        assert rounds[i].done <= rounds[|rounds| - 1].start;
      }
    }
  }

  /** The rounds after a step of their own thread. */
  function Next(m: Mem, pc: Pc, o: ClientOut, rounds: seq<Arm>): seq<Arm> {
    if pc.OnArm? && !pc.arm.ArmTime? && pc.arm.caller.TouchCaller? && o.pc == TouchDone(true)
    then rounds + [Arm(pc.arm.start, pc.arm.ttl, o.mem.now)]
    else rounds
  }

  lemma OwnStep(cfg: Config, m: Mem, pc: Pc, ch: Choice, rounds: seq<Arm>, ttl: U64)
    requires HistoryOf(m, pc, rounds, ttl) && (BetweenCalls(pc) ==> ch.op == OpTouch(ttl))
    ensures var o := ClientStep(cfg, m, pc, ch); HistoryOf(o.mem, o.pc, Next(m, pc, o, rounds), ttl)
  {
    hide ClientStep, BetweenCalls;
    var o := ClientStep(cfg, m, pc, ch);
    TouchSteps(cfg, m, pc, ch, ttl, Since(rounds));
    ClientKeepsArms(cfg, m, pc, ch);
    PrefixKeeps(m.armed, o.mem.armed);
    if Next(m, pc, o, rounds) != rounds {
      var a := Arm(pc.arm.start, ttl, m.now);
      assert o.mem.armed[|m.armed|] == a;
      OneMore(rounds, a);
    }
  }

  lemma OwnHistory(cfg: Config, s: State, t: Tid, ch: Choice, intervalMs: U64)
    requires History(s, t, Keepalive.TouchTtl(intervalMs)) && OnlyTouches(t, intervalMs, s, Client(t, ch))
    ensures History(Step(cfg, s, Client(t, ch)), t, Keepalive.TouchTtl(intervalMs))
  {
    hide ClientStep, Keepalive.TouchTtl, HistoryOf, Rounds, BetweenCalls;
    var pc := PcOf(s, t);
    OwnStep(cfg, s.mem, pc, ch, Rounds(s.touches, t), Keepalive.TouchTtl(intervalMs));
    RoundsAppend(s.touches, t, Arm(if pc.OnArm? && !pc.arm.ArmTime? then pc.arm.start else 0,
                                   if pc.OnArm? then pc.arm.ttl else 0, ClientStep(cfg, s.mem, pc, ch).mem.now));
  }

  lemma RoundsAppend<T>(touches: seq<(Tid, T)>, t: Tid, a: T)
    ensures Rounds(touches + [(t, a)], t) == Rounds(touches, t) + [a]
  {
    assert (touches + [(t, a)])[..|touches|] == touches;
  }

  lemma HistoryLater(m: Mem, m': Mem, w: Option<Word>, pc: Pc, rounds: seq<Arm>, ttl: U64)
    requires HistoryOf(m, pc, rounds, ttl) && m.armed <= m'.armed && m.now <= m'.now
    ensures HistoryOf(m', Wake(w, pc), rounds, ttl)
  {
    PrefixKeeps(m.armed, m'.armed);
  }

  lemma HistoryStep(cfg: Config, s: State, e: Event, t: Tid, intervalMs: U64)
    requires History(s, t, Keepalive.TouchTtl(intervalMs)) && OnlyTouches(t, intervalMs, s, e)
    ensures History(Step(cfg, s, e), t, Keepalive.TouchTtl(intervalMs))
  {
    if e.Client? && e.t == t {
      OwnHistory(cfg, s, t, e.choice, intervalMs);
    } else {
      hide ClientStep, DaemonStep, Keepalive.TouchTtl, HistoryOf, Rounds;
      var s', ttl := Step(cfg, s, e), Keepalive.TouchTtl(intervalMs);
      ArmsAreKept(cfg, s, e);
      RoundsStep(cfg, s, e, t);
      var w := if e.Client? then ClientStep(cfg, s.mem, PcOf(s, e.t), e.choice).wakes
               else if e.Daemon? then DaemonStep(cfg, s.mem, s.daemon, e.dchoice).wakes else None;
      HistoryLater(s.mem, s'.mem, w, PcOf(s, t), Rounds(s.touches, t), ttl);
    }
  }

  // -- Whole runs --

  lemma HistoryAlways(cfg: Config, s: State, es: seq<Event>, t: Tid, intervalMs: U64)
    requires Init(cfg, s) && Along(cfg, s, es, (x, e) => OnlyTouches(t, intervalMs, x, e))
    ensures History(Exec(cfg, s, es), t, Keepalive.TouchTtl(intervalMs))
  {
    var rule := (x, e) => OnlyTouches(t, intervalMs, x, e);
    var inv := (x: State) => History(x, t, Keepalive.TouchTtl(intervalMs));
    forall x, e | inv(x) && rule(x, e) ensures inv(Step(cfg, x, e)) {
      HistoryStep(cfg, x, e, t, intervalMs);
    }
    AlongKeeps(cfg, inv, s, es, rule);
  }

  /** Rounds are only added, and those added later return later. */
  lemma {:induction false} RoundsGrow(cfg: Config, s: State, es: seq<Event>, t: Tid)
    ensures var r, r' := Rounds(s.touches, t), Rounds(Exec(cfg, s, es).touches, t);
            && r <= r' && s.mem.now <= Exec(cfg, s, es).mem.now
            && forall j | |r| <= j < |r'| :: s.mem.now <= r'[j].done
    decreases |es|
  {
    hide Step, Rounds;
    if es != [] {
      ArmsAreKept(cfg, s, es[0]);
      RoundsStep(cfg, s, es[0], t);
      RoundsGrow(cfg, Step(cfg, s, es[0]), es[1..], t);
    }
  }

  lemma RoundsAt(cfg: Config, s: State, es: seq<Event>, t: Tid, k: nat)
    requires k <= |es|
    ensures var x, y := Exec(cfg, s, es[..k]), Exec(cfg, s, es);
            var r, r' := Rounds(x.touches, t), Rounds(y.touches, t);
            && r <= r' && x.mem.now <= y.mem.now
            && forall j | |r| <= j < |r'| :: x.mem.now <= r'[j].done
  {
    hide Step, Rounds;
    assert es == es[..k] + es[k..];
    ExecConcat(cfg, s, es[..k], es[k..]);
    RoundsGrow(cfg, Exec(cfg, s, es[..k]), es[k..], t);
  }

  /** The step that completes round i. */
  lemma {:induction false} CompletesAt(cfg: Config, s: State, es: seq<Event>, t: Tid, i: nat) returns (k: nat)
    requires |Rounds(s.touches, t)| <= i < |Rounds(Exec(cfg, s, es).touches, t)|
    ensures k < |es| && |Rounds(Exec(cfg, s, es[..k]).touches, t)| == i
    ensures Rounds(Exec(cfg, s, es).touches, t)[i].done == Exec(cfg, s, es[..k]).mem.now
    decreases |es|
  {
    hide Step, Rounds;
    var s', rest := Step(cfg, s, es[0]), es[1..];
    RoundsStep(cfg, s, es[0], t);
    RoundsGrow(cfg, s', rest, t);
    if |Rounds(s'.touches, t)| == i + 1 {
      k := 0;
      assert es[..0] == [];
    } else {
      var j := CompletesAt(cfg, s', rest, t, i);
      k := j + 1;
      assert es[..k][0] == es[0] && es[..k][1..] == rest[..j];
    }
  }

  // -- When the rounds leave no moment uncovered --

  /** Thread t has completed an arm that read the time less than a TTL ago. */
  ghost predicate Fresh(s: State, t: Tid, ttl: U64) {
    exists i :: 0 <= i < |Rounds(s.touches, t)| && s.mem.now < Rounds(s.touches, t)[i].start + ttl
  }

  /** Each arm returns within one TTL of the time that the arm before it read. */
  predicate InTime(rounds: seq<Arm>, ttl: U64) {
    forall i | 0 < i < |rounds| :: rounds[i].done < rounds[i - 1].start + ttl
  }

  lemma InTimeIsFresh(cfg: Config, s: State, es: seq<Event>, t: Tid, ttl: U64, k: nat)
    requires InTime(Rounds(Exec(cfg, s, es).touches, t), ttl) && k <= |es|
    requires 1 <= |Rounds(Exec(cfg, s, es[..k]).touches, t)| < |Rounds(Exec(cfg, s, es).touches, t)|
    ensures Fresh(Exec(cfg, s, es[..k]), t, ttl)
  {
    hide Exec, Rounds;
    RoundsAt(cfg, s, es, t, k);
    var x := Exec(cfg, s, es[..k]);
    var r, r' := Rounds(x.touches, t), Rounds(Exec(cfg, s, es).touches, t);
    var n := |r|;
    assert r'[n].done < r'[n - 1].start + ttl && r[n - 1] == r'[n - 1];
    assert x.mem.now < r[n - 1].start + ttl;
  }

  /** From the first completed arm of thread t to its last, there is a fresh one in every state of the run. */
  ghost predicate FreshThroughout(cfg: Config, s: State, es: seq<Event>, t: Tid, ttl: U64) {
    forall k: nat | k <= |es| ::
      1 <= |Rounds(Exec(cfg, s, es[..k]).touches, t)| < |Rounds(Exec(cfg, s, es).touches, t)| ==>
        Fresh(Exec(cfg, s, es[..k]), t, ttl)
  }

  lemma FreshIsInTime(cfg: Config, s: State, es: seq<Event>, t: Tid, ttl: U64, i: nat)
    requires Init(cfg, s) && Sequential(Rounds(Exec(cfg, s, es).touches, t)) && FreshThroughout(cfg, s, es, t, ttl)
    requires 0 < i < |Rounds(Exec(cfg, s, es).touches, t)|
    ensures var r := Rounds(Exec(cfg, s, es).touches, t); r[i].done < r[i - 1].start + ttl
  {
    assert Rounds(s.touches, t) == [];
    hide Exec, Rounds, Init, Sequential;
    var k := CompletesAt(cfg, s, es, t, i);
    RoundsAt(cfg, s, es, t, k);
    var x, r := Exec(cfg, s, es[..k]), Rounds(Exec(cfg, s, es).touches, t);
    assert Fresh(x, t, ttl);
    FreshIsLast(Rounds(x.touches, t), r, i, x.mem.now, ttl);
  }

  /** If some completed arm is fresh, the last one is. */
  lemma FreshIsLast(before: seq<Arm>, rounds: seq<Arm>, i: nat, now: U64, ttl: U64)
    requires Sequential(rounds) && before <= rounds && |before| == i > 0
    requires exists j :: 0 <= j < i && now < before[j].start + ttl
    ensures now < rounds[i - 1].start + ttl
  {
    var j :| 0 <= j < i && now < before[j].start + ttl;
    assert before[j] == rounds[j] && (j < i - 1 ==> rounds[j].done <= rounds[i - 1].start);
  }

  /**
   For a thread that only touches, its arms in any run come one after the other, and from its first
   completed arm to its last there is a fresh one in every state if and only if each arm returns
   before one TTL has passed since the arm before it read the time.
   */
  lemma FreshThroughoutIff(cfg: Config, s: State, es: seq<Event>, t: Tid, intervalMs: U64)
    requires Init(cfg, s) && Along(cfg, s, es, (x, e) => OnlyTouches(t, intervalMs, x, e))
    ensures var rounds, ttl := Rounds(Exec(cfg, s, es).touches, t), Keepalive.TouchTtl(intervalMs);
            Sequential(rounds) && (InTime(rounds, ttl) <==> FreshThroughout(cfg, s, es, t, ttl))
  {
    hide Exec, Rounds, Keepalive.TouchTtl, Along, Fresh, Init;
    var rounds, ttl := Rounds(Exec(cfg, s, es).touches, t), Keepalive.TouchTtl(intervalMs);
    HistoryAlways(cfg, s, es, t, intervalMs);
    if InTime(rounds, ttl) {
      forall k: nat | k <= |es|
        ensures 1 <= |Rounds(Exec(cfg, s, es[..k]).touches, t)| < |rounds| ==> Fresh(Exec(cfg, s, es[..k]), t, ttl)
      {
        if 1 <= |Rounds(Exec(cfg, s, es[..k]).touches, t)| < |rounds| {
          InTimeIsFresh(cfg, s, es, t, ttl, k);
        }
      }
    }
    if FreshThroughout(cfg, s, es, t, ttl) {
      forall i | 0 < i < |rounds| ensures rounds[i].done < rounds[i - 1].start + ttl {
        FreshIsInTime(cfg, s, es, t, ttl, i);
      }
    }
  }

  // -- So the interlock lives --

  /** Nobody terminates the interlock or takes its name over. */
  predicate Undisturbed(s: State, e: Event) {
    !Terminated(s.mem.open, s.mem.closed, s.mem.expiration) && (e.Daemon? ==> !e.dchoice.op.Takeover?)
  }

  /**
   The first arm returns before the creation deadline, and each other one, and the end of the run,
   comes before the arm before it lapses.
   */
  predicate KeptUp(rounds: seq<Arm>, created: U64, ttl: U64, now: U64) {
    && (if rounds == [] then now < created
        else rounds[0].done < created && now < rounds[|rounds| - 1].start + ttl)
    && InTime(rounds, ttl)
    && (forall i | 0 <= i < |rounds| :: rounds[i].start + ttl < TWO64)
  }

  lemma FreshIsTouched(s: State, t: Tid, intervalMs: U64)
    requires History(s, t, Keepalive.TouchTtl(intervalMs)) && Fresh(s, t, Keepalive.TouchTtl(intervalMs))
    requires forall i | 0 <= i < |Rounds(s.touches, t)| ::
               Rounds(s.touches, t)[i].start + Keepalive.TouchTtl(intervalMs) < TWO64
    ensures Keepalive.Touched(intervalMs, s)
  {
    hide Rounds, Keepalive.TouchTtl;
    var rounds := Rounds(s.touches, t);
    var i :| 0 <= i < |rounds| && s.mem.now < rounds[i].start + Keepalive.TouchTtl(intervalMs);
    var j :| 0 <= j < |s.mem.armed| && s.mem.armed[j] == rounds[i];
  }

  lemma AliveAt(cfg: Config, s: State, es: seq<Event>, t: Tid, intervalMs: U64, k: nat)
    requires Init(cfg, s) && Along(cfg, s, es, (x, e) => OnlyTouches(t, intervalMs, x, e)) && k <= |es|
    requires var y := Exec(cfg, s, es);
             KeptUp(Rounds(y.touches, t), s.mem.expiration, Keepalive.TouchTtl(intervalMs), y.mem.now)
    ensures var x := Exec(cfg, s, es[..k]);
            x.mem.now < s.mem.expiration || Keepalive.Touched(intervalMs, x)
  {
    hide Exec, Rounds, Keepalive.TouchTtl, Along, Keepalive.Touched;
    var ttl, x, y := Keepalive.TouchTtl(intervalMs), Exec(cfg, s, es[..k]), Exec(cfg, s, es);
    var r, r' := Rounds(x.touches, t), Rounds(y.touches, t);
    AlongAt(cfg, s, es, (z, e) => OnlyTouches(t, intervalMs, z, e), k);
    HistoryAlways(cfg, s, es[..k], t, intervalMs);
    RoundsAt(cfg, s, es, t, k);
    if r != [] {
      if |r| < |r'| {
        InTimeIsFresh(cfg, s, es, t, ttl, k);
      } else {
        assert x.mem.now < r[|r| - 1].start + ttl;
        assert Fresh(x, t, ttl);
      }
      FreshIsTouched(x, t, intervalMs);
    }
  }

  /**
   In every run in which a thread touches the interlock with its loop's TTL, the first touch returns
   before the creation deadline and each later one before the one before it lapses, and nobody
   terminates the interlock or takes its name over, no pass reaps it.
   */
  lemma TouchingKeepsAlive(cfg: Config, s: State, es: seq<Event>, t: Tid, intervalMs: U64)
    requires Init(cfg, s)
    requires Along(cfg, s, es, (x, e) => OnlyTouches(t, intervalMs, x, e) && Undisturbed(x, e))
    requires var y := Exec(cfg, s, es);
             KeptUp(Rounds(y.touches, t), s.mem.expiration, Keepalive.TouchTtl(intervalMs), y.mem.now)
    ensures !Gone(Exec(cfg, s, es).daemon)
  {
    hide Exec, Rounds, Keepalive.TouchTtl, Along, OnlyTouches, KeptUp, Keepalive.Touched;
    var both := (x, e) => OnlyTouches(t, intervalMs, x, e) && Undisturbed(x, e);
    var touches := (x, e) => OnlyTouches(t, intervalMs, x, e);
    var loop := (x, e) => Keepalive.TouchLoop(intervalMs, s.mem.expiration, x, e);
    forall k: nat | k < |es| ensures touches(Exec(cfg, s, es[..k]), es[k]) {
      AlongAt(cfg, s, es, both, k);
    }
    AlongFrom(cfg, s, es, touches);
    forall k: nat | k < |es| ensures loop(Exec(cfg, s, es[..k]), es[k]) {
      AlongAt(cfg, s, es, both, k);
      AliveAt(cfg, s, es, t, intervalMs, k);
    }
    AlongFrom(cfg, s, es, loop);
    Keepalive.TouchLoopKeepsAlive(cfg, s, es, intervalMs);
  }

  /** Arms at most the interval and some lateness apart, from creation to now, within the clock's range. */
  predicate Spaced(rounds: seq<Arm>, created: U64, interval: nat, late: nat, now: U64) {
    && rounds != [] && rounds[0].done < created
    && now <= rounds[|rounds| - 1].start + interval + late
    && (forall i | 0 < i < |rounds| :: rounds[i].done <= rounds[i - 1].start + interval + late)
    && (forall i | 0 <= i < |rounds| :: rounds[i].start + 2 * interval < TWO64)
  }

  lemma SpacedKeepsUp(rounds: seq<Arm>, created: U64, interval: nat, late: nat, now: U64, ttl: U64)
    requires Spaced(rounds, created, interval, late, now) && late < interval && ttl == 2 * interval
    ensures KeptUp(rounds, created, ttl, now)
  {
  }

  /**
   Why the TTL is twice the interval: a loop that sleeps the interval between its arms keeps the
   interlock alive as long as each sleep and the arms around it lose less than one interval more.
   */
  lemma SleepingLoopKeepsAlive(cfg: Config, s: State, es: seq<Event>, t: Tid, intervalMs: U64, late: nat)
    requires Init(cfg, s)
    requires Along(cfg, s, es, (x, e) => OnlyTouches(t, intervalMs, x, e) && Undisturbed(x, e))
    requires 2 * intervalMs * NANOS_PER_MS < TWO64 && late < intervalMs * NANOS_PER_MS
    requires var y := Exec(cfg, s, es);
             Spaced(Rounds(y.touches, t), s.mem.expiration, intervalMs * NANOS_PER_MS, late, y.mem.now)
    ensures !Gone(Exec(cfg, s, es).daemon)
  {
    assert Keepalive.TouchTtl(intervalMs) == 2 * (intervalMs * NANOS_PER_MS);
    hide Exec, Rounds, Keepalive.TouchTtl, Along, Init, Spaced, KeptUp, Gone, OnlyTouches, Undisturbed;
    var y := Exec(cfg, s, es);
    SpacedKeepsUp(Rounds(y.touches, t), s.mem.expiration, intervalMs * NANOS_PER_MS, late, y.mem.now,
                  Keepalive.TouchTtl(intervalMs));
    TouchingKeepsAlive(cfg, s, es, t, intervalMs);
  }
}
