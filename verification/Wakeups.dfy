/**
 No lost wake-up: a thread asleep in futex_wait either still has the value it expects in
 the word, or a thread that changed the word has its futex_wake still to come.
 */
module Wakeups {
  import opened Core
  import opened Protocol
  import Lattice

  /** The thread will wake the word before its call ends. */
  predicate ClientOwes(pc: Pc, w: Word) {
    pc.Waking? && w in pc.words
  }

  predicate DaemonOwes(d: Dpc, w: Word) {
    || (d.DReapClosed? && w == OpenWord)
    || d.DReapExp?
    || (d.DWaking? && w in d.words)
  }

  /** Who can owe a wake. */
  datatype Actor = TheDaemon | Thread(t: Tid)

  predicate Owes(s: State, a: Actor, w: Word) {
    match a
    case TheDaemon => DaemonOwes(s.daemon, w)
    case Thread(t) => t in s.threads && ClientOwes(s.threads[t], w)
  }

  ghost predicate Owed(s: State, w: Word) {
    exists a :: Owes(s, a, w)
  }

  predicate Asleep(pc: Pc, w: Word) {
    pc.Blocked? && pc.word == w
  }

  /**
   The words whose every writer wakes: closed_count always; open_count when no
   compare-exchange sets it as a target and no cron re-arm moves it.
   */
  predicate Woken(cfg: Config, w: Word) {
    w == ClosedWord || cfg.tier == Interlock || cfg.tier == WaitBarrier
  }

  ghost predicate NoneLost(s: State, w: Word) {
    forall t | t in s.threads && Asleep(s.threads[t], w) ::
      Lo32(Get(s.mem, w)) == Lo32(s.threads[t].loaded) || Owed(s, w)
  }

  ghost predicate WakeInv(cfg: Config, s: State) {
    && AllFit(cfg, s)
    && NoneLost(s, ClosedWord)
    && (Woken(cfg, OpenWord) ==> NoneLost(s, OpenWord))
  }

  /** Whoever changes a watched word owes its wake, and a debt is paid only by waking. */
  lemma ClientPays(cfg: Config, m: Mem, pc: Pc, ch: Choice, w: Word)
    requires Fits(cfg, pc)
    ensures var o := ClientStep(cfg, m, pc, ch);
            && (Woken(cfg, w) && Get(o.mem, w) != Get(m, w) ==> ClientOwes(o.pc, w))
            && (ClientOwes(pc, w) ==> ClientOwes(o.pc, w) || o.wakes == Some(w))
            && (Asleep(o.pc, w) ==>
                  Lo32(Get(o.mem, w)) == Lo32(o.pc.loaded) || (o.pc == pc && o.mem == m && o.wakes == None))
  {
    hide Lo32, Wrap;
    if pc.Waking? && pc.words != [] {
      assert pc.words == [pc.words[0]] + pc.words[1..];
    }
  }

  lemma DaemonPays(cfg: Config, m: Mem, d: Dpc, ch: DChoice, w: Word)
    requires FitsDaemon(cfg, d)
    ensures var o := DaemonStep(cfg, m, d, ch);
            && (Woken(cfg, w) && Get(o.mem, w) != Get(m, w) ==> DaemonOwes(o.daemon, w))
            && (DaemonOwes(d, w) ==> DaemonOwes(o.daemon, w) || o.wakes == Some(w))
  {
    if d.DWaking? && d.words != [] {
      assert d.words == [d.words[0]] + d.words[1..];
    }
  }

  lemma StepSleeps(cfg: Config, s: State, e: Event, w: Word)
    requires AllFit(cfg, s) && Woken(cfg, w) && NoneLost(s, w)
    ensures NoneLost(Step(cfg, s, e), w)
  {
    match e
    case Client(t, ch) => ClientKeepsSleep(cfg, s, t, ch, w);
    case Daemon(ch) => DaemonKeepsSleep(cfg, s, ch, w);
    case _ => assert forall a :: Owes(s, a, w) ==> Owes(Step(cfg, s, e), a, w);
  }

  lemma ClientKeepsSleep(cfg: Config, s: State, t: Tid, ch: Choice, w: Word)
    requires AllFit(cfg, s) && Woken(cfg, w) && NoneLost(s, w)
    ensures NoneLost(Step(cfg, s, Client(t, ch)), w)
  {
    hide ClientStep, DaemonStep;
    var pc := PcOf(s, t);
    var o := ClientStep(cfg, s.mem, pc, ch);
    var s' := Step(cfg, s, Client(t, ch));
    ClientPays(cfg, s.mem, pc, ch, w);
    assert s'.threads[t] == o.pc;
    if o.wakes != Some(w) && Owed(s, w) {
      var a :| Owes(s, a, w);
      assert Owes(s', a, w);
    } else if o.wakes != Some(w) && Get(o.mem, w) != Get(s.mem, w) {
      assert Owes(s', Thread(t), w);
    }
  }

  lemma DaemonKeepsSleep(cfg: Config, s: State, ch: DChoice, w: Word)
    requires AllFit(cfg, s) && Woken(cfg, w) && NoneLost(s, w)
    ensures NoneLost(Step(cfg, s, Daemon(ch)), w)
  {
    var o := DaemonStep(cfg, s.mem, s.daemon, ch);
    var s' := Step(cfg, s, Daemon(ch));
    DaemonPays(cfg, s.mem, s.daemon, ch, w);
    if o.wakes != Some(w) && Owed(s, w) {
      var a :| Owes(s, a, w);
      assert Owes(s', a, w);
    } else if o.wakes != Some(w) && Get(o.mem, w) != Get(s.mem, w) {
      assert Owes(s', TheDaemon, w);
    }
  }

  lemma WakeInvAlways(cfg: Config, s: State, es: seq<Event>)
    requires Init(cfg, s)
    ensures WakeInv(cfg, Exec(cfg, s, es))
  {
    var inv := (x: State) => WakeInv(cfg, x);
    forall x, e | inv(x) ensures inv(Step(cfg, x, e)) {
      StepFits(cfg, x, e);
      StepSleeps(cfg, x, e, ClosedWord);
      if Woken(cfg, OpenWord) {
        StepSleeps(cfg, x, e, OpenWord);
      }
    }
    ExecKeeps(cfg, inv, s, es);
  }

  // -- A debt is paid --

  predicate IsStepOf(a: Actor, e: Event) {
    match a
    case TheDaemon => e.Daemon?
    case Thread(t) => e.Client? && e.t == t
  }

  function StepsOf(a: Actor, es: seq<Event>): nat {
    if es == [] then 0 else (if IsStepOf(a, es[0]) then 1 else 0) + StepsOf(a, es[1..])
  }

  predicate IsAsleep(s: State, t: Tid) {
    t in s.threads && s.threads[t].Blocked?
  }

  ghost predicate WokenDuring(cfg: Config, s: State, es: seq<Event>, t: Tid) {
    exists k: nat :: k <= |es| && !IsAsleep(Exec(cfg, s, es[..k]), t)
  }

  function Position(ws: seq<Word>, w: Word): nat {
    if ws != [] && ws[0] == w then 1 else 2
  }

  /** How many steps of its own the debtor is away from the wake. */
  function Debt(s: State, a: Actor, w: Word): (n: nat)
    requires Owes(s, a, w)
    ensures 1 <= n <= 3
  {
    match a
    case Thread(t) => Position(s.threads[t].words, w)
    case TheDaemon =>
      if s.daemon.DReapClosed? then 3
      else if s.daemon.DReapExp? then 1 + Position([OpenWord, ClosedWord], w)
      else Position(s.daemon.words, w)
  }

  /** After a step, t is awake or still sleeps on w with the same debtor owing `left` at most. */
  predicate Nearer(s: State, a: Actor, w: Word, t: Tid, left: int) {
    !IsAsleep(s, t) || (Asleep(s.threads[t], w) && Owes(s, a, w) && Debt(s, a, w) <= left)
  }

  lemma DebtorSteps(cfg: Config, s: State, a: Actor, w: Word, t: Tid, e: Event)
    requires AllFit(cfg, s) && t in s.threads && Asleep(s.threads[t], w) && Owes(s, a, w) && IsStepOf(a, e)
    ensures Nearer(Step(cfg, s, e), a, w, t, Debt(s, a, w) - 1)
  {
    hide ArmStep, WordStep, TimerStep, CounterStep, CronStep, BarrierStep, Contract, Judge;
    match a
    case Thread(d) => WakingMoves(s.threads[d].words, w);
    case TheDaemon =>
      if s.daemon.DWaking? {
        WakingMoves(s.daemon.words, w);
      }
  }

  lemma WakingMoves(ws: seq<Word>, w: Word)
    requires w in ws && |ws| <= 2
    ensures ws[0] == w || (ws[1..] == [w] && |ws| == 2)
  {
    assert ws == [ws[0]] + ws[1..];
  }

  lemma OtherSteps(cfg: Config, s: State, a: Actor, w: Word, t: Tid, e: Event)
    requires t in s.threads && Asleep(s.threads[t], w) && Owes(s, a, w) && !IsStepOf(a, e)
    ensures Nearer(Step(cfg, s, e), a, w, t, Debt(s, a, w))
  {
    hide ArmStep, WordStep, TimerStep, CounterStep, CronStep, BarrierStep, DaemonStep;
  }

  /**
   Whatever anybody chooses and whatever the kernel returns: in every run in which the debtor
   takes as many steps as its debt says, at most three, the sleeper is woken.
   */
  lemma {:induction false} DebtPaid(cfg: Config, s: State, a: Actor, w: Word, t: Tid, es: seq<Event>)
    requires AllFit(cfg, s) && t in s.threads && Asleep(s.threads[t], w) && Owes(s, a, w)
    requires StepsOf(a, es) >= Debt(s, a, w)
    ensures WokenDuring(cfg, s, es, t)
    decreases |es|
  {
    hide Step;
    var s' := Step(cfg, s, es[0]);
    StepFits(cfg, s, es[0]);
    if IsStepOf(a, es[0]) {
      DebtorSteps(cfg, s, a, w, t, es[0]);
    } else {
      OtherSteps(cfg, s, a, w, t, es[0]);
    }
    if IsAsleep(s', t) {
      DebtPaid(cfg, s', a, w, t, es[1..]);
      WokenLater(cfg, s, es, t);
    } else {
      assert es[..1] == [es[0]] && Exec(cfg, s, es[..1]) == s';
    }
  }

  lemma WokenLater(cfg: Config, s: State, es: seq<Event>, t: Tid)
    requires es != [] && WokenDuring(cfg, Step(cfg, s, es[0]), es[1..], t)
    ensures WokenDuring(cfg, s, es, t)
  {
    var s' := Step(cfg, s, es[0]);
    var k: nat :| k <= |es[1..]| && !IsAsleep(Exec(cfg, s', es[1..][..k]), t);
    assert es[..k + 1][0] == es[0] && es[..k + 1][1..] == es[1..][..k];
    assert Exec(cfg, s, es[..k + 1]) == Exec(cfg, s', es[1..][..k]);
  }

  /**
   Somebody in particular owes the wake, and every run in which that one takes three steps,
   whatever they and everybody else choose, wakes the thread.
   */
  ghost predicate WakeOnItsWay(cfg: Config, s: State, t: Tid, w: Word) {
    exists a :: Owes(s, a, w) && forall es :: StepsOf(a, es) >= 3 ==> WokenDuring(cfg, s, es, t)
  }

  lemma OwedIsOnItsWay(cfg: Config, s: State, t: Tid, w: Word)
    requires AllFit(cfg, s) && t in s.threads && Asleep(s.threads[t], w) && Owed(s, w)
    ensures WakeOnItsWay(cfg, s, t, w)
  {
    var a :| Owes(s, a, w);
    forall es | StepsOf(a, es) >= 3 ensures WokenDuring(cfg, s, es, t) {
      DebtPaid(cfg, s, a, w, t, es);
    }
  }

  // -- The theorem, and when it holds --

  /** No call of a wait tier's own handle sleeps on its open_count. */
  predicate NeverForgotten(cfg: Config, w: Word) {
    Woken(cfg, w) || !cfg.attachers
  }

  /**
   After any interleaving, a thread asleep on a word has a wake on its way as soon as the word's
   low 32 bits differ from those it loaded; in particular while the word has risen by less
   than 2^32. This covers closed_count always, and open_count unless attachers may sleep on
   that of a timer, counter or cron.
   */
  lemma NoLostWakeup(cfg: Config, s: State, es: seq<Event>, t: Tid, w: Word)
    requires Init(cfg, s) && NeverForgotten(cfg, w)
    ensures var x := Exec(cfg, s, es);
            t in x.threads && Asleep(x.threads[t], w) ==>
              && (Lo32(Get(x.mem, w)) != Lo32(x.threads[t].loaded) ==> WakeOnItsWay(cfg, x, t, w))
              && (x.threads[t].loaded < Get(x.mem, w) < x.threads[t].loaded + TWO32 ==> WakeOnItsWay(cfg, x, t, w))
  {
    hide Exec, Init;
    WakeInvAlways(cfg, s, es);
    var x := Exec(cfg, s, es);
    if t in x.threads && Asleep(x.threads[t], w) {
      assert Fits(cfg, x.threads[t]);
      Lo32Differs(x.threads[t].loaded, Get(x.mem, w));
      if Owed(x, w) {
        OwedIsOnItsWay(cfg, x, t, w);
      }
    }
  }

  lemma Lo32Differs(a: U64, b: U64)
    ensures a < b < a + TWO32 ==> Lo32(a) != Lo32(b)
  {
  }

  /** Asleep although the word has moved, and nobody owes a wake. */
  ghost predicate Forgotten(cfg: Config, s: State, t: Tid, w: Word) {
    && t in s.threads && Asleep(s.threads[t], w)
    && Lo32(Get(s.mem, w)) != Lo32(s.threads[t].loaded)
    && !Owed(s, w) && !WakeOnItsWay(cfg, s, t, w)
  }

  /** Exactly which words of which interlocks no run can leave a thread forgotten on. */
  lemma ForgottenIff(cfg: Config, w: Word)
    ensures NeverForgotten(cfg, w) <==>
            forall s, es, t | Init(cfg, s) :: !Forgotten(cfg, Exec(cfg, s, es), t, w)
  {
    hide Exec, Init, Forgotten;
    if NeverForgotten(cfg, w) {
      forall s, es, t | Init(cfg, s) ensures !Forgotten(cfg, Exec(cfg, s, es), t, w) {
        NotForgotten(cfg, s, es, t, w);
      }
    } else if cfg.tier == WaitTimer {
      var es := TargetWakesNobody(cfg);
    } else if cfg.tier == WaitCounter {
      var es := CounterTargetWakesNobody(cfg);
    } else {
      var es := RearmWakesNobody(cfg.interval);
      assert cfg == Lattice.Cron(cfg.interval);
    }
  }

  lemma NotForgotten(cfg: Config, s: State, es: seq<Event>, t: Tid, w: Word)
    requires Init(cfg, s) && NeverForgotten(cfg, w)
    ensures !Forgotten(cfg, Exec(cfg, s, es), t, w)
  {
    hide Exec, Init, WakeOnItsWay;
    NoLostWakeup(cfg, s, es, t, w);
  }

  /**
   An owner's free moves no counter; still, whoever is asleep on either counter when an owner
   or attacher is about to free is woken once that thread has taken three steps. Only a
   thread that falls asleep later, on an unchanged counter, can be missed.
   */
  lemma {:induction false} FreeWakesSleepers(cfg: Config, s: State, d: Tid, w: Word, t: Tid, es: seq<Event>)
    requires AllFit(cfg, s) && t in s.threads && Asleep(s.threads[t], w)
    requires PcOf(s, d).OwnerFree? || PcOf(s, d).AttacherFree?
    requires StepsOf(Thread(d), es) >= 3
    ensures WokenDuring(cfg, s, es, t)
    decreases |es|
  {
    hide ArmStep, WordStep, TimerStep, CounterStep, CronStep, BarrierStep, DaemonStep, AllFit;
    var e, s' := es[0], Step(cfg, s, es[0]);
    StepFits(cfg, s, e);
    if !IsAsleep(s', t) {
      assert es[..1] == [e] && Exec(cfg, s, es[..1]) == s';
    } else if IsStepOf(Thread(d), e) {
      assert s'.threads[d] == Waking([OpenWord, ClosedWord]) && Asleep(s'.threads[t], w);
      assert w in [OpenWord, ClosedWord] by {
        assert [OpenWord, ClosedWord][0] == OpenWord && [OpenWord, ClosedWord][1] == ClosedWord;
      }
      DebtPaid(cfg, s', Thread(d), w, t, es[1..]);
      WokenLater(cfg, s, es, t);
    } else {
      FreeWakesSleepers(cfg, s', d, w, t, es[1..]);
      WokenLater(cfg, s, es, t);
    }
  }

  // -- The counterexamples: nobody owes a wake to a sleeper whose word has moved --

  lemma Unowed(cfg: Config, s: State, t: Tid, w: Word)
    requires forall a :: !Owes(s, a, w)
    ensures !Owed(s, w) && !WakeOnItsWay(cfg, s, t, w)
  {
  }

  const ASLEEP_ON_OPEN: Waiter := WordWaiter(OpenWord, 6)

  /** A handle obtained by name waits for open_count to reach 6 and falls asleep at `loaded`. */
  function SleeperPc(loaded: U64, k: nat): Pc {
    match k
    case 1 => OnWord(WordLoad(OpenWord, 6))
    case 2 => Enter(OpenWord, loaded, DEFAULT_TIMEOUT_NANOS, ASLEEP_ON_OPEN)
    case _ => Blocked(OpenWord, loaded, DEFAULT_TIMEOUT_NANOS, ASLEEP_ON_OPEN)
  }

  /** Then the owner's wait_ms(1) sets its target. */
  function TimerTrail(k: nat): State {
    var s, call := FreshTimer(), TimerCall(1, 0, 5, 1);
    match k
    case 0 => s
    case 1 => s.(threads := map[1 := SleeperPc(5, 1)])
    case 2 => s.(threads := map[1 := SleeperPc(5, 2)])
    case 3 => s.(threads := map[1 := SleeperPc(5, 3)])
    case 4 => s.(threads := map[1 := SleeperPc(5, 3), 2 := OnTimer(TimerClock(1, 0))])
    case 5 => s.(threads := map[1 := SleeperPc(5, 3), 2 := OnTimer(TimerLoad(call))])
    case 6 => s.(threads := map[1 := SleeperPc(5, 3), 2 := OnTimer(TimerCas(call, 5))])
    case _ => s.(mem := s.mem.(open := 6),
                 threads := map[1 := SleeperPc(5, 3), 2 := OnArm(ArmTime(2_000_000, TimerCaller(call)))])
  }

  function TimerEvent(k: nat): Event {
    if k < 3 then Do(1, OpWaitWord(OpenWord, 6)) else Do(2, OpTimer(1))
  }

  lemma TimerSleeps(cfg: Config, k: nat)
    requires k < 3 && cfg.tier == WaitTimer && cfg.attachers
    ensures Step(cfg, TimerTrail(k), TimerEvent(k)) == TimerTrail(k + 1)
  {
    hide Step, ArmStep, TimerStep, CounterStep, CronStep, BarrierStep, DaemonStep;
    var s, e := TimerTrail(k), TimerEvent(k);
    ClientMoves(cfg, s, 1, e.choice);
    assert s.threads[1 := PcOf(TimerTrail(k + 1), 1)] == TimerTrail(k + 1).threads;
  }

  lemma TimerTargets(cfg: Config, k: nat)
    requires 3 <= k < 7 && cfg.tier == WaitTimer && cfg.attachers
    ensures Step(cfg, TimerTrail(k), TimerEvent(k)) == TimerTrail(k + 1)
  {
    hide Step, WordStep, ArmStep, CounterStep, CronStep, BarrierStep, DaemonStep;
    var s, e := TimerTrail(k), TimerEvent(k);
    assert TimerCall(1, 0, 5, 1).Ttl() == 2_000_000 && TimerCall(1, 0, 5, 1).Target() == 6;
    ClientMoves(cfg, s, 2, e.choice);
    assert s.threads[2 := PcOf(TimerTrail(k + 1), 2)] == TimerTrail(k + 1).threads;
  }

  /** A timer's target is set by compare-exchange, which wakes nobody. */
  lemma TargetWakesNobody(cfg: Config) returns (es: seq<Event>)
    requires cfg.tier == WaitTimer && cfg.attachers
    ensures Init(cfg, FreshTimer()) && Forgotten(cfg, Exec(cfg, FreshTimer(), es), 1, OpenWord)
  {
    hide Exec, Step;
    es := seq(7, i requires i >= 0 => TimerEvent(i));
    forall i: nat | i < 7 ensures TimerTrail(i + 1) == Step(cfg, TimerTrail(i), es[i]) {
      if i < 3 {
        TimerSleeps(cfg, i);
      } else {
        TimerTargets(cfg, i);
      }
    }
    Follow(cfg, TimerTrail, es);
    Unowed(cfg, TimerTrail(7), 1, OpenWord);
  }

  /** The same with the owner's wait_until(6). */
  function CounterTrail(k: nat): State {
    var s, call := FreshZero(), CounterCall(6, 0);
    match k
    case 0 => s
    case 1 => s.(threads := map[1 := SleeperPc(0, 1)])
    case 2 => s.(threads := map[1 := SleeperPc(0, 2)])
    case 3 => s.(threads := map[1 := SleeperPc(0, 3)])
    case 4 => s.(threads := map[1 := SleeperPc(0, 3), 2 := OnCounter(CounterLoad(call))])
    case 5 => s.(threads := map[1 := SleeperPc(0, 3), 2 := OnCounter(CounterCas(call, 0))])
    case _ => s.(mem := s.mem.(open := 6),
                 threads := map[1 := SleeperPc(0, 3), 2 := OnArm(ArmTime(0, CounterCaller(call)))])
  }

  function CounterEvent(k: nat): Event {
    if k < 3 then Do(1, OpWaitWord(OpenWord, 6)) else Do(2, OpCounter(CounterCall(6, 0)))
  }

  lemma CounterSleeps(cfg: Config, k: nat)
    requires k < 3 && cfg.tier == WaitCounter && cfg.attachers
    ensures Step(cfg, CounterTrail(k), CounterEvent(k)) == CounterTrail(k + 1)
  {
    hide Step, ArmStep, TimerStep, CounterStep, CronStep, BarrierStep, DaemonStep;
    var s, e := CounterTrail(k), CounterEvent(k);
    ClientMoves(cfg, s, 1, e.choice);
    assert s.threads[1 := PcOf(CounterTrail(k + 1), 1)] == CounterTrail(k + 1).threads;
  }

  lemma CounterTargets(cfg: Config, k: nat)
    requires 3 <= k < 6 && cfg.tier == WaitCounter && cfg.attachers
    ensures Step(cfg, CounterTrail(k), CounterEvent(k)) == CounterTrail(k + 1)
  {
    hide Step, WordStep, ArmStep, TimerStep, CronStep, BarrierStep, DaemonStep;
    var s, e := CounterTrail(k), CounterEvent(k);
    ClientMoves(cfg, s, 2, e.choice);
    assert s.threads[2 := PcOf(CounterTrail(k + 1), 2)] == CounterTrail(k + 1).threads;
  }

  lemma CounterTargetWakesNobody(cfg: Config) returns (es: seq<Event>)
    requires cfg.tier == WaitCounter && cfg.attachers
    ensures Init(cfg, FreshZero()) && Forgotten(cfg, Exec(cfg, FreshZero(), es), 1, OpenWord)
  {
    hide Exec, Step;
    es := seq(6, i requires i >= 0 => CounterEvent(i));
    forall i: nat | i < 6 ensures CounterTrail(i + 1) == Step(cfg, CounterTrail(i), es[i]) {
      if i < 3 {
        CounterSleeps(cfg, i);
      } else {
        CounterTargets(cfg, i);
      }
    }
    Follow(cfg, CounterTrail, es);
    Unowed(cfg, CounterTrail(6), 1, OpenWord);
  }

  /** An interval that is a multiple of 2^32 ms moves no low half unless the word was off the grid. */
  function Nudge(i: CronInterval): U64 {
    if i % TWO32 == 0 then 1 else 0
  }

  /**
   With a cron of any interval at its re-arm: an attacher opens by the nudge, and a waiter for the
   next line falls asleep.
   */
  function CronTrail(i: CronInterval, k: nat): State {
    var s, waiter, loaded := Lattice.AtRearm(i), WordWaiter(OpenWord, 2 * i), i + Nudge(i);
    var m := s.mem.(open := loaded);
    match k
    case 0 => s
    case 1 => s.(threads := map[2 := Add(OpenWord, Nudge(i))])
    case 2 => s.(mem := m, threads := map[2 := Waking([OpenWord])])
    case 3 => s.(mem := m, threads := map[2 := Idle])
    case 4 => s.(mem := m, threads := map[2 := Idle, 1 := OnWord(WordLoad(OpenWord, 2 * i))])
    case 5 => s.(mem := m, threads := map[2 := Idle, 1 := Enter(OpenWord, loaded, DEFAULT_TIMEOUT_NANOS, waiter)])
    case 6 => s.(mem := m, threads := map[2 := Idle, 1 := Blocked(OpenWord, loaded, DEFAULT_TIMEOUT_NANOS, waiter)])
    case _ => State(m.(open := 2 * i), map[2 := Idle, 1 := Blocked(OpenWord, loaded, DEFAULT_TIMEOUT_NANOS, waiter)],
                    DIdle(true), [])
  }

  function CronEvent(i: CronInterval, k: nat): Event {
    if k < 3 then Do(2, OpAdd(OpenWord, Nudge(i)))
    else if k < 6 then Do(1, OpWaitWord(OpenWord, 2 * i))
    else GO
  }

  lemma NudgeStays(i: CronInterval)
    ensures i + Nudge(i) < 2 * i < TWO63
  {
  }

  lemma CronNudged(i: CronInterval, k: nat)
    requires k < 3
    ensures Step(Lattice.Cron(i), CronTrail(i, k), CronEvent(i, k)) == CronTrail(i, k + 1)
  {
    hide Step, WordStep, ArmStep, TimerStep, CounterStep, CronStep, BarrierStep, DaemonStep, Lattice.Due, Nudge;
    var s, e := CronTrail(i, k), CronEvent(i, k);
    NudgeStays(i);
    ClientMoves(Lattice.Cron(i), s, e.t, e.choice);
    assert s.threads[e.t := PcOf(CronTrail(i, k + 1), e.t)] == CronTrail(i, k + 1).threads;
  }

  lemma CronSleeps(i: CronInterval, k: nat)
    requires 3 <= k < 6
    ensures Step(Lattice.Cron(i), CronTrail(i, k), CronEvent(i, k)) == CronTrail(i, k + 1)
  {
    hide Step, ArmStep, TimerStep, CounterStep, CronStep, BarrierStep, DaemonStep, Lattice.Due, Nudge, Wrap;
    var s, e := CronTrail(i, k), CronEvent(i, k);
    NudgeStays(i);
    ClientMoves(Lattice.Cron(i), s, e.t, e.choice);
    assert s.threads[e.t := PcOf(CronTrail(i, k + 1), e.t)] == CronTrail(i, k + 1).threads;
  }

  lemma CronRearms(i: CronInterval)
    ensures Step(Lattice.Cron(i), CronTrail(i, 6), GO) == CronTrail(i, 7)
  {
    hide ClientStep, Contract, Judge, NextLine, Lattice.Due;
    Lattice.Lines(i);
    assert WakeAll(None, CronTrail(i, 6).threads) == CronTrail(i, 6).threads;
  }

  lemma NudgedApart(i: CronInterval)
    ensures Lo32(2 * i) != Lo32(i + Nudge(i))
  {
    if Nudge(i) == 1 {
      assert i == (i / TWO32) * TWO32;
    }
  }

  /**
   The re-arm of a cron, whatever its interval, stores open_count without a wake: a reachable
   thread asleep on it has its target met, and nobody will wake it.
   */
  lemma RearmWakesNobody(i: CronInterval) returns (es: seq<Event>)
    ensures Init(Lattice.Cron(i), Lattice.Fresh(i))
    ensures var s := Exec(Lattice.Cron(i), Lattice.Fresh(i), es);
            && Forgotten(Lattice.Cron(i), s, 1, OpenWord)
            && s.threads[1].waiter == WordWaiter(OpenWord, s.mem.open)
  {
    hide Exec, Step;
    Lattice.CronPass(i);
    Lattice.FreshIsInit(i);
    var tail := seq(7, k requires k >= 0 => CronEvent(i, k));
    es := Lattice.PASS_TO_REARM + tail;
    forall k: nat | k < 7 ensures CronTrail(i, k + 1) == Step(Lattice.Cron(i), CronTrail(i, k), tail[k]) {
      if k < 3 {
        CronNudged(i, k);
      } else if k < 6 {
        CronSleeps(i, k);
      } else {
        CronRearms(i);
      }
    }
    Follow(Lattice.Cron(i), (k: nat) => CronTrail(i, k), tail);
    ExecConcat(Lattice.Cron(i), Lattice.Fresh(i), Lattice.PASS_TO_REARM, tail);
    NudgedApart(i);
    Unowed(Lattice.Cron(i), CronTrail(i, 7), 1, OpenWord);
  }

  const BARE: Config := Config(Interlock, 1, false)

  /** A waiter about to sleep on closed_count; the owner's free and its two wakes; the waiter enqueues. */
  function FreeTrail(k: nat): State {
    var s := FreshZero();
    var freed := s.mem.(expiration := SENTINEL);
    var enter := Enter(ClosedWord, 0, DEFAULT_TIMEOUT_NANOS, WordWaiter(ClosedWord, 1));
    match k
    case 0 => s
    case 1 => s.(threads := map[1 := OnWord(WordLoad(ClosedWord, 1))])
    case 2 => s.(threads := map[1 := enter])
    case 3 => s.(threads := map[1 := enter, 2 := OwnerFree])
    case 4 => s.(mem := freed, threads := map[1 := enter, 2 := Waking([OpenWord, ClosedWord])])
    case 5 => s.(mem := freed, threads := map[1 := enter, 2 := Waking([ClosedWord])])
    case 6 => s.(mem := freed, threads := map[1 := enter, 2 := Idle])
    case _ => s.(mem := freed,
                 threads := map[1 := Blocked(ClosedWord, 0, DEFAULT_TIMEOUT_NANOS, enter.waiter), 2 := Idle])
  }

  function FreeEvent(k: nat): Event {
    if 2 <= k < 6 then Do(2, OpOwnerFree) else Do(1, OpWaitWord(ClosedWord, 1))
  }

  lemma FreeTrailSteps(k: nat)
    requires k < 7
    ensures Step(BARE, FreeTrail(k), FreeEvent(k)) == FreeTrail(k + 1)
  {
    hide Step, ArmStep, TimerStep, CounterStep, CronStep, BarrierStep, DaemonStep;
    var s, e := FreeTrail(k), FreeEvent(k);
    ClientMoves(BARE, s, e.t, e.choice);
    assert [OpenWord, ClosedWord][1..] == [ClosedWord];
    assert s.threads[e.t := PcOf(FreeTrail(k + 1), e.t)] == FreeTrail(k + 1).threads;
  }

  /**
   free changes expiration_ns only, so both its wakes can pass before a waiter enqueues on an
   unchanged counter: the interlock is terminated, the waiter sleeps, and only its own
   timeout brings it back.
   */
  lemma FreeCanBeMissed() returns (es: seq<Event>)
    ensures Init(BARE, FreshZero())
    ensures var s := Exec(BARE, FreshZero(), es);
            && s.mem.expiration == SENTINEL
            && 1 in s.threads && Asleep(s.threads[1], ClosedWord)
            && !Owed(s, ClosedWord) && !WakeOnItsWay(BARE, s, 1, ClosedWord)
  {
    es := seq(7, i requires i >= 0 => FreeEvent(i));
    forall i: nat | i < 7 ensures FreeTrail(i + 1) == Step(BARE, FreeTrail(i), es[i]) {
      FreeTrailSteps(i);
    }
    Follow(BARE, FreeTrail, es);
    Unowed(BARE, FreeTrail(7), 1, ClosedWord);
  }
}
