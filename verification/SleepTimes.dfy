/**
 How long each wait sleeps, under every interleaving and whoever has attached, and from when a timer's
 budget counts.
 */
module SleepTimes {
  import opened Core
  import opened Protocol

  /** A timer wait has armed, and read the time after that. */
  ghost predicate ArmedThenRead(m: Mem, wait: TimerWait) {
    && wait.readAt <= m.now
    && exists i :: 0 <= i < |m.armed| && Made(m.armed[i], wait.call, wait.armedAt) && m.armed[i].done <= wait.readAt
  }

  /** The arm of the call: when it read the time, and for how long it armed. */
  predicate Made(a: Arm, call: TimerCall, armedAt: U64) {
    a.start == armedAt && a.ttl == call.Ttl()
  }

  ghost predicate Sleeping(m: Mem, timeoutNs: U64, waiter: Waiter) {
    match waiter
    case TimerWaiter(wait) =>
      ArmedThenRead(m, wait) && wait.Deadline() - m.now <= timeoutNs <= wait.Deadline() - wait.readAt
    case CounterWaiter(c) => timeoutNs == c.timeoutNs
    case _ => timeoutNs == 100_000_000
  }

  ghost predicate ClientInv(m: Mem, pc: Pc) {
    match pc
    case Enter(_, _, timeoutNs, waiter) => Sleeping(m, timeoutNs, waiter)
    case Blocked(_, _, timeoutNs, waiter) => Sleeping(m, timeoutNs, waiter)
    case OnArm(a) => a.caller.TimerCaller? ==> a.ttl == a.caller.call.Ttl()
    case OnTimer(TimerDeadline(call, armedAt)) =>
      exists i :: 0 <= i < |m.armed| && Made(m.armed[i], call, armedAt) && m.armed[i].done <= m.now
    case OnTimer(TimerClosed(wait)) => ArmedThenRead(m, wait)
    case OnTimer(TimerOpen(wait, _)) => ArmedThenRead(m, wait)
    case OnTimer(TimerExp(wait, _)) => ArmedThenRead(m, wait)
    case OnTimer(TimerTime(wait, _, _)) => ArmedThenRead(m, wait)
    case OnTimer(TimerDone(_, Aborted(wait))) => ArmedThenRead(m, wait)
    case _ => true
  }

  ghost predicate Inv(s: State) {
    forall t | t in s.threads :: ClientInv(s.mem, s.threads[t])
  }

  lemma ArmKeeps(m: Mem, a: ArmPc, spurious: bool)
    requires ClientInv(m, OnArm(a))
    ensures var o := ArmStep(m, a, spurious);
            ClientInv(o.mem, o.pc) && m.armed <= o.mem.armed && m.now == o.mem.now
  {
    var o := ArmStep(m, a, spurious);
    if |o.mem.armed| > |m.armed| && a.caller.TimerCaller? {
      assert Made(o.mem.armed[|m.armed|], a.caller.call, a.start);
    }
  }

  lemma TimerKeeps(m: Mem, p: TimerPc, spurious: bool)
    requires ClientInv(m, OnTimer(p))
    ensures var o := TimerStep(m, p, spurious);
            ClientInv(o.mem, o.pc) && m.armed == o.mem.armed && m.now == o.mem.now
  {
  }

  lemma ClientKeeps(cfg: Config, m: Mem, pc: Pc, ch: Choice)
    requires ClientInv(m, pc)
    ensures var o := ClientStep(cfg, m, pc, ch);
            ClientInv(o.mem, o.pc) && m.armed <= o.mem.armed && m.now == o.mem.now
  {
    hide ArmStep, TimerStep, ArmedThenRead;
    if pc.OnArm? {
      ArmKeeps(m, pc.arm, ch.spurious);
    } else if pc.OnTimer? {
      TimerKeeps(m, pc.timer, ch.spurious);
    }
  }

  lemma Later(m: Mem, m': Mem, w: Option<Word>, pc: Pc)
    requires ClientInv(m, pc) && m.armed <= m'.armed && m.now <= m'.now
    ensures ClientInv(m', Wake(w, pc))
  {
    hide Made;
    forall wait | ArmedThenRead(m, wait) ensures ArmedThenRead(m', wait) {
      var i :| 0 <= i < |m.armed| && Made(m.armed[i], wait.call, wait.armedAt) && m.armed[i].done <= wait.readAt;
      assert m'.armed[i] == m.armed[i];
    }
    if pc.OnTimer? && pc.timer.TimerDeadline? {
      var (call, armedAt) := (pc.timer.call, pc.timer.armedAt);
      var i :| 0 <= i < |m.armed| && Made(m.armed[i], call, armedAt) && m.armed[i].done <= m.now;
      assert m'.armed[i] == m.armed[i];
    }
  }

  lemma StepKeeps(cfg: Config, s: State, e: Event)
    requires Inv(s)
    ensures Inv(Step(cfg, s, e))
  {
    hide ClientStep, ClientInv;
    var s' := Step(cfg, s, e);
    if e.Client? {
      assert ClientInv(s.mem, PcOf(s, e.t)) by {
        IdleHolds(s.mem);
      }
      ClientKeeps(cfg, s.mem, PcOf(s, e.t), e.choice);
    }
    forall w, t | t in s.threads ensures ClientInv(s'.mem, Wake(w, s.threads[t])) {
      Later(s.mem, s'.mem, w, s.threads[t]);
    }
    forall t | t in s.threads ensures s.threads[t] == Wake(None, s.threads[t]) {}
  }

  lemma IdleHolds(m: Mem)
    ensures ClientInv(m, Idle)
  {
  }

  /** The timer call a thread is in, once it has read the time for its deadline, or that made it abort. */
  function InLoop(pc: Pc): Option<TimerWait> {
    match pc
    case Enter(_, _, _, TimerWaiter(wait)) => Some(wait)
    case Blocked(_, _, _, TimerWaiter(wait)) => Some(wait)
    case OnTimer(TimerClosed(wait)) => Some(wait)
    case OnTimer(TimerOpen(wait, _)) => Some(wait)
    case OnTimer(TimerExp(wait, _)) => Some(wait)
    case OnTimer(TimerTime(wait, _, _)) => Some(wait)
    case OnTimer(TimerDone(_, Aborted(wait))) => Some(wait)
    case _ => None
  }

  /**
   In every reachable state: wait_open, wait_close, cron and barrier waits sleep for 100 ms at a time, and a
   counter for its timeout. A timer sleeps no longer than from the time it read last to its deadline, and that
   deadline counts from a time read after its own arm had returned.
   */
  lemma SleepsSoLong(cfg: Config, s: State, es: seq<Event>, t: Tid)
    requires Init(cfg, s)
    ensures var x := Exec(cfg, s, es);
            var (m, pc) := (x.mem, PcOf(x, t));
            && (pc.Enter? || pc.Blocked? ==>
                  match pc.waiter
                  case TimerWaiter(wait) =>
                    wait.Deadline() - m.now <= pc.timeoutNs <= wait.Deadline() - wait.readAt
                  case CounterWaiter(c) => pc.timeoutNs == c.timeoutNs
                  case _ => pc.timeoutNs == 100_000_000)
            && (InLoop(pc).Some? ==>
                  var wait := InLoop(pc).value;
                  && wait.readAt <= m.now
                  && exists i :: 0 <= i < |m.armed| && m.armed[i].start == wait.armedAt
                                 && m.armed[i].ttl == wait.call.Ttl() && m.armed[i].done <= wait.readAt)
  {
    forall x, e | Inv(x) ensures Inv(Step(cfg, x, e)) {
      StepKeeps(cfg, x, e);
    }
    ExecKeeps(cfg, Inv, s, es);
    hide Exec, Init;
    var x := Exec(cfg, s, es);
    if t in x.threads {
      assert ClientInv(x.mem, x.threads[t]);
    }
  }
}
