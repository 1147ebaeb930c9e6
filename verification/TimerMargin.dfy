/**
 The 2 * W margin of a WaitTimer: one daemon cycle that falls inside it delivers, whatever
 the interleaving, and a wait-loop iteration that starts after the delivery returns Ok.
 */
module TimerMargin {
  import opened Core
  import opened Protocol
  import opened TimerSafety

  /**
   The sole waiter's rule: only thread t waits on the timer, and it makes no further call
   after InterlockReaped. Touch threads and frees are unrestricted.
   */
  predicate SoleWaiter(t: Tid, s: State, e: Event) {
    e.Client? ==>
      if e.t == t then !GaveUp(PcOf(s, t)) else !e.choice.op.OpTimer? && !e.choice.op.OpTimerUntil?
  }

  predicate GaveUp(pc: Pc) {
    pc.OnTimer? && pc.timer.TimerDone? && pc.timer.outcome.Reaped?
  }

  // -- The target of the sole waiter is the word itself --

  /** open_count is what this call asked for (unless the sum wrapped, when it was left alone). */
  predicate Installed(m: Mem, c: TimerCall) {
    if c.clockAt + c.ms < TWO64 then m.open == c.Target() else m.open <= m.clock
  }

  /** Nothing is pending: whatever was asked for has been reached by the clock. */
  predicate Settled(m: Mem) {
    m.open <= m.clock
  }

  predicate OwnInv(m: Mem, pc: Pc) {
    match pc
    case OnArm(a) => if a.caller.TimerCaller? then Installed(m, a.caller.call) else Settled(m)
    case Enter(_, _, _, waiter) => if waiter.TimerWaiter? then Installed(m, waiter.wait.call) else Settled(m)
    case Blocked(_, _, _, waiter) => if waiter.TimerWaiter? then Installed(m, waiter.wait.call) else Settled(m)
    case OnTimer(t) => OwnTimer(m, t)
    case _ => Settled(m)
  }

  predicate OwnTimer(m: Mem, t: TimerPc) {
    match t
    case TimerUntil(_) => Settled(m)
    case TimerClock(_, _) => Settled(m)
    case TimerLoad(c) => m.open <= c.clockAt
    case TimerCas(c, _) => m.open <= c.clockAt
    case TimerDeadline(c, _) => Installed(m, c)
    case TimerClosed(w) => Installed(m, w.call)
    case TimerOpen(w, closed) => Installed(m, w.call) && closed <= m.clock
    case TimerExp(w, _) => Installed(m, w.call)
    case TimerTime(w, _, _) => Installed(m, w.call)
    case TimerDone(_, outcome) => outcome.Delivered? ==> Settled(m)
  }

  ghost predicate SoleInv(t: Tid, s: State) {
    Gone(s.daemon) ||
    (&& s.mem.closed <= s.mem.clock
     && (forall u | u in s.threads && u != t :: CallTier(s.threads[u]) == None)
     && OwnInv(s.mem, PcOf(s, t)))
  }

  lemma OwnTimerKeeps(m: Mem, p: TimerPc, spurious: bool)
    requires MemInv(m) && TimerInv(m, p) && OwnTimer(m, p) && m.closed <= m.clock
    ensures var o := TimerStep(m, p, spurious);
            OwnInv(o.mem, o.pc)
  {
  }

  lemma OwnArmKeeps(m: Mem, a: ArmPc, spurious: bool)
    requires OwnInv(m, OnArm(a))
    ensures var o := ArmStep(m, a, spurious);
            OwnInv(o.mem, o.pc) && o.mem.open == m.open && o.mem.clock == m.clock
  {
  }

  lemma OwnKeeps(cfg: Config, m: Mem, pc: Pc, ch: Choice)
    requires IsTimer(cfg) && Fits(cfg, pc) && MemInv(m) && ClientInv(m, pc) && OwnInv(m, pc)
    requires m.closed <= m.clock
    requires pc.OnTimer? && pc.timer.TimerDone? ==> !pc.timer.outcome.Reaped?
    ensures var o := ClientStep(cfg, m, pc, ch); OwnInv(o.mem, o.pc)
  {
    match pc
    case OnTimer(p) =>
      if !BetweenCalls(pc) {
        OwnTimerKeeps(m, p, ch.spurious);
      }
    case OnArm(a) => OwnArmKeeps(m, a, ch.spurious);
    case _ =>
  }

  /** Other threads leave the counters and the clock alone. */
  lemma OthersLeave(cfg: Config, m: Mem, pc: Pc, ch: Choice)
    requires IsTimer(cfg) && Fits(cfg, pc) && CallTier(pc) == None
    requires !ch.op.OpTimer? && !ch.op.OpTimerUntil?
    ensures var o := ClientStep(cfg, m, pc, ch);
            && CallTier(o.pc) == None
            && o.mem.open == m.open && o.mem.closed == m.closed && o.mem.clock == m.clock
  {
  }

  /** While the entry stays, the daemon moves only closed_count and the clock, both forward. */
  lemma DaemonLeaves(cfg: Config, m: Mem, d: Dpc, ch: DChoice)
    requires IsTimer(cfg) && FitsDaemon(cfg, d) && MemInv(m) && DaemonInv(m, d) && m.closed <= m.clock
    ensures var o := DaemonStep(cfg, m, d, ch);
            Gone(d) || (o.mem.open == m.open && m.clock <= o.mem.clock && o.mem.closed <= o.mem.clock)
  {
  }

  lemma OwnStable(m: Mem, m': Mem, pc: Pc)
    requires OwnInv(m, pc) && m'.open == m.open && m.clock <= m'.clock
    ensures OwnInv(m', pc)
  {
  }

  lemma OwnWakes(m: Mem, w: Option<Word>, pc: Pc)
    requires OwnInv(m, pc)
    ensures OwnInv(m, Wake(w, pc))
  {
  }

  lemma SoleStep(cfg: Config, t: Tid, s: State, e: Event)
    requires IsTimer(cfg) && Inv(cfg, s) && SoleInv(t, s) && SoleWaiter(t, s, e)
    ensures SoleInv(t, Step(cfg, s, e))
  {
    if Gone(s.daemon) {
      GoneForGood(cfg, s, e);
    } else {
      match e
      case Client(u, ch) =>
        if u == t {
          SoleOwnStep(cfg, t, s, ch);
        } else {
          SoleOtherStep(cfg, t, u, s, ch);
        }
      case Daemon(ch) => SoleDaemonStep(cfg, t, s, ch);
      case _ => OwnStable(s.mem, Step(cfg, s, e).mem, PcOf(s, t));
    }
  }

  lemma SoleOwnStep(cfg: Config, t: Tid, s: State, ch: Choice)
    requires IsTimer(cfg) && Inv(cfg, s) && SoleInv(t, s) && SoleWaiter(t, s, Client(t, ch)) && !Gone(s.daemon)
    ensures SoleInv(t, Step(cfg, s, Client(t, ch)))
  {
    var o := ClientStep(cfg, s.mem, PcOf(s, t), ch);
    OwnKeeps(cfg, s.mem, PcOf(s, t), ch);
    ClientKeeps(cfg, s.mem, PcOf(s, t), ch);
    TierStays(s, o.wakes, t);
  }

  lemma TierStays(s: State, w: Option<Word>, t: Tid)
    requires forall u | u in s.threads && u != t :: CallTier(s.threads[u]) == None
    ensures forall u | u in s.threads && u != t :: CallTier(Wake(w, s.threads[u])) == None
  {
  }

  lemma SoleOtherStep(cfg: Config, t: Tid, u: Tid, s: State, ch: Choice)
    requires IsTimer(cfg) && Inv(cfg, s) && SoleInv(t, s) && u != t && SoleWaiter(t, s, Client(u, ch))
    requires !Gone(s.daemon)
    ensures SoleInv(t, Step(cfg, s, Client(u, ch)))
  {
    hide ClientStep, OwnInv, MemInv, DaemonInv, ClientInv;
    var s' := Step(cfg, s, Client(u, ch));
    OthersLeave(cfg, s.mem, PcOf(s, u), ch);
    OwnStable(s.mem, s'.mem, PcOf(s, t));
    OwnWakes(s'.mem, ClientStep(cfg, s.mem, PcOf(s, u), ch).wakes, PcOf(s, t));
  }

  lemma SoleDaemonStep(cfg: Config, t: Tid, s: State, ch: DChoice)
    requires IsTimer(cfg) && Inv(cfg, s) && SoleInv(t, s) && !Gone(s.daemon)
    ensures SoleInv(t, Step(cfg, s, Daemon(ch)))
  {
    var s' := Step(cfg, s, Daemon(ch));
    DaemonLeaves(cfg, s.mem, s.daemon, ch);
    OwnStable(s.mem, s'.mem, PcOf(s, t));
    OwnWakes(s'.mem, DaemonStep(cfg, s.mem, s.daemon, ch).wakes, PcOf(s, t));
  }

  lemma SoleAlways(cfg: Config, t: Tid, s: State, es: seq<Event>)
    requires IsTimer(cfg) && Init(cfg, s)
    requires Along(cfg, s, es, (x, e) => SoleWaiter(t, x, e))
    ensures Inv(cfg, Exec(cfg, s, es)) && SoleInv(t, Exec(cfg, s, es))
  {
    InvAlways(cfg, s, []);
    var inv := (x: State) => Inv(cfg, x) && SoleInv(t, x);
    var rule := (x, e) => SoleWaiter(t, x, e);
    forall x, e | inv(x) && rule(x, e) ensures inv(Step(cfg, x, e)) {
      StepKeeps(cfg, x, e);
      SoleStep(cfg, t, x, e);
    }
    AlongKeeps(cfg, inv, s, es, rule);
  }

  // -- One cycle inside the margin --

  /** The call whose arm has returned, and the time that arm read; until the call is done. */
  function InLoop(pc: Pc): Option<(TimerCall, U64)> {
    match pc
    case Enter(_, _, _, TimerWaiter(wait)) => Some((wait.call, wait.armedAt))
    case Blocked(_, _, _, TimerWaiter(wait)) => Some((wait.call, wait.armedAt))
    case OnTimer(TimerDeadline(call, armedAt)) => Some((call, armedAt))
    case OnTimer(TimerClosed(wait)) => Some((wait.call, wait.armedAt))
    case OnTimer(TimerOpen(wait, _)) => Some((wait.call, wait.armedAt))
    case OnTimer(TimerExp(wait, _)) => Some((wait.call, wait.armedAt))
    case OnTimer(TimerTime(wait, _, _)) => Some((wait.call, wait.armedAt))
    case _ => None
  }

  predicate Finished(pc: Pc) {
    pc.OnTimer? && pc.timer.TimerDone?
  }

  /** The sole waiter's rule while its call lasts, and the daemon starts no further cycle. */
  predicate OneCycle(t: Tid, s: State, e: Event) {
    && SoleWaiter(t, s, e)
    && (e.Client? && e.t == t ==> !Finished(PcOf(s, t)))
    && (e.Daemon? ==> e.dchoice.op.Rest?)
  }

  /**
   The cycle's clock read comes ms after the arm's, its TTL read before the armed deadline, and
   neither the target nor the deadline leaves the 64-bit range.
   */
  predicate InsideMargin(call: TimerCall, armedAt: U64, at: U64, ttlAt: U64) {
    var span := call.ms * NANOS_PER_MS;
    armedAt + span <= at && ttlAt < armedAt + 2 * span < TWO64
  }

  predicate CycleInv(m: Mem, d: Dpc, target: U64, at: U64, ttlAt: U64) {
    match d
    case DOpen(a, n) => a == at && n == ttlAt
    case DClosed(a, n, open) => a == at && n == ttlAt && open == target
    case DExp(a, n, open, closed) => a == at && n == ttlAt && open == target && closed == m.closed
    case DStamp(_, _, _, value) => value == at / NANOS_PER_MS
    case DWaking(_, after) => after.ToIdle? && target <= m.closed
    case DIdle(live) => live && target <= m.closed
    case _ => false
  }

  ghost predicate Delivering(t: Tid, call: TimerCall, armedAt: U64, at: U64, ttlAt: U64, s: State) {
    s.mem.expiration == SENTINEL ||
    (&& s.mem.open == call.Target() && ttlAt < s.mem.expiration
     && s.mem.open <= at / NANOS_PER_MS
     && CycleInv(s.mem, s.daemon, call.Target(), at, ttlAt)
     && (InLoop(PcOf(s, t)) == Some((call, armedAt)) || Finished(PcOf(s, t))))
  }

  lemma LoopStays(cfg: Config, m: Mem, pc: Pc, ch: Choice)
    requires InLoop(pc).Some?
    ensures var o := ClientStep(cfg, m, pc, ch);
            && (InLoop(o.pc) == InLoop(pc) || Finished(o.pc))
            && o.mem == m
  {
  }

  lemma CycleAdvances(cfg: Config, m: Mem, d: Dpc, ch: DChoice, target: U64, at: U64, ttlAt: U64)
    requires IsTimer(cfg) && ch.op.Rest? && CycleInv(m, d, target, at, ttlAt)
    requires m.open == target <= at / NANOS_PER_MS && m.closed <= MAX_MS
    requires ttlAt < m.expiration < SENTINEL
    ensures var o := DaemonStep(cfg, m, d, ch);
            && CycleInv(o.mem, o.daemon, target, at, ttlAt)
            && o.mem.open == m.open && o.mem.expiration == m.expiration
  {
    MsBound(at);
    if d.DExp? {
      ValuePositive(d.open, d.closed);
    }
  }

  lemma DeliveringStep(cfg: Config, t: Tid, call: TimerCall, armedAt: U64, at: U64, ttlAt: U64, s: State, e: Event)
    requires IsTimer(cfg) && Inv(cfg, s) && SoleInv(t, s) && OneCycle(t, s, e)
    requires Delivering(t, call, armedAt, at, ttlAt, s)
    ensures Delivering(t, call, armedAt, at, ttlAt, Step(cfg, s, e))
  {
    hide ClientStep, DaemonStep, DaemonInv, OwnInv;
    ActorKeeps(cfg, s, e);
    if s.mem.expiration != SENTINEL {
      PublishedBounded(s.mem, s.mem.clock);
      match e
      case Client(u, ch) =>
        if u == t {
          LoopStays(cfg, s.mem, PcOf(s, t), ch);
        } else {
          OthersLeave(cfg, s.mem, PcOf(s, u), ch);
          LoopWakes(ClientStep(cfg, s.mem, PcOf(s, u), ch).wakes, PcOf(s, t));
        }
      case Daemon(ch) =>
        CycleAdvances(cfg, s.mem, s.daemon, ch, call.Target(), at, ttlAt);
        LoopWakes(DaemonStep(cfg, s.mem, s.daemon, ch).wakes, PcOf(s, t));
      case _ =>
    }
  }

  lemma LoopWakes(w: Option<Word>, pc: Pc)
    ensures InLoop(Wake(w, pc)) == InLoop(pc) || !pc.Blocked? || !pc.waiter.TimerWaiter?
    ensures InLoop(pc).Some? ==> InLoop(Wake(w, pc)) == InLoop(pc)
    ensures Finished(pc) ==> Finished(Wake(w, pc))
  {
  }

  /**
   The margin. The arm of the sole waiter's call has returned, and the call is not over; a
   daemon cycle whose two clock reads fall inside the margin is about to look at the entry;
   nobody terminates expiration_ns. Then, under every interleaving, by the time the daemon is
   idle again it has kept the entry and closed_count has reached the target.
   */
  lemma CycleInsideMarginDelivers(cfg: Config, s: State, before: seq<Event>, during: seq<Event>,
                                  t: Tid, call: TimerCall, armedAt: U64, at: U64, ttlAt: U64)
    requires IsTimer(cfg) && Init(cfg, s)
    requires Along(cfg, s, before, (x, e) => SoleWaiter(t, x, e))
    requires InLoop(PcOf(Exec(cfg, s, before), t)) == Some((call, armedAt))
    requires Exec(cfg, s, before).daemon == DOpen(at, ttlAt) && InsideMargin(call, armedAt, at, ttlAt)
    requires Along(cfg, Exec(cfg, s, before), during, (x, e) => OneCycle(t, x, e))
    ensures var y := Exec(cfg, Exec(cfg, s, before), during);
            y.daemon.DIdle? && y.mem.expiration != SENTINEL ==>
              && y.daemon == DIdle(true) && y.mem.open == call.Target() == call.clockAt + call.ms
              && call.Target() <= y.mem.closed < SENTINEL
              && (InLoop(PcOf(y, t)) == Some((call, armedAt)) || Finished(PcOf(y, t)))
  {
    SoleAlways(cfg, t, s, before);
    var x := Exec(cfg, s, before);
    MarginArithmetic(x.mem, call, armedAt, at, ttlAt);
    assert ClientInv(x.mem, PcOf(x, t)) && Installed(x.mem, call);
    var rule := (z, e) => OneCycle(t, z, e);
    var inv := (z: State) => Inv(cfg, z) && SoleInv(t, z) && Delivering(t, call, armedAt, at, ttlAt, z);
    forall z, e | inv(z) && rule(z, e) ensures inv(Step(cfg, z, e)) {
      StepKeeps(cfg, z, e);
      SoleStep(cfg, t, z, e);
      DeliveringStep(cfg, t, call, armedAt, at, ttlAt, z, e);
    }
    AlongKeeps(cfg, inv, x, during, rule);
    var y := Exec(cfg, x, during);
    PublishedBounded(y.mem, y.mem.clock);
  }

  lemma MarginArithmetic(m: Mem, call: TimerCall, armedAt: U64, at: U64, ttlAt: U64)
    requires Armed(m, call, armedAt) && InsideMargin(call, armedAt, at, ttlAt)
    ensures call.Target() == call.clockAt + call.ms <= at / NANOS_PER_MS
    ensures ttlAt < m.expiration
  {
    assert call.Ttl() == 2 * (call.ms * NANOS_PER_MS);
    assert (call.clockAt + call.ms) * NANOS_PER_MS <= at;
    ReachedLine(at, call.clockAt + call.ms, NANOS_PER_MS);
    MsBound(at);
  }

  // -- After the delivery --

  predicate StaysInCall(t: Tid, s: State, e: Event) {
    SoleWaiter(t, s, e) && (e.Client? && e.t == t ==> !Finished(PcOf(s, t)))
  }

  /** The thread is at the top of the loop, has loaded a delivered value, or has returned it. */
  predicate Returning(pc: Pc, wait: TimerWait) {
    match pc
    case OnTimer(TimerClosed(w)) => w == wait
    case OnTimer(TimerOpen(w, closed)) => w == wait && wait.call.Target() <= closed
    case OnTimer(TimerDone(c, Delivered(v, _))) => c == wait.call && wait.call.Target() <= v
    case _ => false
  }

  ghost predicate ReturnInv(t: Tid, wait: TimerWait, s: State) {
    Gone(s.daemon) ||
    (s.mem.open == wait.call.Target() <= s.mem.closed && Returning(PcOf(s, t), wait))
  }

  lemma ReturnStep(cfg: Config, t: Tid, wait: TimerWait, s: State, e: Event)
    requires IsTimer(cfg) && Inv(cfg, s) && SoleInv(t, s) && StaysInCall(t, s, e) && ReturnInv(t, wait, s)
    ensures ReturnInv(t, wait, Step(cfg, s, e))
  {
    hide ClientStep, DaemonStep, MemInv, DaemonInv, OwnInv;
    if Gone(s.daemon) {
      GoneForGood(cfg, s, e);
    } else {
      match e
      case Client(u, ch) =>
        if u == t {
          ReturnOwn(cfg, s.mem, PcOf(s, t), ch, wait);
        } else {
          OthersLeave(cfg, s.mem, PcOf(s, u), ch);
        }
      case Daemon(ch) =>
        DaemonLeaves(cfg, s.mem, s.daemon, ch);
        DaemonKeepsReached(cfg, s.mem, s.daemon, ch);
      case _ =>
    }
  }

  /** One step of a thread that is on its way to returning a delivered value. */
  lemma ReturnOwn(cfg: Config, m: Mem, pc: Pc, ch: Choice, wait: TimerWait)
    requires Returning(pc, wait) && !Finished(pc) && m.open == wait.call.Target() <= m.closed
    ensures var o := ClientStep(cfg, m, pc, ch); Returning(o.pc, wait) && o.mem == m
  {
  }

  /** A stamp on a timer is at or above the word's target, so a reached target stays reached. */
  lemma DaemonKeepsReached(cfg: Config, m: Mem, d: Dpc, ch: DChoice)
    requires IsTimer(cfg) && MemInv(m) && DaemonInv(m, d) && m.closed <= m.clock && m.open <= m.closed
    ensures Gone(d) || m.open <= DaemonStep(cfg, m, d, ch).mem.closed
  {
  }

  /**
   Once closed_count has reached the installed target, an iteration that starts then returns
   Ok with a value at or above the target: the thread neither sleeps, aborts nor fails, for as
   long as the daemon does not go on to reap the entry.
   */
  lemma LaterIterationReturns(cfg: Config, s: State, before: seq<Event>, after: seq<Event>, t: Tid, wait: TimerWait)
    requires IsTimer(cfg) && Init(cfg, s)
    requires Along(cfg, s, before, (x, e) => SoleWaiter(t, x, e))
    requires var x := Exec(cfg, s, before);
             && PcOf(x, t) == OnTimer(TimerClosed(wait))
             && x.mem.open == wait.call.Target() <= x.mem.closed
    requires Along(cfg, Exec(cfg, s, before), after, (x, e) => StaysInCall(t, x, e))
    ensures var y := Exec(cfg, Exec(cfg, s, before), after);
            Gone(y.daemon) || Returning(PcOf(y, t), wait)
  {
    SoleAlways(cfg, t, s, before);
    var rule := (z, e) => StaysInCall(t, z, e);
    var inv := (z: State) => Inv(cfg, z) && SoleInv(t, z) && ReturnInv(t, wait, z);
    forall z, e | inv(z) && rule(z, e) ensures inv(Step(cfg, z, e)) {
      StepKeeps(cfg, z, e);
      SoleStep(cfg, t, z, e);
      ReturnStep(cfg, t, wait, z, e);
    }
    AlongKeeps(cfg, inv, Exec(cfg, s, before), after, rule);
  }

  // -- From the margin to the return --

  /** The target is reached, and the thread has not left the loop of this call unless it is done. */
  ghost predicate Reached(t: Tid, call: TimerCall, armedAt: U64, s: State) {
    Gone(s.daemon) ||
    (&& s.mem.open == call.Target() <= s.mem.closed
     && (InLoop(PcOf(s, t)) == Some((call, armedAt)) || Finished(PcOf(s, t))))
  }

  lemma ReachedStep(cfg: Config, t: Tid, call: TimerCall, armedAt: U64, s: State, e: Event)
    requires IsTimer(cfg) && Inv(cfg, s) && SoleInv(t, s) && StaysInCall(t, s, e) && Reached(t, call, armedAt, s)
    ensures Reached(t, call, armedAt, Step(cfg, s, e))
  {
    hide ClientStep, DaemonStep, MemInv, DaemonInv, OwnInv;
    if Gone(s.daemon) {
      GoneForGood(cfg, s, e);
    } else {
      match e
      case Client(u, ch) =>
        if u == t {
          LoopStays(cfg, s.mem, PcOf(s, t), ch);
        } else {
          OthersLeave(cfg, s.mem, PcOf(s, u), ch);
          LoopWakes(ClientStep(cfg, s.mem, PcOf(s, u), ch).wakes, PcOf(s, t));
        }
      case Daemon(ch) =>
        DaemonLeaves(cfg, s.mem, s.daemon, ch);
        DaemonKeepsReached(cfg, s.mem, s.daemon, ch);
        LoopWakes(DaemonStep(cfg, s.mem, s.daemon, ch).wakes, PcOf(s, t));
      case _ =>
    }
  }

  /** A reached target stays reached over any number of later cycles, while the call lasts. */
  lemma StaysReached(cfg: Config, s: State, before: seq<Event>, mid: seq<Event>, t: Tid, call: TimerCall, armedAt: U64)
    requires IsTimer(cfg) && Init(cfg, s)
    requires Along(cfg, s, before, (x, e) => SoleWaiter(t, x, e))
    requires Reached(t, call, armedAt, Exec(cfg, s, before))
    requires Along(cfg, Exec(cfg, s, before), mid, (x, e) => StaysInCall(t, x, e))
    ensures Reached(t, call, armedAt, Exec(cfg, Exec(cfg, s, before), mid))
  {
    SoleAlways(cfg, t, s, before);
    var rule := (z, e) => StaysInCall(t, z, e);
    var inv := (z: State) => Inv(cfg, z) && SoleInv(t, z) && Reached(t, call, armedAt, z);
    forall z, e | inv(z) && rule(z, e) ensures inv(Step(cfg, z, e)) {
      StepKeeps(cfg, z, e);
      SoleStep(cfg, t, z, e);
      ReachedStep(cfg, t, call, armedAt, z, e);
    }
    AlongKeeps(cfg, inv, Exec(cfg, s, before), mid, rule);
  }

  /** Three runs in a row as one. */
  lemma Sequel(cfg: Config, s: State, before: seq<Event>, during: seq<Event>, mid: seq<Event>, t: Tid)
    requires Along(cfg, s, before, (x, e) => SoleWaiter(t, x, e))
    requires Along(cfg, Exec(cfg, s, before), during, (x, e) => OneCycle(t, x, e))
    requires Along(cfg, Exec(cfg, Exec(cfg, s, before), during), mid, (x, e) => StaysInCall(t, x, e))
    ensures Exec(cfg, s, before + during) == Exec(cfg, Exec(cfg, s, before), during)
    ensures Exec(cfg, s, before + during + mid) == Exec(cfg, Exec(cfg, Exec(cfg, s, before), during), mid)
    ensures Along(cfg, s, before + during, (x, e) => SoleWaiter(t, x, e))
    ensures Along(cfg, s, before + during + mid, (x, e) => SoleWaiter(t, x, e))
  {
    hide Exec, Along, Step;
    var rule := (x, e) => SoleWaiter(t, x, e);
    ExecConcat(cfg, s, before, during);
    ExecConcat(cfg, s, before + during, mid);
    AlongConcat(cfg, s, before, during, (x, e) => OneCycle(t, x, e), rule);
    AlongConcat(cfg, s, before + during, mid, (x, e) => StaysInCall(t, x, e), rule);
  }

  /**
   The 2W promise as a whole. A daemon cycle falls inside the margin of the sole waiter's call
   and nobody terminates expiration_ns during it. Then, however many cycles follow and however
   late the thread comes round, every iteration of its wait loop that starts afterwards returns Ok
   with a value at or above the target, never Reaped and never an abort, unless the daemon goes on to reap.
   */
  lemma MarginMeansReturn(
    cfg: Config, s: State, before: seq<Event>, during: seq<Event>, mid: seq<Event>, last: seq<Event>,
    t: Tid, call: TimerCall, armedAt: U64, at: U64, ttlAt: U64, wait: TimerWait)
    requires IsTimer(cfg) && Init(cfg, s)
    requires Along(cfg, s, before, (x, e) => SoleWaiter(t, x, e))
    requires InLoop(PcOf(Exec(cfg, s, before), t)) == Some((call, armedAt))
    requires Exec(cfg, s, before).daemon == DOpen(at, ttlAt) && InsideMargin(call, armedAt, at, ttlAt)
    requires Along(cfg, Exec(cfg, s, before), during, (x, e) => OneCycle(t, x, e))
    requires var y := Exec(cfg, Exec(cfg, s, before), during); y.daemon.DIdle? && y.mem.expiration != SENTINEL
    requires Along(cfg, Exec(cfg, Exec(cfg, s, before), during), mid, (x, e) => StaysInCall(t, x, e))
    requires PcOf(Exec(cfg, Exec(cfg, Exec(cfg, s, before), during), mid), t) == OnTimer(TimerClosed(wait))
    requires Along(cfg, Exec(cfg, Exec(cfg, Exec(cfg, s, before), during), mid), last, (x, e) => StaysInCall(t, x, e))
    ensures var w := Exec(cfg, Exec(cfg, Exec(cfg, Exec(cfg, s, before), during), mid), last);
            Gone(w.daemon) || Returning(PcOf(w, t), wait)
  {
    hide Exec, Along, Step, Init;
    CycleInsideMarginDelivers(cfg, s, before, during, t, call, armedAt, at, ttlAt);
    Sequel(cfg, s, before, during, mid, t);
    StaysReached(cfg, s, before + during, mid, t, call, armedAt);
    var z := Exec(cfg, s, before + during + mid);
    if Gone(z.daemon) {
      StaysGone(cfg, z, last);
    } else {
      LaterIterationReturns(cfg, s, before + during + mid, last, t, wait);
    }
  }
}
