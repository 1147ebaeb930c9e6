/**
 The TTL branch of a pass, under every interleaving: never taken while completed arms stay
 ahead of the clock, and taken by the first pass after they stop.
 */
module Keepalive {
  import opened Core
  import opened Protocol
  import Lattice
  import Stamps

  /** The deadline of creation, or of an arm that has returned, is still ahead. */
  ghost predicate Ahead(created: U64, s: State) {
    s.mem.now < created || exists i :: 0 <= i < |s.mem.armed| && s.mem.now < s.mem.armed[i].Deadline()
  }

  /** Arms complete in time, no create takes the name over, and no word is marked. */
  ghost predicate Punctual(created: U64, s: State, e: Event) {
    && Ahead(created, s)
    && !Terminated(s.mem.open, s.mem.closed, s.mem.expiration)
    && (e.Daemon? ==> !e.dchoice.op.Takeover?)
  }

  /** The pass has read no marker, and its TTL read is not in the future. */
  predicate Unmarked(m: Mem, d: Dpc) {
    match d
    case DOpen(_, ttlAt) => ttlAt <= m.now
    case DClosed(_, ttlAt, open) => ttlAt <= m.now && open != SENTINEL
    case DExp(_, ttlAt, open, closed) => ttlAt <= m.now && open != SENTINEL && closed != SENTINEL
    case _ => true
  }

  ghost predicate AliveInv(created: U64, s: State) {
    && !Gone(s.daemon) && Unmarked(s.mem, s.daemon)
    && created <= s.mem.expiration && Lattice.ArmInv(s)
  }

  lemma AliveStep(cfg: Config, created: U64, s: State, e: Event)
    requires AliveInv(created, s) && Punctual(created, s, e)
    ensures AliveInv(created, Step(cfg, s, e))
  {
    Lattice.StepRaises(cfg, s, e);
    Lattice.StepArms(cfg, s, e);
    if e.Client? {
      ClientKeepsTime(cfg, s.mem, PcOf(s, e.t), e.choice);
    }
  }

  lemma ClientKeepsTime(cfg: Config, m: Mem, pc: Pc, ch: Choice)
    ensures ClientStep(cfg, m, pc, ch).mem.now == m.now
  {
  }

  /**
   While some completed deadline is ahead of the clock in every state, and nobody terminates
   the interlock, no pass reaps it: the entry is never on its way out of the registry.
   */
  lemma PunctualIsNeverReaped(cfg: Config, s: State, es: seq<Event>)
    requires Init(cfg, s)
    requires Along(cfg, s, es, (x, e) => Punctual(s.mem.expiration, x, e))
    ensures !Gone(Exec(cfg, s, es).daemon)
  {
    var created := s.mem.expiration;
    var rule := (x, e) => Punctual(created, x, e);
    var inv := (x: State) => AliveInv(created, x);
    forall x, e | inv(x) && rule(x, e) ensures inv(Step(cfg, x, e)) {
      AliveStep(cfg, created, x, e);
    }
    AlongKeeps(cfg, inv, s, es, rule);
  }

  // -- The touch loop --

  /** The TTL of a touch is twice the interval its thread sleeps. */
  function TouchTtl(intervalMs: U64): U64 {
    MsToNanos(SaturatingMul(intervalMs, 2))
  }

  /** Some touch has returned Ok that read the time less than its TTL ago. */
  ghost predicate Touched(intervalMs: U64, s: State) {
    exists i :: 0 <= i < |s.mem.armed|
      && s.mem.armed[i].ttl == TouchTtl(intervalMs)
      && s.mem.now < s.mem.armed[i].start + s.mem.armed[i].ttl < TWO64
  }

  ghost predicate TouchLoop(intervalMs: U64, created: U64, s: State, e: Event) {
    && (s.mem.now < created || Touched(intervalMs, s))
    && !Terminated(s.mem.open, s.mem.closed, s.mem.expiration)
    && (e.Daemon? ==> !e.dchoice.op.Takeover?)
  }

  lemma TouchedIsAhead(intervalMs: U64, created: U64, s: State)
    requires Touched(intervalMs, s)
    ensures Ahead(created, s)
  {
    var i :| 0 <= i < |s.mem.armed| && s.mem.armed[i].ttl == TouchTtl(intervalMs)
      && s.mem.now < s.mem.armed[i].start + s.mem.armed[i].ttl < TWO64;
    assert s.mem.armed[i].Deadline() == s.mem.armed[i].start + s.mem.armed[i].ttl;
  }

  /**
   An interlock whose touch loop always has a completed touch that is less than twice its interval
   old (before the first one completes, the creation deadline ahead) is never reaped.
   */
  lemma TouchLoopKeepsAlive(cfg: Config, s: State, es: seq<Event>, intervalMs: U64)
    requires Init(cfg, s)
    requires Along(cfg, s, es, (x, e) => TouchLoop(intervalMs, s.mem.expiration, x, e))
    ensures !Gone(Exec(cfg, s, es).daemon)
  {
    var strict := (x, e) => TouchLoop(intervalMs, s.mem.expiration, x, e);
    var rule := (x, e) => Punctual(s.mem.expiration, x, e);
    forall x, e | strict(x, e) ensures rule(x, e) {
      if Touched(intervalMs, x) {
        TouchedIsAhead(intervalMs, s.mem.expiration, x);
      }
    }
    AlongConcat(cfg, s, [], es, strict, rule);
    assert [] + es == es;
    PunctualIsNeverReaped(cfg, s, es);
  }

  // -- Lapse --

  predicate LastPass(s: State, e: Event) {
    e.Daemon? ==> e.dchoice.op.Rest?
  }

  /** What a pass leaves of the words; open and close of a bare interlock may still move its counters. */
  predicate Marked(cfg: Config, m: Mem) {
    m.expiration == SENTINEL && (Stamps.IsWaitTier(cfg) ==> m.open == SENTINEL && m.closed == SENTINEL)
  }

  predicate Doomed(m: Mem, ttlAt: U64) {
    m.expiration == SENTINEL || m.expiration <= ttlAt
  }

  /** Where a pass that read ttlAt and must reap the entry can be. */
  predicate Reaping(cfg: Config, m: Mem, d: Dpc, ttlAt: U64) {
    match d
    case DOpen(_, n) => n == ttlAt && Doomed(m, ttlAt)
    case DClosed(_, n, _) => n == ttlAt && Doomed(m, ttlAt)
    case DExp(_, n, _, _) => n == ttlAt && Doomed(m, ttlAt)
    case DReapOpen => true
    case DReapClosed => Stamps.IsWaitTier(cfg) ==> m.open == SENTINEL
    case DReapExp => Stamps.IsWaitTier(cfg) ==> m.open == SENTINEL && m.closed == SENTINEL
    case DWaking(_, after) => after.ToGone? && Marked(cfg, m)
    case DIdle(live) => !live && Marked(cfg, m)
    case _ => false
  }

  /** Since `armed` arms had returned, one has returned whose deadline is past the TTL read. */
  ghost predicate Extended(m: Mem, armed: nat, ttlAt: U64) {
    exists i :: armed <= i < |m.armed| && m.armed[i].Deadline() > ttlAt
  }

  ghost predicate LapseInv(cfg: Config, s: State, armed: nat, ttlAt: U64) {
    && AllFit(cfg, s) && Lattice.CasInv(s)
    && armed <= |s.mem.armed|
    && (Extended(s.mem, armed, ttlAt) || Reaping(cfg, s.mem, s.daemon, ttlAt))
  }

  lemma ClientLapses(cfg: Config, m: Mem, pc: Pc, ch: Choice)
    requires Fits(cfg, pc) && Lattice.CasRaises(pc)
    ensures var o := ClientStep(cfg, m, pc, ch).mem;
            && m.armed <= o.armed
            && (Stamps.IsWaitTier(cfg) ==> o.closed == m.closed && (m.open == SENTINEL ==> o.open == SENTINEL))
            && (o.expiration == m.expiration || o.expiration == SENTINEL
                || (|o.armed| == |m.armed| + 1 && o.expiration == o.armed[|m.armed|].Deadline()))
            && (m.expiration == SENTINEL ==> o.expiration == SENTINEL)
  {
  }

  lemma DaemonLapses(cfg: Config, m: Mem, d: Dpc, ch: DChoice, ttlAt: U64)
    requires Reaping(cfg, m, d, ttlAt) && ch.op.Rest?
    ensures var o := DaemonStep(cfg, m, d, ch); Reaping(cfg, o.mem, o.daemon, ttlAt) && o.mem.armed == m.armed
  {
  }

  lemma DaemonArmsNothing(cfg: Config, m: Mem, d: Dpc, ch: DChoice)
    ensures DaemonStep(cfg, m, d, ch).mem.armed == m.armed
  {
  }

  lemma ExtendedStays(m: Mem, m': Mem, armed: nat, ttlAt: U64)
    requires m.armed <= m'.armed && Extended(m, armed, ttlAt)
    ensures Extended(m', armed, ttlAt)
  {
    var i :| armed <= i < |m.armed| && m.armed[i].Deadline() > ttlAt;
    assert m'.armed[i] == m.armed[i];
  }

  lemma LapseStep(cfg: Config, s: State, e: Event, armed: nat, ttlAt: U64)
    requires LapseInv(cfg, s, armed, ttlAt) && LastPass(s, e)
    ensures LapseInv(cfg, Step(cfg, s, e), armed, ttlAt)
  {
    hide ClientStep, DaemonStep;
    var s' := Step(cfg, s, e);
    StepFits(cfg, s, e);
    Lattice.CasStep(cfg, s, e);
    if e.Client? {
      ClientLapses(cfg, s.mem, PcOf(s, e.t), e.choice);
    } else if e.Daemon? {
      DaemonArmsNothing(cfg, s.mem, s.daemon, e.dchoice);
      if Reaping(cfg, s.mem, s.daemon, ttlAt) {
        DaemonLapses(cfg, s.mem, s.daemon, e.dchoice, ttlAt);
      }
    }
    if Extended(s.mem, armed, ttlAt) {
      ExtendedStays(s.mem, s'.mem, armed, ttlAt);
    }
  }

  /**
   A pass about to load an entry whose deadline its TTL read has reached removes it: unless an
   arm with a deadline past that TTL read returns first, the pass ends with the entry out of the
   registry and expiration_ns at the marker, and for a wait tier the counters too.
   */
  lemma LapsedIsReaped(cfg: Config, s: State, before: seq<Event>, during: seq<Event>)
    requires Init(cfg, s)
    requires var x := Exec(cfg, s, before); x.daemon.DOpen? && x.mem.expiration <= x.daemon.ttlAt
    requires Along(cfg, Exec(cfg, s, before), during, LastPass)
    ensures var x, y := Exec(cfg, s, before), Exec(cfg, Exec(cfg, s, before), during);
            y.daemon.DIdle? && !Extended(y.mem, |x.mem.armed|, x.daemon.ttlAt) ==>
              y.daemon == DIdle(false) && Marked(cfg, y.mem)
  {
    AlwaysFits(cfg, s, before);
    Lattice.CasAlwaysRaises(cfg, s, before);
    var x := Exec(cfg, s, before);
    var inv := (z: State) => LapseInv(cfg, z, |x.mem.armed|, x.daemon.ttlAt);
    forall z, e | inv(z) && LastPass(z, e) ensures inv(Step(cfg, z, e)) {
      LapseStep(cfg, z, e, |x.mem.armed|, x.daemon.ttlAt);
    }
    AlongKeeps(cfg, inv, x, during, LastPass);
  }
}
