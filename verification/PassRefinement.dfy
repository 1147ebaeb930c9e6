/**
 The two models of a pass agree. The daemon's transitions over one entry, run without any
 other thread in between, do to the three words exactly what the pass on values does, and
 end with the entry removed exactly when the pass on values removes it.
 */
module PassRefinement {
  import opened Core
  import P = Protocol
  import opened Pass

  /** The same entry seen by both models; met is what a barrier's conditions evaluate to. */
  ghost predicate SameEntry(cfg: P.Config, m: P.Mem, met: bool, meta: Meta, read: Reader) {
    && meta.tier == cfg.tier
    && (cfg.tier == WaitCron ==> meta.intervalMs == Some(cfg.interval))
    && (cfg.tier == WaitCounter ==>
          && meta.watchedName.Some? && meta.watchedWord.Some?
          && read(meta.watchedName.value, meta.watchedWord.value) == Some(m.watched))
    && (cfg.tier == WaitBarrier ==> meta.conditions.Some? && AllMet(read, meta.conditions.value) == met)
  }

  function WordsIn(m: P.Mem): Triple {
    Triple(m.open, m.closed, m.expiration)
  }

  /** k steps of the daemon, with nobody else moving and no further cycle begun. */
  function Steps(cfg: P.Config, m: P.Mem, d: P.Dpc, met: bool, k: nat): (r: (P.Mem, P.Dpc))
    decreases k
  {
    if k == 0 then (m, d)
    else
      var o := P.DaemonStep(cfg, m, d, P.DChoice(P.Rest, met));
      Steps(cfg, o.mem, o.daemon, met, k - 1)
  }

  lemma {:induction false} StepsSplit(cfg: P.Config, m: P.Mem, d: P.Dpc, met: bool, i: nat, j: nat)
    ensures var (m1, d1) := Steps(cfg, m, d, met, i);
            Steps(cfg, m, d, met, i + j) == Steps(cfg, m1, d1, met, j)
    decreases i
  {
    if i > 0 {
      var o := P.DaemonStep(cfg, m, d, P.DChoice(P.Rest, met));
      StepsSplit(cfg, o.mem, o.daemon, met, i - 1, j);
    }
  }

  lemma {:induction false} IdleRests(cfg: P.Config, m: P.Mem, live: bool, met: bool, k: nat)
    ensures Steps(cfg, m, P.DIdle(live), met, k) == (m, P.DIdle(live))
    decreases k
  {
    if k > 0 {
      IdleRests(cfg, m, live, met, k - 1);
    }
  }

  lemma Loads(cfg: P.Config, m: P.Mem, met: bool, at: U64, ttlAt: U64)
    ensures Steps(cfg, m, P.DOpen(at, ttlAt), met, 2) == (m, P.DExp(at, ttlAt, m.open, m.closed))
  {
    hide P.Contract, Judge;
  }

  /** The three stores and two wakes of a reap. */
  lemma Reaps(cfg: P.Config, m: P.Mem, met: bool)
    ensures var (m', d) := Steps(cfg, m, P.DReapOpen, met, 5);
            WordsIn(m') == REAPED && d == P.DIdle(false)
  {
  }

  /** The stamp, its wake, and for a cron the re-arm. */
  lemma Fires(cfg: P.Config, m: P.Mem, met: bool, at: U64, open: U64, closed: U64, value: U64)
    ensures var (m', d) := Steps(cfg, m, P.DStamp(at, open, closed, value), met, 3);
            && WordsIn(m') == Triple(if cfg.tier == WaitCron then NextLine(at / NANOS_PER_MS, cfg.interval) else m.open,
                                     value, m.expiration)
            && d == P.DIdle(true)
  {
  }

  /** From the verdict on. */
  lemma Decides(cfg: P.Config, m: P.Mem, met: bool, at: U64, ttlAt: U64, meta: Meta, read: Reader)
    requires SameEntry(cfg, m, met, meta, read)
    ensures var (m', d) := Steps(cfg, m, P.DExp(at, ttlAt, m.open, m.closed), met, 6);
            && WordsIn(m') == Evaluated(meta, WordsIn(m), read, at / NANOS_PER_MS, ttlAt)
            && d == P.DIdle(!Dead(WordsIn(m), ttlAt))
  {
    hide Steps, NextLine;
    var d := P.DExp(at, ttlAt, m.open, m.closed);
    StepsSplit(cfg, m, d, met, 1, 5);
    var d1 := P.DaemonStep(cfg, m, d, P.DChoice(P.Rest, met)).daemon;
    OneStep(cfg, m, d, met);
    match Judge(m.open, m.closed, m.expiration, ttlAt)
    case Reap => Reaps(cfg, m, met);
    case Skip => IdleRests(cfg, m, true, met, 5);
    case Evaluate =>
      Contracts(cfg, m, met, at, meta, read);
  }

  lemma OneStep(cfg: P.Config, m: P.Mem, d: P.Dpc, met: bool)
    ensures var o := P.DaemonStep(cfg, m, d, P.DChoice(P.Rest, met)); Steps(cfg, m, d, met, 1) == (o.mem, o.daemon)
  {
    hide P.DaemonStep;
  }

  /** The tier's contract, from the daemon's first step of it to its last. */
  lemma Contracts(cfg: P.Config, m: P.Mem, met: bool, at: U64, meta: Meta, read: Reader)
    requires SameEntry(cfg, m, met, meta, read)
    ensures var (m', d) := Steps(cfg, m, P.Contract(cfg, at, m.open, m.closed), met, 5);
            var stamp := Stamp(meta, WordsIn(m), read, at / NANOS_PER_MS);
            && d == P.DIdle(true)
            && WordsIn(m') == if stamp.None? then WordsIn(m)
                              else Triple(Rearm(meta, m.open, at / NANOS_PER_MS), stamp.value, m.expiration)
  {
    hide Steps, NextLine;
    var d := P.Contract(cfg, at, m.open, m.closed);
    if d.DIdle? {
      IdleRests(cfg, m, true, met, 5);
    } else if d.DStamp? {
      Stamped(cfg, m, met, d, 5);
    } else {
      OneStep(cfg, m, d, met);
      StepsSplit(cfg, m, d, met, 1, 4);
      var o := P.DaemonStep(cfg, m, d, P.DChoice(P.Rest, met));
      if o.daemon.DIdle? {
        IdleRests(cfg, o.mem, true, met, 4);
      } else {
        Stamped(cfg, o.mem, met, o.daemon, 4);
      }
    }
  }

  lemma Stamped(cfg: P.Config, m: P.Mem, met: bool, d: P.Dpc, k: nat)
    requires d.DStamp? && k >= 3
    ensures var (m', d') := Steps(cfg, m, d, met, k);
            && d' == P.DIdle(true)
            && WordsIn(m')
               == Triple(if cfg.tier == WaitCron then NextLine(d.at / NANOS_PER_MS, cfg.interval) else m.open,
                         d.value, m.expiration)
  {
    hide Steps, NextLine;
    Fires(cfg, m, met, d.at, d.open, d.closed, d.value);
    StepsSplit(cfg, m, d, met, 3, k - 3);
    IdleRests(cfg, Steps(cfg, m, d, met, 3).0, true, met, k - 3);
  }

  /**
   A pass over one entry, undisturbed: eight daemon transitions after it starts to load the
   words, the daemon is idle, the words are what the pass on values computes from the same
   words, clock and reads, and the entry is in the registry unless the pass on values finds it dead.
   */
  lemma UndisturbedPassRefines(cfg: P.Config, m: P.Mem, met: bool, at: U64, ttlAt: U64, meta: Meta, read: Reader)
    requires SameEntry(cfg, m, met, meta, read)
    ensures var (m', d) := Steps(cfg, m, P.DOpen(at, ttlAt), met, 8);
            && WordsIn(m') == Evaluated(meta, WordsIn(m), read, at / NANOS_PER_MS, ttlAt)
            && d == P.DIdle(!Dead(WordsIn(m), ttlAt))
  {
    hide Steps, Evaluated, Dead;
    Loads(cfg, m, met, at, ttlAt);
    Decides(cfg, m, met, at, ttlAt, meta, read);
    StepsSplit(cfg, m, P.DOpen(at, ttlAt), met, 2, 6);
  }
}
