/**
 What the registry's commands come to, said of stored words and entries: the clock, what create hands out
 and how that starts the protocol, what a pass removes, and that the stores the registry admits are the
 stores the protocol's threads make.
 */
module RegistryLaws {
  import opened Core
  import opened Pass
  import opened RegistrySpec
  import Lattice
  import P = Protocol
  import PassOrder
  import PassRefinement
  import PassRuns
  import PassStores

  // -- The clock --

  /** The clock's milliseconds after the commands, when it showed ms before them. */
  function Told(ms: U64, cmds: seq<Command>): U64
    decreases |cmds|
  {
    if cmds == [] then ms
    else Told(if cmds[0].CmdClock? then cmds[0].at / 1_000_000 else ms, cmds[1..])
  }

  /** The deadline a refresh gives. */
  function Deadline(cmd: Command): U64
    requires cmd.CmdRefresh?
  {
    Wrap(cmd.now + 1_000_000_000)
  }

  /** The latest of `exp` and the refreshes' deadlines. */
  ghost predicate Latest(exp: U64, cmds: seq<Command>, exp': U64) {
    && exp <= exp'
    && (forall i | 0 <= i < |cmds| && cmds[i].CmdRefresh? :: Deadline(cmds[i]) <= exp')
    && (exp' == exp || exists i :: 0 <= i < |cmds| && cmds[i].CmdRefresh? && exp' == Deadline(cmds[i]))
  }

  lemma OneCommand(reg: Reg, cmd: Command)
    requires Valid(reg)
    ensures var (w, w') := (reg.words[0], Perform(reg, cmd).words[0]);
            && w'.closed == w.closed
            && w'.open == (if cmd.CmdClock? then cmd.at / 1_000_000 else w.open)
            && Latest(w.expiration, [cmd], w'.expiration)
  {
    hide RunPass, Create, Settled, IsOrder, WellFormed;
    DoKeeps(reg, cmd);
    Performs(reg, cmd);
    if cmd.CmdRefresh? {
      assert [cmd][0].CmdRefresh? && Deadline([cmd][0]) == Wrap(cmd.now + 1_000_000_000);
    }
  }

  lemma {:induction false} ClockAfter(reg: Reg, cmds: seq<Command>)
    requires Valid(reg)
    ensures var (w, w') := (reg.words[0], Run(reg, cmds).words[0]);
            w'.closed == w.closed && w'.open == Told(w.open, cmds) && Latest(w.expiration, cmds, w'.expiration)
    decreases |cmds|
  {
    hide Perform, Settled, WellFormed, Latest, Deadline;
    LatestNone(reg.words[0].expiration);
    if cmds != [] {
      var next := Perform(reg, cmds[0]);
      OneCommand(reg, cmds[0]);
      ClockAfter(next, cmds[1..]);
      LatestInTurn(reg.words[0].expiration, cmds, next.words[0].expiration, Run(next, cmds[1..]).words[0].expiration);
    }
  }

  lemma LatestNone(exp: U64)
    ensures Latest(exp, [], exp)
  {
  }

  lemma LatestInTurn(a: U64, cmds: seq<Command>, b: U64, c: U64)
    requires cmds != [] && Latest(a, [cmds[0]], b) && Latest(b, cmds[1..], c)
    ensures Latest(a, cmds, c)
  {
    hide Deadline;
    forall i | 0 <= i < |cmds| && cmds[i].CmdRefresh? ensures Deadline(cmds[i]) <= c {
      if i > 0 {
        assert cmds[1..][i - 1] == cmds[i];
      } else {
        assert [cmds[0]][0] == cmds[0];
      }
    }
    if c != b {
      var i :| 0 <= i < |cmds| - 1 && cmds[1..][i].CmdRefresh? && c == Deadline(cmds[1..][i]);
      assert cmds[i + 1] == cmds[1..][i];
    } else if b != a {
      assert cmds[0].CmdRefresh? && c == Deadline(cmds[0]);
    }
  }

  lemma {:induction false} ToldBound(ms: U64, cmds: seq<Command>)
    requires ms <= MAX_MS
    ensures Told(ms, cmds) <= MAX_MS
    decreases |cmds|
  {
    if cmds != [] {
      ToldBound(if cmds[0].CmdClock? then cmds[0].at / 1_000_000 else ms, cmds[1..]);
    }
  }

  /**
   From a fresh registry and through any commands: the clock's open_count is the reading last stored in
   milliseconds, its closed_count the start time, and its expiration the latest of the creation deadline
   of 100 ms, the first arm and all refreshes of one second. Entry, tier and id never change.
   */
  lemma ClockTells(created: U64, armed: U64, start: U64, cmds: seq<Command>)
    ensures var reg := Run(New(created, armed, start), cmds);
            var w := reg.words[0];
            && w.open == Told(start / 1_000_000, cmds) <= MAX_MS
            && w.closed == start / 1_000_000
            && Latest(Larger((created + 100_000_000) % 0x1_0000_0000_0000_0000,
                             (armed + 1_000_000_000) % 0x1_0000_0000_0000_0000),
                      cmds, w.expiration)
            && reg.entries["clock"] == Entry(0, Meta(Interlock, None, None, None, None))
  {
    ClockAfter(New(created, armed, start), cmds);
    ToldBound(start / 1_000_000, cmds);
    hide Run, Latest, Settled, WellFormed, Told;
  }

  function Larger(x: U64, y: U64): (z: U64)
    ensures z >= x && z >= y && (z == x || z == y)
  {
    if x < y then y else x
  }

  // -- What create hands out --

  /** The words of a new interlock, by tier, the clock's milliseconds, the interval and the time of creation. */
  predicate Fresh(tier: Tier, w: Triple, clock: U64, intervalMs: int, now: U64) {
    && w.expiration == (now + 100_000_000) % 0x1_0000_0000_0000_0000
    && (tier == WaitTimer ==> w.open == clock && w.closed == clock)
    && (tier == WaitCron ==>
          && intervalMs > 0 && w.open % intervalMs == 0 && clock < w.open <= clock + intervalMs
          && w.closed == clock)
    && (tier == WaitBarrier ==> w.open == 1 && w.closed == 0)
    && (tier == Interlock || tier == WaitCounter ==> w.open == 0 && w.closed == 0)
  }

  function IntervalOf(req: Request): int {
    if req.intervalNs.Some? then req.intervalNs.value / 1_000_000 else 0
  }

  /**
   Every create that succeeds, on any registry that commands can reach: the new interlock is (clock, clock)
   for a timer, (the least multiple of the interval above the clock, clock) for a cron, (1, 0) for a barrier
   and (0, 0) otherwise, and expires 100 ms after now. The interlock it replaces is terminated in all three
   words, and no others change.
   */
  lemma CreateStores(created: U64, armed: U64, start: U64, cmds: seq<Command>,
                     req: Request, now: U64, allocates: bool)
    ensures var reg := Run(New(created, armed, start), cmds);
            var (reg', made) := Create(reg, req, now, allocates);
            made.Ok? ==>
              && made.value in reg'.words && made.value !in reg.words
              && Fresh(req.tier, reg'.words[made.value], reg.words[0].open, IntervalOf(req), now)
              && forall id | id in reg.words ::
                   id in reg'.words
                   && reg'.words[id]
                      == if req.name in reg.entries && reg.entries[req.name].id == id
                         then Triple(0xFFFF_FFFF_FFFF_FFFF, 0xFFFF_FFFF_FFFF_FFFF, 0xFFFF_FFFF_FFFF_FFFF)
                         else reg.words[id]
  {
    ClockTells(created, armed, start, cmds);
    hide Run, Create, Latest, Settled, WellFormed, Fresh;
    var reg := Run(New(created, armed, start), cmds);
    if Create(reg, req, now, allocates).1.Ok? {
      CreateOn(reg, req, now, allocates);
    }
  }

  lemma CreateOn(reg: Reg, req: Request, now: U64, allocates: bool)
    requires Valid(reg) && reg.words[0].open <= MAX_MS && Create(reg, req, now, allocates).1.Ok?
    ensures var (reg', made) := Create(reg, req, now, allocates);
            && made.value in reg'.words && made.value !in reg.words
            && Fresh(req.tier, reg'.words[made.value], reg.words[0].open, IntervalOf(req), now)
            && forall id | id in reg.words ::
                 id in reg'.words
                 && reg'.words[id]
                    == if req.name in reg.entries && reg.entries[req.name].id == id
                       then Triple(0xFFFF_FFFF_FFFF_FFFF, 0xFFFF_FFFF_FFFF_FFFF, 0xFFFF_FFFF_FFFF_FFFF)
                       else reg.words[id]
  {
    hide Plan, Settled;
    PlanIff(reg.entries.Keys, req);
    var meta := Plan(reg.entries.Keys, req).value;
    hide Resolved, Acceptable;
    BornFresh(req, meta, reg.words[0].open, now);
  }

  lemma BornFresh(req: Request, meta: Meta, clock: U64, now: U64)
    requires Resolved(req, meta) && clock <= MAX_MS
    requires meta.tier == WaitCron ==> 0 < Interval(meta) <= MAX_MS
    ensures Fresh(req.tier, Born(meta, clock, now), clock, IntervalOf(req), now)
  {
    if meta.tier == WaitCron {
      ArmedLine(clock, Interval(meta));
    }
  }

  // -- From create to the protocol and to runs of passes --

  /** The new interlock before anybody has called anything: nobody waits, the daemon is between passes. */
  function Handed(w: Triple, clock: U64, now: U64, watched: U64): P.State {
    P.State(P.Mem(w.open, w.closed, w.expiration, clock, watched, now, [clock], [w.closed], [], []),
            map[], P.DIdle(true), [])
  }

  lemma FreshStarts(cfg: P.Config, w: Triple, clock: U64, intervalMs: int, created: U64, now: U64, watched: U64)
    requires Fresh(cfg.tier, w, clock, intervalMs, created) && clock * NANOS_PER_MS <= now
    requires cfg.tier == WaitCron ==> intervalMs == cfg.interval
    ensures P.Init(cfg, Handed(w, clock, now, watched))
  {
    MsFits(clock, now);
    if cfg.tier == WaitCron {
      ArmedLine(clock, cfg.interval);
      LineAbove(w.open, clock, cfg.interval);
    }
  }

  lemma MsFits(clock: U64, now: U64)
    requires clock * NANOS_PER_MS <= now
    ensures clock <= MAX_MS
  {
  }

  /** The multiple of the interval above the clock and not more than an interval away. */
  lemma LineAbove(line: nat, clock: nat, interval: nat)
    requires interval > 0 && line % interval == 0 && clock < line <= clock + interval
    ensures line == (clock / interval + 1) * interval
  {
    var p := line / interval;
    assert line == p * interval;
    ReachedLine(clock, p, interval);
    assert (p - 1) * interval == line - interval;
    if p > 0 {
      ReachedLine(clock, p - 1, interval);
    }
  }

  /**
   What create hands out is where the theorems about one interlock start. With CLOCK_MONOTONIC at or past the
   published clock, the new words are an initial state of the protocol for the tier, and the new cron
   and barrier are the ones that runs of passes start from, cron intervals being those asked for.
   */
  lemma CreateStartsRuns(created: U64, armed: U64, start: U64, cmds: seq<Command>, req: Request, now: U64,
                         cfg: P.Config, at: U64, watched: U64)
    requires var reg := Run(New(created, armed, start), cmds);
             Create(reg, req, now, true).1.Ok? && reg.words[0].open * NANOS_PER_MS <= at
    requires cfg.tier == req.tier && (req.tier == WaitCron ==> cfg.interval == IntervalOf(req))
    ensures var reg := Run(New(created, armed, start), cmds);
            var (reg', made) := Create(reg, req, now, true);
            var (w, clock) := (reg'.words[made.value], reg.words[0].open);
            && req.name in reg'.entries && reg'.entries[req.name].id == made.value
            && P.Init(cfg, Handed(w, clock, at, watched))
            && var meta := reg'.entries[req.name].meta;
            && meta.tier == req.tier
            && (req.tier == WaitCron ==>
                  && PassRuns.IsCron(meta) && meta.intervalMs == Some(cfg.interval)
                  && w == PassRuns.Created(meta, clock, w.expiration))
            && (req.tier == WaitBarrier ==> PassRuns.IsBarrier(meta) && w == Triple(1, 0, w.expiration))
  {
    ClockTells(created, armed, start, cmds);
    var reg := Run(New(created, armed, start), cmds);
    CreateOn(reg, req, now, true);
    hide Run, Settled, Plan, Fresh;
    PlanIff(reg.entries.Keys, req);
    var (reg', made) := Create(reg, req, now, true);
    FreshStarts(cfg, reg'.words[made.value], reg.words[0].open, IntervalOf(req), now, at, watched);
    CreatedMeets(reg'.entries[req.name].meta, cfg, req, reg'.words[made.value], reg.words[0].open, now, at, watched);
  }

  lemma CreatedMeets(meta: Meta, cfg: P.Config, req: Request, w: Triple, clock: U64, now: U64, at: U64, watched: U64)
    requires Resolved(req, meta) && cfg.tier == req.tier && Fresh(req.tier, w, clock, IntervalOf(req), now)
    requires req.tier == WaitCron ==> cfg.interval == IntervalOf(req)
    requires P.Init(cfg, Handed(w, clock, at, watched))
    ensures req.tier == WaitCron ==>
              && PassRuns.IsCron(meta) && meta.intervalMs == Some(cfg.interval)
              && w == PassRuns.Created(meta, clock, w.expiration)
    ensures req.tier == WaitBarrier ==> PassRuns.IsBarrier(meta) && w == Triple(1, 0, w.expiration)
  {
  }

  // -- What a pass removes --

  /** After a pass exactly the clock and the entries that were live are there, each as it was. */
  lemma PassLeaves(reg: Reg, order: seq<string>, ms: U64, now: U64)
    requires Valid(reg) && IsOrder(reg.entries, order)
    ensures var reg' := RunPass(reg, order, ms, now);
            && (forall n :: n in reg'.entries <==>
                  n in reg.entries
                  && (n == "clock" || !PassStores.Ended(WordsOf(reg.entries, reg.words, n), now)))
            && (forall n | n in reg'.entries :: reg'.entries[n] == reg.entries[n])
            && reg'.nextId == reg.nextId && reg'.nameOf == reg.nameOf
  {
    PassOrder.SameRemovals(reg.entries, reg.words, order, order, ms, now);
    hide PassWords, Removals, Settled;
    forall n | n in reg.entries
      ensures Dead(WordsOf(reg.entries, reg.words, n), now)
              <==> PassStores.Ended(WordsOf(reg.entries, reg.words, n), now)
    {
      PassStores.VerdictOf(WordsOf(reg.entries, reg.words, n), now);
    }
  }

  // -- The stores clients make --

  /** The store a thread's next step can be, if it is one: of open, close and free, an arm, or a target. */
  function StoreOf(pc: P.Pc): Option<Act> {
    match pc
    case Add(OpenWord, h) => Some(ActOpen(h))
    case Add(ClosedWord, h) => Some(ActClose(h))
    case OwnerFree => Some(ActFree)
    case AttacherFree => Some(ActAttacherFree)
    case OnArm(ArmCas(start, ttl, _, _)) => Some(ActArm(start, ttl))
    case OnTimer(TimerCas(call, _)) => Some(ActRaise(call.Target()))
    case OnCounter(CounterCas(c, _)) => Some(ActRaise(c.target))
    case _ => None
  }

  /** Whether the step is over with its store: a compare-exchange can fail, and is then tried again. */
  predicate Retries(pc: P.Pc) {
    || (pc.OnArm? && pc.arm.ArmLoad?) || (pc.OnTimer? && pc.timer.TimerLoad?)
    || (pc.OnCounter? && pc.counterPc.CounterLoad?)
  }

  lemma ClientStores(cfg: P.Config, m: P.Mem, pc: P.Pc, ch: P.Choice)
    requires Lattice.CasRaises(pc)
    ensures var o := P.ClientStep(cfg, m, pc, ch);
            var (w, w') := (PassRefinement.WordsIn(m), PassRefinement.WordsIn(o.mem));
            w' == if StoreOf(pc).Some? && !Retries(o.pc) then Acted(w, StoreOf(pc).value) else w
  {
  }

  /**
   In every reachable state of one interlock, whatever a thread does next changes the three words exactly as
   the registry's account of that store says, or not at all.
   */
  lemma StoresAreActs(cfg: P.Config, s: P.State, es: seq<P.Event>, t: P.Tid, ch: P.Choice)
    requires P.Init(cfg, s)
    ensures var x := P.Exec(cfg, s, es);
            var (pc, y) := (P.PcOf(x, t), P.Step(cfg, x, P.Client(t, ch)));
            var (w, w') := (PassRefinement.WordsIn(x.mem), PassRefinement.WordsIn(y.mem));
            w' == if StoreOf(pc).Some? && !Retries(P.PcOf(y, t)) then Acted(w, StoreOf(pc).value) else w
  {
    Lattice.CasAlwaysRaises(cfg, s, es);
    hide P.Exec, P.Init, P.ClientStep, Acted, StoreOf, Retries;
    var x := P.Exec(cfg, s, es);
    assert Lattice.CasRaises(P.Idle);
    ClientStores(cfg, x.mem, P.PcOf(x, t), ch);
  }
}
