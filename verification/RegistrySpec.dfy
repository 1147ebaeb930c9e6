/**
 The registry as a state machine on values: create, attach, passes, clock updates and
 client stores, and what every sequence of them keeps.
 */
module RegistrySpec {
  import opened Core
  import opened Pass
  import PassOrder

  datatype Error = InvalidRequest | InterlockNotFound(name: string) | AllocationFailed

  datatype Result<+T> = Ok(value: T) | Err(error: Error)

  /** A create request as it arrives from the wire. */
  datatype Request = Request(
    name: string,
    tier: Tier,
    watchedName: Option<string>,
    watchedWord: Option<nat>,
    intervalNs: Option<U64>,
    conditions: Option<seq<(string, nat, U64)>>)

  /**
   words and nameOf cover every id ever handed out: clients keep the memory of an interlock
   after its entry has left the registry.
   */
  datatype Reg = Reg(nextId: nat, entries: Entries, words: Words, nameOf: map<nat, string>)

  // -- create --

  function ParseWord(byte: nat): Result<WatchedWord> {
    if byte == 0 then Ok(OpenCount) else if byte == 1 then Ok(ClosedCount) else Err(InvalidRequest)
  }

  /** Conditions are checked in order; the first bad one decides the error. */
  function ParseConditions(known: set<string>, conds: seq<(string, nat, U64)>): (r: Result<seq<Condition>>)
    ensures r.Ok? ==> |r.value| == |conds|
  {
    if conds == [] then Ok([])
    else
      var k := |conds| - 1;
      var before := ParseConditions(known, conds[..k]);
      if before.Err? then before
      else if conds[k].0 !in known then Err(InterlockNotFound(conds[k].0))
      else
        var word := ParseWord(conds[k].1);
        if word.Err? then Err(word.error)
        else Ok(before.value + [Condition(conds[k].0, word.value, conds[k].2)])
  }

  function Plan(known: set<string>, req: Request): Result<Meta> {
    if req.name == "clock" then Err(InvalidRequest)
    else
      match req.tier
      case Interlock => Ok(Meta(Interlock, None, None, None, None))
      case WaitTimer => Ok(Meta(WaitTimer, Some("clock"), Some(OpenCount), None, None))
      case WaitCounter =>
        if req.watchedName.None? then Err(InvalidRequest)
        else if req.watchedName.value !in known then Err(InterlockNotFound(req.watchedName.value))
        else if req.watchedWord.None? then Err(InvalidRequest)
        else
          var word := ParseWord(req.watchedWord.value);
          if word.Err? then Err(word.error)
          else Ok(Meta(WaitCounter, req.watchedName, Some(word.value), None, None))
      case WaitCron =>
        if req.intervalNs.None? || req.intervalNs.value / NANOS_PER_MS == 0 then Err(InvalidRequest)
        else Ok(Meta(WaitCron, Some("clock"), Some(OpenCount), Some(req.intervalNs.value / NANOS_PER_MS), None))
      case WaitBarrier =>
        if req.conditions.None? then Err(InvalidRequest)
        else
          var parsed := ParseConditions(known, req.conditions.value);
          if parsed.Err? then Err(parsed.error)
          else Ok(Meta(WaitBarrier, None, None, None, Some(parsed.value)))
  }

  /** The caller's side of create: which requests are accepted. */
  predicate Acceptable(known: set<string>, req: Request) {
    && req.name != "clock"
    && (req.tier == WaitCounter ==>
          req.watchedName.Some? && req.watchedName.value in known
          && req.watchedWord.Some? && req.watchedWord.value <= 1)
    && (req.tier == WaitCron ==> req.intervalNs.Some? && req.intervalNs.value >= NANOS_PER_MS)
    && (req.tier == WaitBarrier ==>
          req.conditions.Some?
          && forall i | 0 <= i < |req.conditions.value| ::
               req.conditions.value[i].0 in known && req.conditions.value[i].1 <= 1)
  }

  lemma {:induction false} ParseConditionsIff(known: set<string>, conds: seq<(string, nat, U64)>)
    ensures ParseConditions(known, conds).Ok? <==> forall i | 0 <= i < |conds| :: conds[i].0 in known && conds[i].1 <= 1
    ensures ParseConditions(known, conds).Ok? ==> forall i | 0 <= i < |conds| ::
              var c := ParseConditions(known, conds).value[i];
              c == Condition(conds[i].0, if conds[i].1 == 0 then OpenCount else ClosedCount, conds[i].2)
    ensures ParseConditions(known, conds).Err? ==> !ParseConditions(known, conds).error.AllocationFailed?
  {
    if conds != [] {
      var k := |conds| - 1;
      ParseConditionsIff(known, conds[..k]);
      assert forall i | 0 <= i < k :: conds[..k][i] == conds[i];
    }
  }

  /** A failure among the first conditions is the failure of the whole list. */
  lemma {:induction false} FirstFailureWins(known: set<string>, conds: seq<(string, nat, U64)>, k: nat)
    requires k <= |conds| && ParseConditions(known, conds[..k]).Err?
    ensures ParseConditions(known, conds) == ParseConditions(known, conds[..k])
    decreases |conds|
  {
    if k == |conds| {
      assert conds[..k] == conds;
    } else {
      var last := |conds| - 1;
      assert conds[..last][..k] == conds[..k];
      FirstFailureWins(known, conds[..last], k);
    }
  }

  function WordNamed(byte: nat): WatchedWord {
    if byte == 0 then OpenCount else ClosedCount
  }

  /** What an accepted request becomes: its own tier's fields, and no others. */
  predicate Resolved(req: Request, meta: Meta) {
    && meta.tier == req.tier
    && (req.tier == WaitCounter ==>
          && req.watchedWord.Some?
          && meta.watchedName == req.watchedName && meta.watchedWord == Some(WordNamed(req.watchedWord.value)))
    && (req.tier == WaitCron ==>
          req.intervalNs.Some? && meta.intervalMs == Some(req.intervalNs.value / NANOS_PER_MS))
    && (req.tier == WaitTimer || req.tier == WaitCron ==>
          meta.watchedName == Some("clock") && meta.watchedWord == Some(OpenCount))
    && (req.tier != WaitCron ==> meta.intervalMs == None)
    && (req.tier != WaitBarrier ==> meta.conditions == None)
    && (req.tier == WaitBarrier ==>
          && req.conditions.Some? && meta.conditions.Some?
          && |meta.conditions.value| == |req.conditions.value|
          && forall i | 0 <= i < |meta.conditions.value| ::
               var (name, byte, threshold) := req.conditions.value[i];
               meta.conditions.value[i] == Condition(name, WordNamed(byte), threshold))
  }

  /** Not-found names an entry the request watches and the registry lacks. */
  predicate Missing(known: set<string>, req: Request, name: string) {
    && name !in known
    && (req.tier == WaitCounter ==> req.watchedName == Some(name))
    && (req.tier == WaitBarrier ==>
          req.conditions.Some? && exists i :: 0 <= i < |req.conditions.value| && req.conditions.value[i].0 == name)
    && (req.tier == WaitCounter || req.tier == WaitBarrier)
  }

  lemma {:induction false} MissingCondition(known: set<string>, conds: seq<(string, nat, U64)>)
    requires ParseConditions(known, conds).Err? && ParseConditions(known, conds).error.InterlockNotFound?
    ensures var name := ParseConditions(known, conds).error.name;
            name !in known && exists i :: 0 <= i < |conds| && conds[i].0 == name
  {
    var k := |conds| - 1;
    if ParseConditions(known, conds[..k]).Err? {
      MissingCondition(known, conds[..k]);
      var i :| 0 <= i < k && conds[..k][i].0 == ParseConditions(known, conds).error.name;
      assert conds[i].0 == conds[..k][i].0;
    }
  }

  /**
   create's checks pass exactly on acceptable requests; what they produce watches only
   existing entries and, for a cron, has a positive interval that a u64 of nanoseconds can
   hold. When they fail with not-found, the name is one the request watches and nobody has.
   */
  lemma PlanIff(known: set<string>, req: Request)
    ensures Plan(known, req).Ok? <==> Acceptable(known, req)
    ensures Plan(known, req).Ok? ==>
              var meta := Plan(known, req).value;
              && Resolved(req, meta)
              && (meta.tier == WaitCounter ==> meta.watchedName.Some? && meta.watchedName.value in known)
              && (meta.tier == WaitCron ==> meta.intervalMs.Some? && 0 < meta.intervalMs.value <= MAX_MS)
              && (meta.tier == WaitBarrier ==> meta.conditions.Some?)
              && (meta.conditions.Some? ==>
                    forall i | 0 <= i < |meta.conditions.value| :: meta.conditions.value[i].name in known)
    ensures Plan(known, req).Err? && Plan(known, req).error.InterlockNotFound? ==>
              Missing(known, req, Plan(known, req).error.name)
    ensures Plan(known, req).Err? ==> !Plan(known, req).error.AllocationFailed?
  {
    hide ParseConditions;
    if req.tier == WaitBarrier && req.conditions.Some? {
      var parsed := ParseConditions(known, req.conditions.value);
      ParseConditionsIff(known, req.conditions.value);
      if parsed.Err? && parsed.error.InterlockNotFound? {
        MissingCondition(known, req.conditions.value);
      }
    }
    if req.tier == WaitCron && req.intervalNs.Some? {
      MsBound(req.intervalNs.value);
    }
  }

  function Interval(meta: Meta): U64 {
    if meta.intervalMs.Some? then meta.intervalMs.value else 0
  }

  /** The words of a fresh interlock of this tier. */
  function Born(meta: Meta, clock: U64, now: U64): Triple
    requires meta.tier == WaitCron ==> Interval(meta) > 0
  {
    Triple(InitialOpen(meta.tier, clock, Interval(meta)), InitialClosed(meta.tier, clock),
           Wrap(now + CREATION_TTL_NANOS))
  }

  /** The words when a name is taken over: its old interlock is reaped first. */
  function TakenOver(reg: Reg, name: string): Words {
    if name in reg.entries then reg.words[reg.entries[name].id := REAPED] else reg.words
  }

  predicate Ready(reg: Reg) {
    "clock" in reg.entries && reg.entries["clock"].id in reg.words
  }

  function ClockMs(reg: Reg): U64
    requires Ready(reg)
  {
    reg.words[reg.entries["clock"].id].open
  }

  /** The next id goes to a fresh interlock, which takes the name over. */
  function Committed(reg: Reg, name: string, meta: Meta, now: U64): Reg
    requires Ready(reg) && (meta.tier == WaitCron ==> Interval(meta) > 0)
  {
    var id := reg.nextId;
    Reg(id + 1, reg.entries[name := Entry(id, meta)],
        TakenOver(reg, name)[id := Born(meta, ClockMs(reg), now)], reg.nameOf[id := name])
  }

  /** Taking the name over first and entering the new interlock after comes to the same. */
  lemma CommittedInParts(reg: Reg, name: string, meta: Meta, now: U64)
    requires Ready(reg) && (meta.tier == WaitCron ==> Interval(meta) > 0)
    ensures Committed(reg, name, meta, now)
            == Reg(reg.nextId + 1, Without(reg.entries, [name])[name := Entry(reg.nextId, meta)],
                   TakenOver(reg, name)[reg.nextId := Born(meta, ClockMs(reg), now)], reg.nameOf[reg.nextId := name])
  {
    assert Without(reg.entries, [name])[name := Entry(reg.nextId, meta)]
        == reg.entries[name := Entry(reg.nextId, meta)];
  }

  /** allocates: whether the kernel hands out the memory. */
  function Create(reg: Reg, req: Request, now: U64, allocates: bool): (Reg, Result<nat>)
    requires Ready(reg)
  {
    var plan := Plan(reg.entries.Keys, req);
    if plan.Err? then (reg, Err(plan.error))
    else if !allocates then (reg, Err(AllocationFailed))
    else
      PlanIff(reg.entries.Keys, req);
      (Committed(reg, req.name, plan.value, now), Ok(reg.nextId))
  }

  function Attach(reg: Reg, name: string): Result<nat> {
    if name in reg.entries then Ok(reg.entries[name].id) else Err(InterlockNotFound(name))
  }

  // -- Everything else that happens to the registry's memory --

  /** What clients can do to an interlock they hold. Raise is the compare-exchange of a target. */
  datatype Act =
    | ActArm(now: U64, ttl: U64)
    | ActFree
    | ActAttacherFree
    | ActOpen(h: U64)
    | ActClose(h: U64)
    | ActRaise(target: U64)

  function Armed(exp: U64, deadline: U64): U64 {
    if exp < deadline then deadline else exp
  }

  function Acted(w: Triple, act: Act): Triple {
    match act
    case ActArm(now, ttl) => w.(expiration := Armed(w.expiration, Wrap(now + ttl)))
    case ActFree => w.(expiration := SENTINEL)
    case ActAttacherFree => w.(open := SENTINEL)
    case ActOpen(h) => w.(open := Wrap(w.open + h))
    case ActClose(h) => w.(closed := Wrap(w.closed + h))
    case ActRaise(target) => w.(open := Armed(w.open, target))
  }

  datatype Command =
    | CmdCreate(req: Request, now: U64, allocates: bool)
    | CmdPass(order: seq<string>, at: U64, now: U64)
    | CmdClock(at: U64)
    | CmdRefresh(now: U64)
    | CmdAct(id: nat, act: Act)

  predicate Names(entries: Entries, order: seq<string>) {
    forall n | n in order :: n in entries
  }

  function RunPass(reg: Reg, order: seq<string>, ms: U64, now: U64): Reg
    requires WellFormed(reg.entries, reg.words) && Names(reg.entries, order)
  {
    reg.(words := PassWords(reg.entries, reg.words, order, ms, now),
         entries := Without(reg.entries, Removals(reg.entries, reg.words, order, ms, now)))
  }

  function WithClock(reg: Reg, w: Triple): Reg
    requires Ready(reg)
  {
    reg.(words := reg.words[reg.entries["clock"].id := w])
  }

  function ClockWords(reg: Reg): Triple
    requires Ready(reg)
  {
    reg.words[reg.entries["clock"].id]
  }

  /** The daemon's store into the clock word. */
  function SetClock(reg: Reg, ms: U64): Reg
    requires Ready(reg)
  {
    WithClock(reg, ClockWords(reg).(open := ms))
  }

  /** The clock's expiration is pushed one second ahead. */
  function RefreshClock(reg: Reg, now: U64): Reg
    requires Ready(reg)
  {
    WithClock(reg, Acted(ClockWords(reg), ActArm(now, 1_000_000_000)))
  }

  /**
   One command. `at` is the cycle's clock read in nanoseconds. Client stores reach any interlock
   ever handed out, except the clock, which is read-only.
   */
  ghost function Do(reg: Reg, cmd: Command): Reg
    requires Valid(reg)
  {
    match cmd
    case CmdCreate(req, now, allocates) => Create(reg, req, now, allocates).0
    case CmdPass(order, at, now) =>
      if IsOrder(reg.entries, order) then RunPass(reg, order, at / NANOS_PER_MS, now) else reg
    case CmdClock(at) => SetClock(reg, at / NANOS_PER_MS)
    case CmdRefresh(now) => RefreshClock(reg, now)
    case CmdAct(id, act) =>
      if id in reg.words && id != 0 then reg.(words := reg.words[id := Acted(reg.words[id], act)]) else reg
  }

  /**
   Registered or dead: an id is the current entry of the name it was created under, or its
   expiration_ns holds the marker and any current entry of that name is younger.
   */
  predicate Settled(reg: Reg, id: nat)
    requires id in reg.words && id in reg.nameOf
  {
    var name := reg.nameOf[id];
    if name in reg.entries then
      reg.entries[name].id == id || (reg.words[id].expiration == SENTINEL && id < reg.entries[name].id)
    else reg.words[id].expiration == SENTINEL
  }

  ghost predicate Valid(reg: Reg) {
    && "clock" in reg.entries && reg.entries["clock"] == Entry(0, Meta(Interlock, None, None, None, None))
    && WellFormed(reg.entries, reg.words)
    && (forall id: nat :: id in reg.words <==> id < reg.nextId)
    && (forall id: nat :: id in reg.nameOf <==> id < reg.nextId)
    && (forall n | n in reg.entries :: reg.entries[n].id < reg.nextId && reg.nameOf[reg.entries[n].id] == n)
    && (forall n | n in reg.entries && reg.entries[n].meta.tier == WaitCron ::
          0 < Interval(reg.entries[n].meta) <= MAX_MS)
    && (forall id: nat | id < reg.nextId :: Settled(reg, id))
  }

  /** Registry::new: the clock, created, armed for a second, both counters at the start time. */
  function New(created: U64, armed: U64, start: U64): (reg: Reg)
    ensures Valid(reg)
  {
    var exp := Armed(Wrap(created + CREATION_TTL_NANOS), Wrap(armed + 1_000_000_000));
    Reg(1, map["clock" := Entry(0, Meta(Interlock, None, None, None, None))],
        map[0 := Triple(start / NANOS_PER_MS, start / NANOS_PER_MS, exp)], map[0 := "clock"])
  }

  // -- What every command keeps --

  /** A terminated expiration is never revived. */
  predicate DeadStays(reg: Reg, reg': Reg) {
    forall id | id in reg.words && reg.words[id].expiration == SENTINEL ::
      id in reg'.words && reg'.words[id].expiration == SENTINEL
  }

  lemma CommittedKeeps(reg: Reg, name: string, meta: Meta, now: U64)
    requires Valid(reg) && name != "clock" && (meta.tier == WaitCron ==> 0 < Interval(meta) <= MAX_MS)
    ensures Valid(Committed(reg, name, meta, now))
  {
    hide Born, Settled, WellFormed;
    CommittedLinks(reg, name, meta, now);
    var reg' := Committed(reg, name, meta, now);
    forall id: nat | id < reg'.nextId ensures Settled(reg', id) {
      CommittedSettles(reg, name, meta, now, id);
    }
  }

  lemma CommittedLinks(reg: Reg, name: string, meta: Meta, now: U64)
    requires Valid(reg) && (meta.tier == WaitCron ==> 0 < Interval(meta))
    ensures WellFormed(Committed(reg, name, meta, now).entries, Committed(reg, name, meta, now).words)
    ensures DeadStays(reg, Committed(reg, name, meta, now))
  {
    hide Born, Settled;
  }

  lemma CommittedSettles(reg: Reg, name: string, meta: Meta, now: U64, id: nat)
    requires Valid(reg) && (meta.tier == WaitCron ==> 0 < Interval(meta)) && id <= reg.nextId
    ensures var reg' := Committed(reg, name, meta, now);
            id in reg'.words && id in reg'.nameOf && Settled(reg', id)
  {
    hide Born;
    if id < reg.nextId {
      assert Settled(reg, id);
    }
  }

  lemma CreateKeeps(reg: Reg, req: Request, now: U64, allocates: bool)
    requires Valid(reg)
    ensures var (reg', r) := Create(reg, req, now, allocates);
            && Valid(reg') && DeadStays(reg, reg')
            && (r.Ok? <==> Acceptable(reg.entries.Keys, req) && allocates)
            && (r.Err? ==> reg' == reg)
            && (r.Ok? ==> r.value == reg.nextId && Attach(reg', req.name) == r)
            && reg'.nextId !in reg'.words
  {
    PlanIff(reg.entries.Keys, req);
    var plan := Plan(reg.entries.Keys, req);
    if plan.Ok? && allocates {
      CommittedKeeps(reg, req.name, plan.value, now);
      CommittedLinks(reg, req.name, plan.value, now);
    }
  }

  lemma {:induction false} PassRaises(entries: Entries, words: Words, order: seq<string>, ms: U64, now: U64)
    requires WellFormed(entries, words) && Names(entries, order)
    ensures forall id | id in words && words[id].expiration == SENTINEL ::
              PassWords(entries, words, order, ms, now)[id].expiration == SENTINEL
  {
    if order != [] {
      var k := |order| - 1;
      assert order[k] in order;
      PassRaises(entries, words, order[..k], ms, now);
    }
  }

  lemma PassKeeps(reg: Reg, order: seq<string>, ms: U64, now: U64)
    requires Valid(reg) && IsOrder(reg.entries, order)
    ensures var reg' := RunPass(reg, order, ms, now);
            && Valid(reg') && DeadStays(reg, reg') && reg'.words[0] == reg.words[0]
  {
    var reg' := RunPass(reg, order, ms, now);
    PassRaises(reg.entries, reg.words, order, ms, now);
    PassOrder.ClockUntouched(reg.entries, reg.words, order, ms, now);
    PassOrder.SameRemovals(reg.entries, reg.words, order, order, ms, now);
    forall id: nat | id < reg'.nextId ensures Settled(reg', id) {
      assert Settled(reg, id);
      var name := reg.nameOf[id];
      if name in reg.entries && reg.entries[name].id == id && name !in reg'.entries {
        PassOrder.Outcome(reg.entries, reg.words, order, ms, now, name);
      }
    }
  }

  lemma ClockKeeps(reg: Reg, w: Triple)
    requires Valid(reg) && (ClockWords(reg).expiration == SENTINEL ==> w.expiration == SENTINEL)
    ensures Valid(WithClock(reg, w)) && DeadStays(reg, WithClock(reg, w))
  {
    var reg' := WithClock(reg, w);
    forall id: nat | id < reg.nextId ensures Settled(reg', id) {
      assert Settled(reg, id);
    }
  }

  lemma RefreshKeeps(reg: Reg, now: U64)
    requires Valid(reg)
    ensures Valid(RefreshClock(reg, now)) && DeadStays(reg, RefreshClock(reg, now))
  {
    ClockKeeps(reg, Acted(ClockWords(reg), ActArm(now, 1_000_000_000)));
  }

  lemma ActKeeps(reg: Reg, id: nat, act: Act)
    requires Valid(reg) && id in reg.words
    ensures var reg' := reg.(words := reg.words[id := Acted(reg.words[id], act)]);
            Valid(reg') && DeadStays(reg, reg')
  {
    var reg' := reg.(words := reg.words[id := Acted(reg.words[id], act)]);
    forall i: nat | i < reg.nextId ensures Settled(reg', i) {
      assert Settled(reg, i);
    }
  }

  lemma DoKeeps(reg: Reg, cmd: Command)
    requires Valid(reg)
    ensures var reg' := Do(reg, cmd);
            && Valid(reg') && DeadStays(reg, reg') && reg.nextId <= reg'.nextId
            && (forall id | id in reg.nameOf :: reg'.nameOf[id] == reg.nameOf[id])
            && (!cmd.CmdClock? && !cmd.CmdRefresh? ==> reg'.words[0] == reg.words[0])
  {
    hide Settled, PassWords, Removals, IsOrder, WellFormed, Plan, Acted;
    match cmd
    case CmdCreate(req, now, allocates) => CreateKeeps(reg, req, now, allocates);
    case CmdPass(order, at, now) =>
      if IsOrder(reg.entries, order) {
        PassKeeps(reg, order, at / NANOS_PER_MS, now);
      }
    case CmdClock(at) => ClockKeeps(reg, ClockWords(reg).(open := at / NANOS_PER_MS));
    case CmdRefresh(now) => RefreshKeeps(reg, now);
    case CmdAct(id, act) =>
      if id in reg.words {
        ActKeeps(reg, id, act);
      }
  }

  // -- Whole runs --

  ghost function Perform(reg: Reg, cmd: Command): (r: Reg)
    requires Valid(reg)
    ensures Valid(r)
  {
    DoKeeps(reg, cmd); Do(reg, cmd)
  }

  ghost function Run(reg: Reg, cmds: seq<Command>): (r: Reg)
    requires Valid(reg)
    ensures Valid(r)
    decreases |cmds|
  {
    if cmds == [] then reg else Run(Perform(reg, cmds[0]), cmds[1..])
  }

  lemma Performs(reg: Reg, cmd: Command)
    requires Valid(reg)
    ensures cmd.CmdClock? ==> Perform(reg, cmd) == SetClock(reg, cmd.at / NANOS_PER_MS)
    ensures cmd.CmdRefresh? ==> Perform(reg, cmd) == RefreshClock(reg, cmd.now)
    ensures cmd.CmdPass? && IsOrder(reg.entries, cmd.order) ==>
              Perform(reg, cmd) == RunPass(reg, cmd.order, cmd.at / NANOS_PER_MS, cmd.now)
    ensures cmd.CmdCreate? ==> Perform(reg, cmd) == Create(reg, cmd.req, cmd.now, cmd.allocates).0
    ensures cmd.CmdAct? ==>
              Perform(reg, cmd)
              == if cmd.id in reg.words && cmd.id != 0
                 then reg.(words := reg.words[cmd.id := Acted(reg.words[cmd.id], cmd.act)]) else reg
  {
  }

  /** The memory part of one daemon cycle, by its three clock reads. */
  ghost function CycleOf(reg: Reg, at: U64, ttlAt: U64, refreshAt: U64, order: seq<string>): (r: Reg)
    requires Valid(reg)
    ensures Valid(r)
  {
    Perform(Perform(Perform(reg, CmdClock(at)), CmdPass(order, at, ttlAt)), CmdRefresh(refreshAt))
  }

  lemma CycleInParts(m0: Reg, at: U64, ttlAt: U64, refreshAt: U64, order: seq<string>, m1: Reg, m2: Reg)
    requires Valid(m0) && m1 == SetClock(m0, at / NANOS_PER_MS)
    requires IsOrder(m1.entries, order) && WellFormed(m1.entries, m1.words)
    requires m2 == RunPass(m1, order, at / NANOS_PER_MS, ttlAt) && Ready(m2)
    ensures CycleOf(m0, at, ttlAt, refreshAt, order) == RefreshClock(m2, refreshAt)
  {
    Performs(m0, CmdClock(at));
    Performs(Perform(m0, CmdClock(at)), CmdPass(order, at, ttlAt));
    Performs(Perform(Perform(m0, CmdClock(at)), CmdPass(order, at, ttlAt)), CmdRefresh(refreshAt));
  }

  lemma {:induction false} RunKeeps(reg: Reg, cmds: seq<Command>)
    requires Valid(reg)
    ensures DeadStays(reg, Run(reg, cmds)) && reg.nextId <= Run(reg, cmds).nextId
    ensures forall id | id in reg.nameOf :: Run(reg, cmds).nameOf[id] == reg.nameOf[id]
    decreases |cmds|
  {
    if cmds != [] {
      DoKeeps(reg, cmds[0]);
      RunKeeps(Perform(reg, cmds[0]), cmds[1..]);
    }
  }

  /**
   From a fresh registry, after any sequence of creates, passes, clock updates and client
   stores, and any further sequence: every interlock ever handed out is the entry attach gives
   for its name, or is terminated for good; ids are unique and below next_id; the clock is
   there, with id 0.
   */
  lemma RegisteredOrDead(created: U64, armed: U64, start: U64, before: seq<Command>, after: seq<Command>, id: nat)
    ensures var r1 := Run(New(created, armed, start), before);
            var r2 := Run(r1, after);
            && Attach(r2, "clock") == Ok(0)
            && (forall n, n' | n in r2.entries && n' in r2.entries && n != n' :: r2.entries[n].id != r2.entries[n'].id)
            && (forall n | n in r2.entries :: r2.entries[n].id < r2.nextId)
            && (id < r1.nextId ==>
                  && id in r1.words && id in r2.words && r2.nameOf[id] == r1.nameOf[id]
                  && (Attach(r1, r1.nameOf[id]) == Ok(id) || r1.words[id].expiration == SENTINEL)
                  && (Attach(r2, r1.nameOf[id]) == Ok(id) || r2.words[id].expiration == SENTINEL)
                  && (r1.words[id].expiration == SENTINEL ==> r2.words[id].expiration == SENTINEL))
  {
    var r1 := Run(New(created, armed, start), before);
    RunKeeps(r1, after);
    if id < r1.nextId {
      assert Settled(r1, id) && Settled(Run(r1, after), id);
    }
  }

  /**
   attach gives the latest create of the name: an interlock created under it and not
   terminated since is the one attach returns, and whatever attach returns is the youngest
   interlock ever created under that name.
   */
  lemma AttachIsLatest(
    created: U64, armed: U64, start: U64, before: seq<Command>, req: Request, now: U64, after: seq<Command>)
    ensures var r0 := Run(New(created, armed, start), before);
            var (r1, made) := Create(r0, req, now, true);
            made.Ok? ==>
              && Valid(r1)
              && var r2 := Run(r1, after);
              && made.value in r2.words
              && (r2.words[made.value].expiration != SENTINEL ==> Attach(r2, req.name) == made)
              && (Attach(r2, req.name).Ok? ==>
                    var id := Attach(r2, req.name).value;
                    && made.value <= id && r2.nameOf[id] == req.name
                    && forall i: nat | id < i < r2.nextId :: r2.nameOf[i] != req.name)
  {
    hide Run, New, Create, DeadStays, Acceptable, WellFormed;
    var r0 := Run(New(created, armed, start), before);
    CreateKeeps(r0, req, now, true);
    var (r1, made) := Create(r0, req, now, true);
    if made.Ok? {
      RunKeeps(r1, after);
      var r2 := Run(r1, after);
      assert Settled(r2, made.value);
      forall i: nat | i < r2.nextId && Attach(r2, req.name).Ok? && r2.nameOf[i] == req.name
        ensures i <= Attach(r2, req.name).value
        ensures i == Attach(r2, req.name).value || r2.words[i].expiration == SENTINEL
      {
        assert Settled(r2, i);
      }
    }
  }
}
