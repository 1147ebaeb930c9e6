/**
 The daemon's registry as it is: a map from names to entries that point at mutable words,
 changed in place. Every method is proved against the registry on values.
 */
module Registry {
  import opened Core
  import opened Pass
  import opened RegistrySpec

  /** The three shared words, used by one thread at a time. */
  class Words {
    var open: U64
    var closed: U64
    var expiration: U64

    constructor (now: U64)
      ensures View() == Triple(0, 0, Wrap(now + CREATION_TTL_NANOS))
    {
      open, closed, expiration := 0, 0, Wrap(now + CREATION_TTL_NANOS);
    }

    function View(): Triple
      reads this
    {
      Triple(open, closed, expiration)
    }

    /** interlock_arm. `spurious`: how often the weak compare-exchange fails for no reason. */
    method Arm(now: U64, ttl: U64, spurious: nat) returns (ok: bool)
      modifies this
      ensures View() == Acted(old(View()), ActArm(now, ttl))
      ensures ok <==> old(expiration) != SENTINEL
      ensures ok ==> Wrap(now + ttl) <= expiration
    {
      var deadline := Wrap(now + ttl);
      var failures := spurious;
      while true
        invariant View() == old(View())
        decreases failures
      {
        var current := expiration;
        if current == SENTINEL {
          return false;
        }
        var target := if current >= deadline then current else deadline;
        if target == current {
          return true;
        }
        if failures == 0 {
          expiration := target;
          return true;
        }
        failures := failures - 1;
      }
    }

    /** The compare-exchange loop that sets a wait's target; it never lowers the word. */
    method Raise(target: U64, spurious: nat)
      modifies this
      ensures View() == Acted(old(View()), ActRaise(target))
    {
      var failures := spurious;
      while true
        invariant View() == old(View())
        decreases failures
      {
        var current := open;
        if target <= current {
          return;
        }
        if failures == 0 {
          open := target;
          return;
        }
        failures := failures - 1;
      }
    }

    method Reap()
      modifies this
      ensures View() == REAPED
    {
      open := SENTINEL;
      closed := SENTINEL;
      expiration := SENTINEL;
    }

    method Free()
      modifies this
      ensures View() == Acted(old(View()), ActFree)
    {
      expiration := SENTINEL;
    }

    /** open and close: fetch_add wraps. */
    method Add(word: WatchedWord, h: U64)
      modifies this
      ensures View() == Acted(old(View()), if word == OpenCount then ActOpen(h) else ActClose(h))
    {
      if word == OpenCount {
        open := Wrap(open + h);
      } else {
        closed := Wrap(closed + h);
      }
    }

    /** free on a handle obtained by name, which cannot write expiration_ns. */
    method AttacherFree()
      modifies this
      ensures View() == Acted(old(View()), ActAttacherFree)
    {
      open := SENTINEL;
    }
  }

  datatype InterlockEntry = InterlockEntry(id: nat, handle: Words, meta: Meta)

  class Registry {
    var nextId: nat
    var byName: map<string, InterlockEntry>
    ghost var issued: map<nat, Words>
    ghost var nameOf: map<nat, string>

    ghost function Entries(): Entries
      reads this
    {
      map n | n in byName :: Entry(byName[n].id, byName[n].meta)
    }

    /** The registry on values. */
    ghost function Model(): Reg
      reads this, issued.Values
    {
      Reg(nextId, Entries(), map id | id in issued :: issued[id].View(), nameOf)
    }

    ghost predicate Linked()
      reads this
    {
      && (forall i, j | i in issued && j in issued && i != j :: issued[i] != issued[j])
      && (forall n | n in byName :: byName[n].id in issued && issued[byName[n].id] == byName[n].handle)
    }

    /** All that a single operation needs of the links. */
    ghost predicate Usable()
      reads this
    {
      Linked() && "clock" in byName && nextId !in issued
    }

    ghost predicate Valid()
      reads this, issued.Values
    {
      Usable() && RegistrySpec.Valid(Model())
    }

    lemma UsableAgain()
      requires Linked() && RegistrySpec.Valid(Model()) && Model().nextId !in Model().words
      ensures Valid()
    {
      assert "clock" in Entries();
    }

    constructor New(created: U64, armed: U64, start: U64)
      ensures Valid() && Model() == RegistrySpec.New(created, armed, start)
      ensures fresh(issued.Values)
    {
      var clock := new Words(created);
      var armedOk := clock.Arm(armed, 1_000_000_000, 0);
      clock.closed := start / NANOS_PER_MS;
      clock.open := start / NANOS_PER_MS;
      nextId := 1;
      byName := map["clock" := InterlockEntry(0, clock, Meta(Interlock, None, None, None, None))];
      issued := map[0 := clock];
      nameOf := map[0 := "clock"];
      new;
      assert issued[0] == clock;
      assert issued.Values == {clock};
      assert Entries() == RegistrySpec.New(created, armed, start).entries;
      assert Model().words == RegistrySpec.New(created, armed, start).words;
    }

    method Attach(name: string) returns (r: Result<(nat, Words)>)
      requires Valid()
      ensures match r
              case Ok((id, handle)) =>
                RegistrySpec.Attach(Model(), name) == Ok(id) && id in issued && issued[id] == handle
              case Err(e) => RegistrySpec.Attach(Model(), name) == Err(e)
    {
      if name in byName {
        r := Ok((byName[name].id, byName[name].handle));
      } else {
        r := Err(InterlockNotFound(name));
      }
    }

    // -- create --

    method ParseBarrier(conds: seq<(string, nat, U64)>) returns (r: Result<seq<Condition>>)
      ensures r == ParseConditions(Entries().Keys, conds)
    {
      var parsed: seq<Condition> := [];
      for i := 0 to |conds|
        invariant ParseConditions(Entries().Keys, conds[..i]) == Ok(parsed)
      {
        assert conds[..i + 1][..i] == conds[..i];
        var (wn, byte, threshold) := conds[i];
        if wn !in byName {
          FirstFailureWins(Entries().Keys, conds, i + 1);
          return Err(InterlockNotFound(wn));
        }
        if byte > 1 {
          FirstFailureWins(Entries().Keys, conds, i + 1);
          return Err(InvalidRequest);
        }
        parsed := parsed + [Condition(wn, if byte == 0 then OpenCount else ClosedCount, threshold)];
      }
      assert conds[..|conds|] == conds;
      r := Ok(parsed);
    }

    /** The checks of create, in the order the code makes them. */
    method Resolve(req: Request) returns (r: Result<Meta>)
      ensures r == Plan(Entries().Keys, req)
    {
      if req.name == "clock" {
        return Err(InvalidRequest);
      }
      match req.tier
      case Interlock => return Ok(Meta(Interlock, None, None, None, None));
      case WaitTimer => return Ok(Meta(WaitTimer, Some("clock"), Some(OpenCount), None, None));
      case WaitCounter =>
        if req.watchedName.None? {
          return Err(InvalidRequest);
        }
        if req.watchedName.value !in byName {
          return Err(InterlockNotFound(req.watchedName.value));
        }
        if req.watchedWord.None? || req.watchedWord.value > 1 {
          return Err(InvalidRequest);
        }
        var word := if req.watchedWord.value == 0 then OpenCount else ClosedCount;
        return Ok(Meta(WaitCounter, req.watchedName, Some(word), None, None));
      case WaitCron =>
        if req.intervalNs.None? || req.intervalNs.value == 0 {
          return Err(InvalidRequest);
        }
        var ms: U64 := req.intervalNs.value / NANOS_PER_MS;
        if ms == 0 {
          return Err(InvalidRequest);
        }
        return Ok(Meta(WaitCron, Some("clock"), Some(OpenCount), Some(ms), None));
      case WaitBarrier =>
        if req.conditions.None? {
          return Err(InvalidRequest);
        }
        var parsed := ParseBarrier(req.conditions.value);
        if parsed.Err? {
          return Err(parsed.error);
        }
        return Ok(Meta(WaitBarrier, None, None, None, Some(parsed.value)));
    }

    /** The memory of a new interlock, with its tier's initial counters. */
    method Born(meta: Meta, clockMs: U64, now: U64) returns (handle: Words)
      requires meta.tier == WaitCron ==> Interval(meta) > 0
      ensures fresh(handle) && handle.View() == RegistrySpec.Born(meta, clockMs, now)
    {
      handle := new Words(now);
      if meta.tier == WaitTimer {
        handle.open, handle.closed := clockMs, clockMs;
      } else if meta.tier == WaitCron {
        handle.open, handle.closed := NextLine(clockMs, meta.intervalMs.value), clockMs;
      } else if meta.tier == WaitBarrier {
        handle.open := 1;
      }
    }

    /** by_name.remove: the entry goes, its words stay. */
    method Forget(name: string)
      requires Linked()
      modifies this`byName
      ensures Linked() && Model() == old(Model()).(entries := Without(old(Entries()), [name]))
    {
      byName := map n | n in byName && n != name :: byName[n];
      assert Entries() == Without(old(Entries()), [name]);
    }

    /** The words of one issued interlock are reaped; no other words change. */
    method ReapIssued(id: nat, handle: Words)
      requires Linked() && id in issued && issued[id] == handle
      modifies handle
      ensures Model() == old(Model()).(words := old(Model().words)[id := REAPED])
    {
      ghost var before := Model().words;
      handle.Reap();
      assert Model().words == before[id := REAPED];
    }

    /** The old holder of a name is forgotten and reaped. */
    method TakeOver(name: string)
      requires Linked()
      modifies this`byName, issued.Values
      ensures Linked() && issued == old(issued)
      ensures Model() == old(Model()).(entries := Without(old(Entries()), [name]),
                                       words := TakenOver(old(Model()), name))
    {
      ghost var before := Model();
      if name in byName {
        var id, handle := byName[name].id, byName[name].handle;
        assert handle in issued.Values;
        Forget(name);
        ReapIssued(id, handle);
      } else {
        assert Without(before.entries, [name]) == before.entries;
      }
    }

    /** The new interlock takes the next id. */
    method Issue(name: string, handle: Words) returns (id: nat)
      requires Linked() && handle !in issued.Values && nextId !in issued
      modifies this
      ensures Linked() && byName == old(byName) && issued == old(issued)[id := handle] && id == old(nextId)
      ensures Model() == Reg(id + 1, old(Entries()), old(Model()).words[id := handle.View()], old(nameOf)[id := name])
    {
      ghost var before := Model();
      id := nextId;
      nextId := id + 1;
      issued := issued[id := handle];
      nameOf := nameOf[id := name];
      assert Entries() == before.entries;
      assert Model().words == before.words[id := handle.View()];
    }

    /** The new entry goes in under its name. */
    method Enter(name: string, id: nat, handle: Words, meta: Meta)
      requires Linked() && id in issued && issued[id] == handle
      modifies this`byName
      ensures Linked() && Model() == old(Model()).(entries := old(Entries())[name := Entry(id, meta)])
    {
      ghost var before := Entries();
      byName := byName[name := InterlockEntry(id, handle, meta)];
      assert Entries() == before[name := Entry(id, meta)];
    }

    method Replace(name: string, handle: Words, meta: Meta)
      requires Linked() && nextId !in issued && handle !in issued.Values
      modifies this, issued.Values
      ensures Linked() && issued == old(issued)[old(nextId) := handle]
      ensures Model() == Reg(old(nextId) + 1, Without(old(Entries()), [name])[name := Entry(old(nextId), meta)],
                             TakenOver(old(Model()), name)[old(nextId) := old(handle.View())],
                             old(nameOf)[old(nextId) := name])
    {
      TakeOver(name);
      assert handle.View() == old(handle.View());
      var id := Issue(name, handle);
      Enter(name, id, handle, meta);
    }

    method Commit(name: string, meta: Meta, now: U64) returns (id: nat, handle: Words)
      requires Usable() && (meta.tier == WaitCron ==> Interval(meta) > 0)
      modifies this, issued.Values
      ensures Linked() && Model() == Committed(old(Model()), name, meta, now)
      ensures id == old(nextId) && fresh(handle) && issued == old(issued)[id := handle]
    {
      ghost var before := Model();
      var clockMs := byName["clock"].handle.open;
      assert clockMs == ClockMs(before);
      handle := Born(meta, clockMs, now);
      id := nextId;
      Replace(name, handle, meta);
      CommittedInParts(before, name, meta, now);
    }

    method CreateEntry(req: Request, now: U64, allocates: bool) returns (r: Result<(nat, Words)>)
      requires Usable()
      modifies this, issued.Values
      ensures Linked() && Model() == RegistrySpec.Create(old(Model()), req, now, allocates).0
      ensures match r
              case Ok((id, handle)) =>
                && RegistrySpec.Create(old(Model()), req, now, allocates).1 == Ok(id)
                && fresh(handle) && issued == old(issued)[id := handle] && id !in old(issued)
              case Err(e) =>
                RegistrySpec.Create(old(Model()), req, now, allocates).1 == Err(e) && issued == old(issued)
    {
      var plan := Resolve(req);
      if plan.Err? {
        return Err(plan.error);
      }
      if !allocates {
        return Err(AllocationFailed);
      }
      PlanIff(Entries().Keys, req);
      var id, handle := Commit(req.name, plan.value, now);
      r := Ok((id, handle));
    }

    method Create(req: Request, now: U64, allocates: bool) returns (r: Result<(nat, Words)>)
      requires Valid()
      modifies this, issued.Values
      ensures Valid() && forall id | id in old(issued) :: id in issued && issued[id] == old(issued)[id]
      ensures Model() == RegistrySpec.Create(old(Model()), req, now, allocates).0
      ensures match r
              case Ok((id, handle)) =>
                && RegistrySpec.Create(old(Model()), req, now, allocates).1 == Ok(id)
                && fresh(handle) && id in issued && issued[id] == handle
              case Err(e) => RegistrySpec.Create(old(Model()), req, now, allocates).1 == Err(e)
    {
      CreateKeeps(Model(), req, now, allocates);
      hide Model, Linked, RegistrySpec.Valid, RegistrySpec.Create, Acceptable, DeadStays;
      r := CreateEntry(req, now, allocates);
      UsableAgain();
    }

    // -- evaluate_all --

    method Read(name: string, word: WatchedWord) returns (v: Option<U64>)
      requires Linked()
      ensures v == Lookup(Entries(), Model().words)(name, word)
    {
      if name in byName {
        var h := byName[name].handle;
        v := Some(if word == OpenCount then h.open else h.closed);
      } else {
        v := None;
      }
    }

    /** The barrier's conditions, checked in order up to the first that fails. */
    method ConditionsMet(conditions: seq<Condition>) returns (met: bool)
      requires Linked()
      ensures met <==> AllMet(Lookup(Entries(), Model().words), conditions)
    {
      for i := 0 to |conditions|
        invariant forall j | 0 <= j < i :: Met(Lookup(Entries(), Model().words), conditions[j])
      {
        var v := Read(conditions[i].name, conditions[i].word);
        if v.None? || v.value < conditions[i].threshold {
          assert !Met(Lookup(Entries(), Model().words), conditions[i]);
          return false;
        }
      }
      met := true;
    }

    /** What the tier's contract stamps into closed_count, if it is met. */
    method Contract(meta: Meta, open: U64, ms: U64) returns (v: Option<U64>)
      requires Linked()
      ensures forall w: Triple | w.open == open :: v == Stamp(meta, w, Lookup(Entries(), Model().words), ms)
    {
      v := None;
      if meta.tier == WaitTimer || meta.tier == WaitCron {
        if ms >= open {
          v := Some(ms);
        }
      } else if meta.tier == WaitCounter {
        if meta.watchedName.Some? && meta.watchedWord.Some? {
          var watched := Read(meta.watchedName.value, meta.watchedWord.value);
          if watched.Some? && watched.value >= open {
            v := watched;
          }
        }
      } else if meta.tier == WaitBarrier {
        if meta.conditions.Some? {
          var met := ConditionsMet(meta.conditions.value);
          if met {
            v := Some(ms);
          }
        }
      }
    }

    /** One entry's turn: reap it, leave it, or stamp and perhaps re-arm it. */
    method Visit(name: string, ms: U64, now: U64) returns (dead: bool)
      requires Linked() && name in byName && name != "clock"
      modifies byName[name].handle
      ensures Linked()
      ensures byName[name].handle.View()
              == Evaluated(byName[name].meta, old(byName[name].handle.View()),
                           Lookup(Entries(), old(Model().words)), ms, now)
      ensures dead <==> Dead(old(byName[name].handle.View()), now)
    {
      var h, meta := byName[name].handle, byName[name].meta;
      var open, closed, expiration := h.open, h.closed, h.expiration;
      if open == SENTINEL || closed == SENTINEL || expiration == SENTINEL || expiration <= now {
        h.Reap();
        return true;
      }
      dead := false;
      if Value(open, closed) > 0 {
        var v := Contract(meta, open, ms);
        if v.Some? {
          h.closed := v.value;
          if meta.tier == WaitCron && meta.intervalMs.Some? && meta.intervalMs.value > 0 {
            h.open := NextLine(ms, meta.intervalMs.value);
          }
        }
      }
    }

    /** A visit changes the words of one id and nothing else of the registry. */
    method VisitEntry(name: string, ms: U64, now: U64) returns (dead: bool)
      requires Linked() && name in byName && name != "clock" && WellFormed(Entries(), Model().words)
      modifies issued.Values
      ensures Linked() && Model() == old(Model()).(words := PassOne(old(Entries()), old(Model().words), name, ms, now))
      ensures dead <==> Dead(WordsOf(old(Entries()), old(Model().words), name), now)
    {
      ghost var before := Model().words;
      var h := byName[name].handle;
      assert issued[byName[name].id] == h && h in issued.Values;
      dead := Visit(name, ms, now);
      assert Model().words == before[byName[name].id := h.View()];
    }

    /** The first loop: visit every entry, collecting the names to remove. */
    method VisitAll(ms: U64, now: U64, order: seq<string>) returns (toRemove: seq<string>)
      requires Linked() && WellFormed(Entries(), Model().words) && Names(Entries(), order)
      modifies issued.Values
      ensures Linked()
      ensures Model() == old(Model()).(words := PassWords(old(Entries()), old(Model().words), order, ms, now))
      ensures toRemove == Removals(old(Entries()), old(Model().words), order, ms, now)
    {
      ghost var before := Model();
      toRemove := [];
      for i := 0 to |order|
        invariant Linked()
        invariant Model() == before.(words := PassWords(before.entries, before.words, order[..i], ms, now))
        invariant toRemove == Removals(before.entries, before.words, order[..i], ms, now)
      {
        var name := order[i];
        assert order[..i + 1][..i] == order[..i];
        assert name in order;
        assert Entries() == before.entries;
        if name != "clock" {
          var dead := VisitEntry(name, ms, now);
          if dead {
            toRemove := toRemove + [name];
          }
        }
      }
      assert order[..|order|] == order;
    }

    method EvaluateAll(ms: U64, now: U64, order: seq<string>)
      requires Valid() && IsOrder(Entries(), order)
      modifies this`byName, issued.Values
      ensures Valid() && Model() == RunPass(old(Model()), order, ms, now)
    {
      PassKeeps(Model(), order, ms, now);
      assert WellFormed(Entries(), Model().words) && Names(Entries(), order);
      assert nextId !in Model().words;
      hide RegistrySpec.Valid, IsOrder, PassWords, PassOne, Removals, WellFormed, DeadStays, Without;
      var toRemove := VisitAll(ms, now, order);
      RemoveAll(toRemove);
    }

    /** The second loop: entries cannot be removed while the map is being walked. */
    method RemoveAll(names: seq<string>)
      requires Linked()
      modifies this`byName
      ensures Linked() && Model() == old(Model()).(entries := Without(old(Entries()), names))
    {
      hide Linked, Without;
      ghost var before := Model();
      WithoutNone(before.entries);
      for i := 0 to |names|
        invariant Linked() && issued == old(issued)
        invariant Model() == before.(entries := Without(before.entries, names[..i]))
      {
        Forget(names[i]);
        WithoutOneMore(before.entries, names, i);
      }
      assert names[..|names|] == names;
    }

    // -- The clock, and one daemon cycle --

    method StoreClock(ms: U64)
      requires Valid()
      modifies issued.Values
      ensures Valid() && Model() == SetClock(old(Model()), ms)
    {
      ClockKeeps(Model(), ClockWords(Model()).(open := ms));
      ghost var before := Model();
      var clock := byName["clock"].handle;
      assert clock in issued.Values;
      clock.open := ms;
      assert Model().words == before.words[0 := clock.View()];
    }

    method RefreshClockExpiration(now: U64, spurious: nat)
      requires Valid()
      modifies issued.Values
      ensures Valid() && Model() == RefreshClock(old(Model()), now)
    {
      ClockKeeps(Model(), Acted(ClockWords(Model()), ActArm(now, 1_000_000_000)));
      ghost var before := Model();
      var clock := byName["clock"].handle;
      assert clock in issued.Values;
      var ok := clock.Arm(now, 1_000_000_000, spurious);
      assert Model().words == before.words[0 := clock.View()];
    }

    // -- What clients do, and any command --

    /** A client's store into one issued interlock changes its words and no others. */
    method ActOn(ghost id: nat, h: Words, act: RegistrySpec.Act, spurious: nat)
      requires Linked() && id in issued && issued[id] == h
      modifies h
      ensures Linked()
      ensures Model() == old(Model()).(words := old(Model().words)[id := Acted(old(Model().words)[id], act)])
    {
      ghost var before := Model().words;
      match act {
        case ActArm(now, ttl) => var ok := h.Arm(now, ttl, spurious);
        case ActFree => h.Free();
        case ActAttacherFree => h.AttacherFree();
        case ActOpen(n) => h.Add(OpenCount, n);
        case ActClose(n) => h.Add(ClosedCount, n);
        case ActRaise(target) => h.Raise(target, spurious);
      }
      assert Model().words == before[id := h.View()];
    }

    method Act(ghost id: nat, h: Words, act: RegistrySpec.Act, spurious: nat)
      requires Valid() && id in issued && issued[id] == h
      modifies h
      ensures Valid() && Model() == old(Model()).(words := old(Model().words)[id := Acted(old(Model().words)[id], act)])
    {
      ActKeeps(Model(), id, act);
      assert nextId !in Model().words;
      hide RegistrySpec.Valid, Acted, DeadStays;
      ActOn(id, h, act, spurious);
      UsableAgain();
    }

    /** What the daemon does of its own accord. */
    method PerformOwn(cmd: Command, spurious: nat)
      requires Valid() && (cmd.CmdPass? || cmd.CmdClock? || cmd.CmdRefresh?)
      requires cmd.CmdPass? ==> IsOrder(Entries(), cmd.order)
      modifies this`byName, issued.Values
      ensures Valid() && Model() == RegistrySpec.Perform(old(Model()), cmd)
    {
      Performs(Model(), cmd);
      hide RegistrySpec.Perform, RegistrySpec.Valid, Linked, Model, RunPass, SetClock, RefreshClock;
      if cmd.CmdPass? {
        EvaluateAll(cmd.at / NANOS_PER_MS, cmd.now, cmd.order);
      } else if cmd.CmdClock? {
        StoreClock(cmd.at / NANOS_PER_MS);
      } else {
        RefreshClockExpiration(cmd.now, spurious);
      }
    }

    /** A client's command. held: the handles clients keep. */
    method PerformAct(cmd: Command, held: map<nat, Words>, spurious: nat)
      requires Valid() && cmd.CmdAct? && held == issued
      modifies issued.Values
      ensures Valid() && Model() == RegistrySpec.Perform(old(Model()), cmd)
    {
      Performs(Model(), cmd);
      assert forall id :: id in held <==> id in Model().words;
      hide RegistrySpec.Perform, RegistrySpec.Valid, Linked, Acted;
      if cmd.id in held && cmd.id != 0 {
        assert held[cmd.id] in issued.Values;
        Act(cmd.id, held[cmd.id], cmd.act, spurious);
      }
    }

    /** Every command of the registry on values, done in memory. */
    method Perform(cmd: Command, held: map<nat, Words>, spurious: nat)
      requires Valid() && held == issued && (cmd.CmdPass? ==> IsOrder(Entries(), cmd.order))
      modifies this, issued.Values
      ensures Valid() && Model() == RegistrySpec.Perform(old(Model()), cmd)
    {
      Performs(Model(), cmd);
      hide RegistrySpec.Perform, RegistrySpec.Valid, Linked, Model, RegistrySpec.Create;
      if cmd.CmdCreate? {
        var r := Create(cmd.req, cmd.now, cmd.allocates);
      } else if cmd.CmdAct? {
        PerformAct(cmd, held, spurious);
      } else {
        PerformOwn(cmd, spurious);
      }
    }

    /**
     The memory part of a daemon cycle: the clock word, the pass, the clock's expiration. at,
     ttlAt and refreshAt are its three clock reads.
     */
    method Cycle(at: U64, ttlAt: U64, refreshAt: U64, order: seq<string>)
      requires Valid() && IsOrder(Entries(), order)
      modifies this`byName, issued.Values
      ensures Valid()
      ensures Model() == CycleOf(old(Model()), at, ttlAt, refreshAt, order)
    {
      ghost var m0 := Model();
      StoreClock(at / NANOS_PER_MS);
      ghost var m1 := Model();
      EvaluateAll(at / NANOS_PER_MS, ttlAt, order);
      ghost var m2 := Model();
      RefreshClockExpiration(refreshAt, 0);
      CycleInParts(m0, at, ttlAt, refreshAt, order, m1, m2);
    }
  }
}
