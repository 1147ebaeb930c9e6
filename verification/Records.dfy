/**
 The records of a run are complete: what `oks` and `touches` have of a thread is exactly what its calls
 returned along the run, in order and with repeats. So the theorems about them are about the calls.
 */
module Records {
  import opened Core
  import opened Protocol
  import opened OneCall
  import CronSafety
  import TouchLoop

  /** The result of WaitCron::wait that this event brings to thread t. */
  function Result(cfg: Config, s: State, e: Event, t: Tid): seq<U64> {
    if !IsOwn(t, e) || BetweenCalls(PcOf(s, t)) then []
    else
      match PcOf(Step(cfg, s, e), t)
      case OnCron(CronDone(Delivered(v, _))) => [v]
      case _ => []
  }

  function Results(cfg: Config, s: State, es: seq<Event>, t: Tid): seq<U64>
    decreases |es|
  {
    if es == [] then [] else Result(cfg, s, es[0], t) + Results(cfg, Step(cfg, s, es[0]), es[1..], t)
  }

  /** The touch this event completes for thread t. */
  function Touch(cfg: Config, s: State, e: Event, t: Tid): seq<Arm> {
    var pc := PcOf(s, t);
    if IsOwn(t, e) && pc.OnArm? && !pc.arm.ArmTime? && PcOf(Step(cfg, s, e), t) == TouchDone(true)
    then [Arm(pc.arm.start, pc.arm.ttl, s.mem.now)]
    else []
  }

  function TouchesOf(cfg: Config, s: State, es: seq<Event>, t: Tid): seq<Arm>
    decreases |es|
  {
    if es == [] then [] else Touch(cfg, s, es[0], t) + TouchesOf(cfg, Step(cfg, s, es[0]), es[1..], t)
  }

  lemma OkRecorded(cfg: Config, s: State, e: Event, t: Tid)
    ensures Step(cfg, s, e).oks == s.oks
            || exists u, v: U64 :: Step(cfg, s, e).oks == s.oks + [(u, v)]
                                   && e.Client? && e.t == u && Result(cfg, s, e, u) == [v]
    ensures Step(cfg, s, e).oks == s.oks ==> Result(cfg, s, e, t) == []
  {
    if e.Client? {
      var pc, o := PcOf(s, e.t), ClientStep(cfg, s.mem, PcOf(s, e.t), e.choice);
      FromOpen(cfg, s.mem, pc, e.choice);
      hide ClientStep;
      if Step(cfg, s, e).oks != s.oks {
        var v := o.pc.cron.outcome.value;
        assert Step(cfg, s, e).oks == s.oks + [(e.t, v)] && Result(cfg, s, e, e.t) == [v];
      }
    }
  }

  /** Only one step of a cron wait returns a value. */
  lemma FromOpen(cfg: Config, m: Mem, pc: Pc, ch: Choice)
    ensures var pc' := ClientStep(cfg, m, pc, ch).pc;
            && (!BetweenCalls(pc) && pc'.OnCron? && pc'.cron.CronDone? && pc'.cron.outcome.Delivered? ==>
                  pc.OnCron? && pc.cron.CronOpen?)
            && (pc'.TouchDone? && pc'.ok && pc.OnArm? ==> pc.arm.caller.TouchCaller?)
            && ClientStep(cfg, m, pc, ch).mem.now == m.now
  {
  }

  lemma OkAdded(cfg: Config, s: State, e: Event, t: Tid)
    ensures TouchLoop.Rounds(Step(cfg, s, e).oks, t) == TouchLoop.Rounds(s.oks, t) + Result(cfg, s, e, t)
  {
    hide Step;
    OkRecorded(cfg, s, e, t);
    if Step(cfg, s, e).oks != s.oks {
      var u, v: U64 :| Step(cfg, s, e).oks == s.oks + [(u, v)]
                       && e.Client? && e.t == u && Result(cfg, s, e, u) == [v];
      if u == t {
        TouchLoop.RoundsAppend(s.oks, t, v);
      } else {
        assert (s.oks + [(u, v)])[..|s.oks|] == s.oks;
      }
    }
  }

  lemma TouchAdded(cfg: Config, s: State, e: Event, t: Tid)
    ensures TouchLoop.Rounds(Step(cfg, s, e).touches, t) == TouchLoop.Rounds(s.touches, t) + Touch(cfg, s, e, t)
  {
    if e.Client? {
      var pc := PcOf(s, e.t);
      FromOpen(cfg, s.mem, pc, e.choice);
      hide ClientStep;
      var touches := Step(cfg, s, e).touches;
      if touches != s.touches {
        var a := touches[|s.touches|].1;
        assert touches == s.touches + [(e.t, a)];
        if e.t == t {
          TouchLoop.RoundsAppend(s.touches, t, a);
        } else {
          assert touches[..|s.touches|] == s.touches;
        }
      }
    }
  }

  lemma {:induction false} RunIsRecorded(cfg: Config, s: State, es: seq<Event>, t: Tid)
    ensures TouchLoop.Rounds(Exec(cfg, s, es).oks, t) == TouchLoop.Rounds(s.oks, t) + Results(cfg, s, es, t)
    ensures TouchLoop.Rounds(Exec(cfg, s, es).touches, t)
            == TouchLoop.Rounds(s.touches, t) + TouchesOf(cfg, s, es, t)
    decreases |es|
  {
    hide Step, TouchLoop.Rounds, Result, Touch;
    if es != [] {
      OkAdded(cfg, s, es[0], t);
      TouchAdded(cfg, s, es[0], t);
      RunIsRecorded(cfg, Step(cfg, s, es[0]), es[1..], t);
    }
  }

  /** From creation on, the records have exactly what the run brought. */
  lemma RecordsAreComplete(cfg: Config, s: State, es: seq<Event>, t: Tid)
    requires Init(cfg, s)
    ensures TouchLoop.Rounds(Exec(cfg, s, es).oks, t) == Results(cfg, s, es, t)
    ensures TouchLoop.Rounds(Exec(cfg, s, es).touches, t) == TouchesOf(cfg, s, es, t)
  {
    RunIsRecorded(cfg, s, es, t);
    hide Exec, Results, TouchesOf;
    assert TouchLoop.Rounds(s.oks, t) == [] && TouchLoop.Rounds(s.touches, t) == [];
  }

  /** A record by positions: the entries of a thread keep their order. */
  lemma {:induction false} PlacesOf<T>(log: seq<(Tid, T)>, t: Tid) returns (places: seq<nat>)
    ensures |places| == |TouchLoop.Rounds(log, t)|
    ensures forall i | 0 <= i < |places| ::
              places[i] < |log| && log[places[i]] == (t, TouchLoop.Rounds(log, t)[i])
    ensures forall i, j | 0 <= i < j < |places| :: places[i] < places[j]
  {
    if log == [] {
      places := [];
    } else {
      var last := |log| - 1;
      places := PlacesOf(log[..last], t);
      if log[last].0 == t {
        places := places + [last];
      }
    }
  }

  /**
   What one thread's calls of WaitCron::wait return along any run, read off the run itself: daemon stamps, each
   in a strictly later grid interval than the one before, and never the marker.
   */
  lemma ResultsRise(cfg: Config, s: State, es: seq<Event>, t: Tid)
    requires CronSafety.IsCron(cfg) && Init(cfg, s)
    ensures var results := Results(cfg, s, es, t);
            && (forall i | 0 <= i < |results| :: results[i] in Exec(cfg, s, es).mem.stamps && results[i] <= MAX_MS)
            && (forall i, j | 0 <= i < j < |results| ::
                  CronSafety.Cell(cfg, results[i]) < CronSafety.Cell(cfg, results[j]))
  {
    CronSafety.CronNeverRepeats(cfg, s, es);
    RecordsAreComplete(cfg, s, es, t);
    hide Exec, Results, Init, TouchLoop.Rounds, CronSafety.Cell;
    var oks := Exec(cfg, s, es).oks;
    var places := PlacesOf(oks, t);
    forall i | 0 <= i < |places|
      ensures Results(cfg, s, es, t)[i] in Exec(cfg, s, es).mem.stamps && Results(cfg, s, es, t)[i] <= MAX_MS
    {
      assert oks[places[i]].1 == Results(cfg, s, es, t)[i];
    }
    forall i, j | 0 <= i < j < |places|
      ensures CronSafety.Cell(cfg, Results(cfg, s, es, t)[i]) < CronSafety.Cell(cfg, Results(cfg, s, es, t)[j])
    {
      assert oks[places[i]].0 == oks[places[j]].0 == t;
    }
  }
}
