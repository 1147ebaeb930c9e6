/**
 Whole runs of passes over one live entry: exactly when a cron fires, and when a barrier
 does.
 */
module PassRuns {
  import opened Core
  import opened Pass

  /** One pass: its clock, its TTL read, the expiration touch threads have left, what it can read. */
  datatype Look = Look(ms: U64, now: U64, expiration: U64, read: Reader)

  predicate Live(look: Look) {
    look.now < look.expiration < SENTINEL && look.ms <= MAX_MS
  }

  function After(meta: Meta, w: Triple, looks: seq<Look>): Triple {
    if looks == [] then w
    else
      var k := |looks| - 1;
      var look := looks[k];
      Evaluated(meta, After(meta, w, looks[..k]).(expiration := look.expiration), look.read, look.ms, look.now)
  }

  // -- Cron --

  predicate IsCron(meta: Meta) {
    meta.tier == WaitCron && meta.intervalMs.Some? && 0 < meta.intervalMs.value <= MAX_MS
  }

  function Cell(meta: Meta, ms: U64): nat
    requires IsCron(meta)
  {
    ms / meta.intervalMs.value
  }

  /** The clock of the last pass, or of creation. */
  function ClockAt(c0: U64, looks: seq<Look>): U64 {
    if looks == [] then c0 else looks[|looks| - 1].ms
  }

  /** Live passes whose clocks never fall below the one before. */
  ghost predicate Timeline(c0: U64, looks: seq<Look>) {
    && c0 <= MAX_MS
    && (forall i | 0 <= i < |looks| :: Live(looks[i]))
    && (forall i | 0 <= i < |looks| :: ClockAt(c0, looks[..i]) <= looks[i].ms)
  }

  function Created(meta: Meta, c0: U64, expiration: U64): Triple
    requires IsCron(meta)
  {
    Triple(InitialOpen(WaitCron, c0, meta.intervalMs.value), InitialClosed(WaitCron, c0), expiration)
  }

  /** The armed line is the first above the clock, and the last stamp is in the clock's interval. */
  predicate OnGrid(meta: Meta, w: Triple, ms: U64)
    requires IsCron(meta)
  {
    && w.open == (Cell(meta, ms) + 1) * meta.intervalMs.value
    && w.closed <= ms && Cell(meta, w.closed) == Cell(meta, ms)
  }

  lemma CronPass(meta: Meta, w: Triple, last: U64, look: Look)
    requires IsCron(meta) && OnGrid(meta, w, last) && last <= look.ms && Live(look)
    ensures var w' := Evaluated(meta, w.(expiration := look.expiration), look.read, look.ms, look.now);
            && OnGrid(meta, w', look.ms) && w'.closed < w'.open < TWO63
            && Value(w'.open, w'.closed) == w'.open - w'.closed
            && (Cell(meta, look.ms) > Cell(meta, last) ==> w'.closed == look.ms > w.closed)
            && (Cell(meta, look.ms) == Cell(meta, last) ==> w'.closed == w.closed)
            && Cell(meta, last) <= Cell(meta, look.ms)
  {
    var i := meta.intervalMs.value;
    ArmedLine(last, i);
    ArmedLine(look.ms, i);
    DivMonotone(last, look.ms, i);
    ReachedLine(look.ms, Cell(meta, last) + 1, i);
    ValuePositive(w.open, w.closed);
    var w' := Evaluated(meta, w.(expiration := look.expiration), look.read, look.ms, look.now);
    ValuePositive(w'.open, w'.closed);
  }

  /** How often the stamp moved. */
  function Fires(meta: Meta, w: Triple, looks: seq<Look>): nat {
    if looks == [] then 0
    else
      var k := |looks| - 1;
      Fires(meta, w, looks[..k]) + if After(meta, w, looks).closed == After(meta, w, looks[..k]).closed then 0 else 1
  }

  lemma {:induction false} CronRun(meta: Meta, c0: U64, expiration: U64, looks: seq<Look>)
    requires IsCron(meta) && Timeline(c0, looks)
    ensures OnGrid(meta, After(meta, Created(meta, c0, expiration), looks), ClockAt(c0, looks))
    ensures var w := After(meta, Created(meta, c0, expiration), looks);
            w.closed < w.open < TWO63 && Value(w.open, w.closed) == w.open - w.closed
  {
    var w0 := Created(meta, c0, expiration);
    if looks == [] {
      CronStarts(meta, c0, expiration);
    } else {
      hide OnGrid, Evaluated, Value, Created, Live, IsCron;
      var k := |looks| - 1;
      Shorter(c0, looks);
      CronRun(meta, c0, expiration, looks[..k]);
      assert ClockAt(c0, looks[..k]) <= looks[k].ms;
      CronPass(meta, After(meta, w0, looks[..k]), ClockAt(c0, looks[..k]), looks[k]);
    }
  }

  lemma CronStarts(meta: Meta, c0: U64, expiration: U64)
    requires IsCron(meta) && c0 <= MAX_MS
    ensures var w := Created(meta, c0, expiration);
            OnGrid(meta, w, c0) && w.closed < w.open < TWO63 && Value(w.open, w.closed) == w.open - w.closed
  {
    var (w, i) := (Created(meta, c0, expiration), meta.intervalMs.value);
    assert w.open == NextLine(c0, i) && w.closed == c0;
    hide NextLine, Value, Created, IsCron;
    ArmedLine(c0, i);
    ValuePositive(NextLine(c0, i), c0);
  }

  /** The line that is armed lies above the clock. */
  lemma LineIsAhead(meta: Meta, ms: U64)
    requires IsCron(meta)
    ensures (Cell(meta, ms) + 1) * meta.intervalMs.value > ms
  {
    ReachedLine(ms, Cell(meta, ms) + 1, meta.intervalMs.value);
  }

  lemma Shorter(c0: U64, looks: seq<Look>)
    requires Timeline(c0, looks) && looks != []
    ensures Timeline(c0, looks[..|looks| - 1])
  {
    var k := |looks| - 1;
    forall i | 0 <= i < k ensures ClockAt(c0, looks[..k][..i]) <= looks[..k][i].ms {
      assert looks[..k][..i] == looks[..i];
    }
  }

  /**
   Over any run of passes with a clock that does not fall, on a cron kept alive: a pass fires
   exactly when its clock has entered a later grid interval than the clock of the pass before,
   and then stamps its own clock. After every pass the armed line is the first multiple of the
   interval above the clock, and the signed value is the true difference.
   */
  lemma CronFiresExactly(meta: Meta, c0: U64, expiration: U64, looks: seq<Look>, k: nat)
    requires IsCron(meta) && Timeline(c0, looks) && k < |looks|
    ensures var before := After(meta, Created(meta, c0, expiration), looks[..k]);
            var after := After(meta, Created(meta, c0, expiration), looks[..k + 1]);
            && (after.closed != before.closed <==> Cell(meta, looks[k].ms) > Cell(meta, ClockAt(c0, looks[..k])))
            && (after.closed != before.closed ==> after.closed == looks[k].ms)
            && after.open == (Cell(meta, looks[k].ms) + 1) * meta.intervalMs.value > looks[k].ms >= after.closed
            && Value(after.open, after.closed) == after.open - after.closed > 0
  {
    var w0 := Created(meta, c0, expiration);
    Prefix(c0, looks, k);
    CronRun(meta, c0, expiration, looks[..k]);
    assert looks[..k + 1][..k] == looks[..k];
    LineIsAhead(meta, looks[k].ms);
    hide Evaluated, Value, Created, Live, IsCron, Cell;
    CronPass(meta, After(meta, w0, looks[..k]), ClockAt(c0, looks[..k]), looks[k]);
  }

  lemma Prefix(c0: U64, looks: seq<Look>, k: nat)
    requires Timeline(c0, looks) && k <= |looks|
    ensures Timeline(c0, looks[..k])
  {
    forall i | 0 <= i < k ensures ClockAt(c0, looks[..k][..i]) <= looks[..k][i].ms {
      assert looks[..k][..i] == looks[..i];
    }
  }

  /** No pass jumps over a whole grid interval. */
  ghost predicate NoSkip(meta: Meta, c0: U64, looks: seq<Look>)
    requires IsCron(meta)
  {
    forall i | 0 <= i < |looks| :: Cell(meta, looks[i].ms) - Cell(meta, ClockAt(c0, looks[..i])) <= 1
  }

  /**
   The number of fires is never above the number of grid lines the clock has crossed, and
   equals it exactly when no pass jumped over a whole interval; so in particular when no two
   neighbouring clocks are more than an interval apart.
   */
  lemma {:induction false} CronCount(meta: Meta, c0: U64, expiration: U64, looks: seq<Look>)
    requires IsCron(meta) && Timeline(c0, looks)
    ensures var lines := Cell(meta, ClockAt(c0, looks)) - Cell(meta, c0);
            var fires := Fires(meta, Created(meta, c0, expiration), looks);
            && fires <= lines
            && (fires == lines <==> NoSkip(meta, c0, looks))
            && ((forall i | 0 <= i < |looks| :: looks[i].ms - ClockAt(c0, looks[..i]) <= meta.intervalMs.value) ==>
                  fires == lines)
  {
    hide After, Evaluated, Created, OnGrid, Cell, Live;
    if looks != [] {
      var k := |looks| - 1;
      Shorter(c0, looks);
      CronCount(meta, c0, expiration, looks[..k]);
      CronFiresExactly(meta, c0, expiration, looks, k);
      assert looks[..k + 1] == looks;
      var last := ClockAt(c0, looks[..k]);
      CellsRise(meta, last, looks[k].ms);
      NoSkipLast(meta, c0, looks);
      forall i | 0 <= i < k ensures looks[..k][..i] == looks[..i] {}
    }
  }

  lemma NoSkipLast(meta: Meta, c0: U64, looks: seq<Look>)
    requires IsCron(meta) && looks != []
    ensures var k := |looks| - 1;
            NoSkip(meta, c0, looks) <==>
            NoSkip(meta, c0, looks[..k]) && Cell(meta, looks[k].ms) - Cell(meta, ClockAt(c0, looks[..k])) <= 1
  {
    hide Cell;
    var k := |looks| - 1;
    assert forall i | 0 <= i < k :: looks[..k][i] == looks[i] && looks[..k][..i] == looks[..i];
  }

  lemma CellsRise(meta: Meta, a: U64, b: U64)
    requires IsCron(meta) && a <= b
    ensures Cell(meta, a) <= Cell(meta, b)
    ensures b - a <= meta.intervalMs.value ==> Cell(meta, b) <= Cell(meta, a) + 1
  {
    var i := meta.intervalMs.value;
    DivMonotone(a, b, i);
    if b - a <= i && Cell(meta, b) > Cell(meta, a) + 1 {
      ReachedLine(b, Cell(meta, a) + 2, i);
      assert (Cell(meta, a) + 2) * i == (Cell(meta, a) + 1) * i + i;
      ReachedLine(a, Cell(meta, a) + 1, i);
    }
  }

  // -- Barrier --

  predicate IsBarrier(meta: Meta) {
    meta.tier == WaitBarrier && meta.conditions.Some?
  }

  function AllMetAt(meta: Meta, look: Look): bool
    requires IsBarrier(meta)
  {
    AllMet(look.read, meta.conditions.value)
  }

  /** Live passes at clocks of at least one. */
  ghost predicate BarrierRun(looks: seq<Look>) {
    forall i | 0 <= i < |looks| :: Live(looks[i]) && looks[i].ms >= 1
  }

  /**
   A barrier fires at the first pass that finds all its conditions met, with that pass's
   clock, and never again; until then it is untouched.
   */
  lemma {:induction false} BarrierFiresFirst(meta: Meta, expiration: U64, looks: seq<Look>)
    requires IsBarrier(meta) && BarrierRun(looks)
    ensures var w := After(meta, Triple(1, 0, expiration), looks);
            && w.open == 1
            && (w.closed == 0 <==> forall i | 0 <= i < |looks| :: !AllMetAt(meta, looks[i]))
            && (forall k | 0 <= k < |looks| && AllMetAt(meta, looks[k])
                           && (forall i | 0 <= i < k :: !AllMetAt(meta, looks[i])) ::
                  w.closed == looks[k].ms)
  {
    if looks != [] {
      var k := |looks| - 1;
      BarrierFiresFirst(meta, expiration, looks[..k]);
      var w := After(meta, Triple(1, 0, expiration), looks[..k]);
      assert forall i | 0 <= i < k :: looks[..k][i] == looks[i];
      if w.closed != 0 {
        BarrierStamped(meta, expiration, looks[..k]);
      }
      ValuePositive(1, w.closed);
    }
  }

  /** What a fired barrier holds is the clock of some pass. */
  lemma {:induction false} BarrierStamped(meta: Meta, expiration: U64, looks: seq<Look>)
    requires IsBarrier(meta) && BarrierRun(looks)
    ensures After(meta, Triple(1, 0, expiration), looks).closed <= MAX_MS
    ensures After(meta, Triple(1, 0, expiration), looks).open == 1
  {
    if looks != [] {
      BarrierStamped(meta, expiration, looks[..|looks| - 1]);
    }
  }

  /** A watched word that a pass has found is found by every later pass, and has not fallen. */
  ghost predicate LivesOn(looks: seq<Look>, name: string, word: WatchedWord) {
    forall i, j | 0 <= i <= j < |looks| && looks[i].read(name, word).Some? ::
      looks[j].read(name, word).Some? && looks[i].read(name, word).value <= looks[j].read(name, word).value
  }

  ghost predicate Accumulating(meta: Meta, looks: seq<Look>)
    requires IsBarrier(meta)
  {
    forall c | c in meta.conditions.value :: LivesOn(looks, c.name, c.word)
  }

  ghost predicate MetSometime(c: Condition, looks: seq<Look>) {
    exists i :: 0 <= i < |looks| && Met(looks[i].read, c)
  }

  lemma MetAtLast(meta: Meta, looks: seq<Look>, c: Condition)
    requires IsBarrier(meta) && Accumulating(meta, looks) && c in meta.conditions.value && MetSometime(c, looks)
    ensures Met(looks[|looks| - 1].read, c)
  {
    var i :| 0 <= i < |looks| && Met(looks[i].read, c);
    assert LivesOn(looks, c.name, c.word);
    assert looks[i].read(c.name, c.word).Some?;
  }

  /**
   Conditions met at different times accumulate: while the watched words live on and do not
   fall, the barrier has fired by the end of a run exactly when each condition was met at some
   pass of the run.
   */
  lemma BarrierAccumulates(meta: Meta, expiration: U64, looks: seq<Look>)
    requires IsBarrier(meta) && BarrierRun(looks) && Accumulating(meta, looks) && looks != []
    ensures After(meta, Triple(1, 0, expiration), looks).closed != 0 <==>
            forall i | 0 <= i < |meta.conditions.value| :: MetSometime(meta.conditions.value[i], looks)
  {
    BarrierFiresFirst(meta, expiration, looks);
    forall i | 0 <= i < |meta.conditions.value| && MetSometime(meta.conditions.value[i], looks)
      ensures Met(looks[|looks| - 1].read, meta.conditions.value[i])
    {
      MetAtLast(meta, looks, meta.conditions.value[i]);
    }
  }
}
