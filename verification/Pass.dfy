/**
 One daemon pass on values: entries by name, words by id, the verdict and the contract of
 each entry, and the whole pass over the entries in some order.
 */
module Pass {
  import opened Core

  datatype WatchedWord = OpenCount | ClosedCount

  datatype Triple = Triple(open: U64, closed: U64, expiration: U64)

  const REAPED: Triple := Triple(SENTINEL, SENTINEL, SENTINEL)

  datatype Condition = Condition(name: string, word: WatchedWord, threshold: U64)

  /** The tier-specific part of a registry entry. */
  datatype Meta = Meta(
    tier: Tier,
    watchedName: Option<string>,
    watchedWord: Option<WatchedWord>,
    intervalMs: Option<U64>,
    conditions: Option<seq<Condition>>)

  datatype Entry = Entry(id: nat, meta: Meta)

  type Entries = map<string, Entry>
  type Words = map<nat, Triple>

  /** What a pass reads when it looks another entry's word up. */
  type Reader = (string, WatchedWord) -> Option<U64>

  function Select(w: Triple, word: WatchedWord): U64 {
    if word == OpenCount then w.open else w.closed
  }

  function Lookup(entries: Entries, words: Words): Reader {
    (name, word) =>
      if name in entries && entries[name].id in words then Some(Select(words[entries[name].id], word)) else None
  }

  predicate Met(read: Reader, c: Condition) {
    read(c.name, c.word).Some? && read(c.name, c.word).value >= c.threshold
  }

  predicate AllMet(read: Reader, conditions: seq<Condition>) {
    forall i | 0 <= i < |conditions| :: Met(read, conditions[i])
  }

  /** The value the pass stamps into closed_count of an open entry, if its contract is met. */
  function Stamp(meta: Meta, w: Triple, read: Reader, ms: U64): Option<U64> {
    match meta.tier
    case Interlock => None
    case WaitTimer => if ms >= w.open then Some(ms) else None
    case WaitCron => if ms >= w.open then Some(ms) else None
    case WaitCounter =>
      if meta.watchedName.None? || meta.watchedWord.None? then None
      else
        var v := read(meta.watchedName.value, meta.watchedWord.value);
        if v.Some? && v.value >= w.open then v else None
    case WaitBarrier =>
      if meta.conditions.Some? && AllMet(read, meta.conditions.value) then Some(ms) else None
  }

  /** Where the pass leaves open_count after a stamp. */
  function Rearm(meta: Meta, open: U64, ms: U64): U64 {
    if meta.tier == WaitCron && meta.intervalMs.Some? && meta.intervalMs.value > 0
    then NextLine(ms, meta.intervalMs.value)
    else open
  }

  /** One entry's words after the pass has looked at it. */
  function Evaluated(meta: Meta, w: Triple, read: Reader, ms: U64, now: U64): Triple {
    match Judge(w.open, w.closed, w.expiration, now)
    case Reap => REAPED
    case Skip => w
    case Evaluate =>
      match Stamp(meta, w, read, ms)
      case None => w
      case Some(v) => Triple(Rearm(meta, w.open, ms), v, w.expiration)
  }

  predicate Dead(w: Triple, now: U64) {
    Judge(w.open, w.closed, w.expiration, now) == Reap
  }

  // -- A pass --

  /** Every entry has words, and no two entries share them. */
  predicate WellFormed(entries: Entries, words: Words) {
    && (forall n | n in entries :: entries[n].id in words)
    && (forall n, n' | n in entries && n' in entries && n != n' :: entries[n].id != entries[n'].id)
  }

  function WordsOf(entries: Entries, words: Words, name: string): Triple
    requires name in entries && entries[name].id in words
  {
    words[entries[name].id]
  }

  function PassOne(entries: Entries, words: Words, name: string, ms: U64, now: U64): (r: Words)
    requires WellFormed(entries, words) && name in entries
    ensures r.Keys == words.Keys
  {
    if name == "clock" then words
    else
      var e := entries[name];
      words[e.id := Evaluated(e.meta, words[e.id], Lookup(entries, words), ms, now)]
  }

  /** The words after the names in `order` have been visited, in that order. */
  function PassWords(entries: Entries, words: Words, order: seq<string>, ms: U64, now: U64): (r: Words)
    requires WellFormed(entries, words) && forall n | n in order :: n in entries
    ensures r.Keys == words.Keys
  {
    if order == [] then words
    else
      var k := |order| - 1;
      assert order[k] in order;
      PassOne(entries, PassWords(entries, words, order[..k], ms, now), order[k], ms, now)
  }

  /** The names collected for removal, each judged by the words found when it is visited. */
  function Removals(entries: Entries, words: Words, order: seq<string>, ms: U64, now: U64): seq<string>
    requires WellFormed(entries, words) && forall n | n in order :: n in entries
  {
    if order == [] then []
    else
      var k := |order| - 1;
      var before := Removals(entries, words, order[..k], ms, now);
      assert order[k] in order;
      if order[k] != "clock" && Dead(WordsOf(entries, PassWords(entries, words, order[..k], ms, now), order[k]), now)
      then before + [order[k]]
      else before
  }

  function Without(entries: Entries, names: seq<string>): Entries {
    map n | n in entries && n !in names :: entries[n]
  }

  lemma WithoutNone(entries: Entries)
    ensures Without(entries, []) == entries
  {
  }

  lemma WithoutOneMore(entries: Entries, names: seq<string>, k: nat)
    requires k < |names|
    ensures Without(Without(entries, names[..k]), [names[k]]) == Without(entries, names[..k + 1])
  {
    assert names[..k + 1] == names[..k] + [names[k]];
  }

  /** A map's iteration order: each name once, in whatever order. */
  ghost predicate IsOrder(entries: Entries, order: seq<string>) {
    && (forall n :: n in order <==> n in entries)
    && (forall i, j | 0 <= i < j < |order| :: order[i] != order[j])
  }

  // -- What a visit reads and writes --

  /** Entries not yet visited keep their words. */
  lemma {:induction false} Unvisited(
    entries: Entries, words: Words, order: seq<string>, ms: U64, now: U64, name: string)
    requires WellFormed(entries, words) && (forall n | n in order :: n in entries)
    requires name in entries && name !in order
    ensures WordsOf(entries, PassWords(entries, words, order, ms, now), name) == WordsOf(entries, words, name)
  {
    if order != [] {
      var k := |order| - 1;
      assert order[k] in order;
      Unvisited(entries, words, order[..k], ms, now, name);
    }
  }

  lemma OtherKept(entries: Entries, words: Words, visited: string, ms: U64, now: U64, name: string)
    requires WellFormed(entries, words) && visited in entries && name in entries && visited != name
    ensures WordsOf(entries, PassOne(entries, words, visited, ms, now), name) == WordsOf(entries, words, name)
  {
  }

  lemma PassSnoc(entries: Entries, words: Words, order: seq<string>, ms: U64, now: U64, m: nat)
    requires WellFormed(entries, words) && (forall n | n in order :: n in entries) && m < |order|
    ensures PassWords(entries, words, order[..m + 1], ms, now)
            == PassOne(entries, PassWords(entries, words, order[..m], ms, now), order[m], ms, now)
  {
    assert order[..m + 1][..m] == order[..m];
    assert order[m] in order;
  }

  /** Visits after an entry's own leave its words alone. */
  lemma {:induction false} KeptAfter(
    entries: Entries, words: Words, order: seq<string>, ms: U64, now: U64, k: nat, m: nat)
    requires WellFormed(entries, words) && (forall n | n in order :: n in entries)
    requires k < m <= |order| && forall j | k < j < |order| :: order[j] != order[k]
    ensures WordsOf(entries, PassWords(entries, words, order[..m], ms, now), order[k])
            == WordsOf(entries, PassWords(entries, words, order[..k + 1], ms, now), order[k])
    decreases m
  {
    hide PassWords, PassOne;
    assert order[k] in order;
    if m > k + 1 {
      assert order[m - 1] in order;
      KeptAfter(entries, words, order, ms, now, k, m - 1);
      PassSnoc(entries, words, order, ms, now, m - 1);
      OtherKept(entries, PassWords(entries, words, order[..m - 1], ms, now), order[m - 1], ms, now, order[k]);
    }
  }

  /** An entry's final words are those its one visit computed from its original words. */
  lemma Visited(entries: Entries, words: Words, order: seq<string>, ms: U64, now: U64, k: nat)
    requires WellFormed(entries, words) && (forall n | n in order :: n in entries)
    requires forall i, j | 0 <= i < j < |order| :: order[i] != order[j]
    requires k < |order| && order[k] != "clock"
    ensures var e := entries[order[k]];
            WordsOf(entries, PassWords(entries, words, order, ms, now), order[k])
            == Evaluated(e.meta, words[e.id], Lookup(entries, PassWords(entries, words, order[..k], ms, now)), ms, now)
  {
    KeptAfter(entries, words, order, ms, now, k, |order|);
    assert order[..|order|] == order;
    PassSnoc(entries, words, order, ms, now, k);
    Unvisited(entries, words, order[..k], ms, now, order[k]);
  }

  /** Removal depends on an entry's original words alone. */
  lemma {:induction false} RemovedIffDead(
    entries: Entries, words: Words, order: seq<string>, ms: U64, now: U64, name: string)
    requires WellFormed(entries, words) && (forall n | n in order :: n in entries)
    requires forall i, j | 0 <= i < j < |order| :: order[i] != order[j]
    ensures name in Removals(entries, words, order, ms, now) <==>
            name in order && name != "clock" && Dead(WordsOf(entries, words, name), now)
    decreases |order|
  {
    hide PassOne, Dead, PassWords;
    if order != [] {
      var k := |order| - 1;
      RemovedIffDead(entries, words, order[..k], ms, now, name);
      assert order == order[..k] + [order[k]];
      if order[k] == name {
        Unvisited(entries, words, order[..k], ms, now, name);
      }
    }
  }
}
