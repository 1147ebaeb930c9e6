/**
 What a pass stores, said of the stored words alone: which word of which entry each tier compares with
 what, and which words it leaves. The whole pass over any order is covered; an entry reads the others as they
 are at its own visit.
 */
module PassStores {
  import opened Core
  import opened Pass

  /** A word holds the marker, or the time is up. */
  predicate Ended(w: Triple, now: U64) {
    || w.open == 0xFFFF_FFFF_FFFF_FFFF || w.closed == 0xFFFF_FFFF_FFFF_FFFF
    || w.expiration == 0xFFFF_FFFF_FFFF_FFFF || w.expiration <= now
  }

  /** open_count leads closed_count by less than 2^63 on the 64-bit circle. */
  predicate Leads(w: Triple) {
    w.closed < w.open < w.closed + 0x8000_0000_0000_0000 || w.open + 0x8000_0000_0000_0000 < w.closed
  }

  lemma VerdictOf(w: Triple, now: U64)
    ensures Judge(w.open, w.closed, w.expiration, now)
            == if Ended(w, now) then Reap else if Leads(w) then Evaluate else Skip
  {
    ValuePositive(w.open, w.closed);
  }

  /** The words when entry number k has its turn, its own words then, and after the whole pass. */
  lemma TurnOf(entries: Entries, words: Words, order: seq<string>, ms: U64, now: U64, k: nat)
    returns (mid: Words, w: Triple, after: Triple)
    requires WellFormed(entries, words) && (forall n | n in order :: n in entries)
    requires forall i, j | 0 <= i < j < |order| :: order[i] != order[j]
    requires k < |order| && order[k] != "clock"
    ensures mid == PassWords(entries, words, order[..k], ms, now)
    ensures w == WordsOf(entries, words, order[k]) == WordsOf(entries, mid, order[k])
    ensures after == WordsOf(entries, PassWords(entries, words, order, ms, now), order[k])
    ensures after == Evaluated(entries[order[k]].meta, w, Lookup(entries, mid), ms, now)
  {
    assert order[k] in order;
    mid := PassWords(entries, words, order[..k], ms, now);
    w := WordsOf(entries, words, order[k]);
    after := WordsOf(entries, PassWords(entries, words, order, ms, now), order[k]);
    Unvisited(entries, words, order[..k], ms, now, order[k]);
    Visited(entries, words, order, ms, now, k);
  }

  /** What the theorems below take for granted: a map order, and the turn of an entry other than the clock. */
  ghost predicate Turn(entries: Entries, words: Words, order: seq<string>, k: nat) {
    && WellFormed(entries, words) && (forall n | n in order :: n in entries)
    && (forall i, j | 0 <= i < j < |order| :: order[i] != order[j])
    && k < |order| && order[k] in entries && order[k] != "clock"
  }

  /** What becomes of one entry's words when they are not read from elsewhere. */
  predicate Settled(meta: Meta, w: Triple, after: Triple, ms: U64, now: U64) {
    && (Ended(w, now) ==>
          after == Triple(0xFFFF_FFFF_FFFF_FFFF, 0xFFFF_FFFF_FFFF_FFFF, 0xFFFF_FFFF_FFFF_FFFF))
    && (!Ended(w, now) && (!Leads(w) || meta.tier == Interlock) ==> after == w)
    && (!Ended(w, now) && Leads(w) && meta.tier == WaitTimer ==>
          after == if ms >= w.open then Triple(w.open, ms, w.expiration) else w)
    && (!Ended(w, now) && Leads(w) && meta.tier == WaitCron && ms < w.open ==> after == w)
    && (!Ended(w, now) && Leads(w) && meta.tier == WaitCron && ms >= w.open ==>
          && after.closed == ms && after.expiration == w.expiration
          && (meta.intervalMs.Some? && 0 < meta.intervalMs.value <= 18446744073709 ==>
                after.open % meta.intervalMs.value == 0 && ms < after.open <= ms + meta.intervalMs.value))
  }

  lemma EvaluatedSettles(meta: Meta, w: Triple, read: Reader, ms: U64, now: U64)
    requires ms <= 18446744073709
    ensures Settled(meta, w, Evaluated(meta, w, read, ms, now), ms, now)
  {
    VerdictOf(w, now);
    if meta.intervalMs.Some? && 0 < meta.intervalMs.value <= 18446744073709 {
      ArmedLine(ms, meta.intervalMs.value);
    }
    hide Judge, NextLine, Ended, Leads;
  }

  /**
   An entry with a marked word or an expiration that is up gets the marker in all three words. One that
   does not lead, and any bare interlock, keeps its words. A timer or cron that leads gets the clock for
   closed_count exactly when the clock has reached open_count; a cron's open_count is then the least
   multiple of its interval above the clock.
   */
  lemma ClockStores(entries: Entries, words: Words, order: seq<string>, ms: U64, now: U64, k: nat)
    requires Turn(entries, words, order, k) && ms <= 18446744073709
    ensures Settled(entries[order[k]].meta, WordsOf(entries, words, order[k]),
                    WordsOf(entries, PassWords(entries, words, order, ms, now), order[k]), ms, now)
  {
    var mid, w, after := TurnOf(entries, words, order, ms, now, k);
    hide Settled, Evaluated, PassWords;
    EvaluatedSettles(entries[order[k]].meta, w, Lookup(entries, mid), ms, now);
  }

  /**
   A counter that is live and leads: closed_count becomes the watched word as it is at the counter's turn
   exactly when that is at least open_count. The watched word is the other entry's closed_count if the
   counter watches that, and its open_count if it watches that. Nothing else changes, and nothing at all
   when the watched entry is not there.
   */
  lemma CounterStores(entries: Entries, words: Words, order: seq<string>, ms: U64, now: U64, k: nat, watched: string)
    requires Turn(entries, words, order, k)
    requires entries[order[k]].meta.tier == WaitCounter && entries[order[k]].meta.watchedName == Some(watched)
    requires !Ended(WordsOf(entries, words, order[k]), now) && Leads(WordsOf(entries, words, order[k]))
    ensures var word := entries[order[k]].meta.watchedWord;
            var mid := PassWords(entries, words, order[..k], ms, now);
            var (w, after) := (WordsOf(entries, words, order[k]),
                               WordsOf(entries, PassWords(entries, words, order, ms, now), order[k]));
            && (watched !in entries || word == None ==> after == w)
            && (watched in entries && word == Some(ClosedCount) ==>
                  var v := mid[entries[watched].id].closed;
                  after == if v >= w.open then Triple(w.open, v, w.expiration) else w)
            && (watched in entries && word == Some(OpenCount) ==>
                  var v := mid[entries[watched].id].open;
                  after == if v >= w.open then Triple(w.open, v, w.expiration) else w)
  {
    var mid, w, after := TurnOf(entries, words, order, ms, now, k);
    VerdictOf(w, now);
    hide PassWords, Turn;
  }

  /** The condition holds of the stored words: of the open_count or the closed_count it names. */
  predicate Holds(entries: Entries, words: Words, c: Condition) {
    && c.name in entries && entries[c.name].id in words
    && (c.word == OpenCount ==> words[entries[c.name].id].open >= c.threshold)
    && (c.word == ClosedCount ==> words[entries[c.name].id].closed >= c.threshold)
  }

  /**
   A barrier that is live and leads gets the clock for closed_count if and only if each of its conditions
   names an entry that is there and whose open_count or closed_count, as the condition says, is at least the
   threshold at the barrier's turn. Nothing else changes.
   */
  lemma BarrierStores(entries: Entries, words: Words, order: seq<string>, ms: U64, now: U64, k: nat,
                      conditions: seq<Condition>)
    requires Turn(entries, words, order, k)
    requires entries[order[k]].meta.tier == WaitBarrier && entries[order[k]].meta.conditions == Some(conditions)
    requires !Ended(WordsOf(entries, words, order[k]), now) && Leads(WordsOf(entries, words, order[k]))
    ensures var mid := PassWords(entries, words, order[..k], ms, now);
            var (w, after) := (WordsOf(entries, words, order[k]),
                               WordsOf(entries, PassWords(entries, words, order, ms, now), order[k]));
            after == if forall i | 0 <= i < |conditions| :: Holds(entries, mid, conditions[i])
                     then Triple(w.open, ms, w.expiration) else w
  {
    var mid, w, after := TurnOf(entries, words, order, ms, now, k);
    VerdictOf(w, now);
    hide PassWords, Turn, WellFormed, Judge;
    forall c ensures Met(Lookup(entries, mid), c) <==> Holds(entries, mid, c) {
    }
    assert AllMet(Lookup(entries, mid), conditions)
        <==> forall i | 0 <= i < |conditions| :: Holds(entries, mid, conditions[i]);
  }

  /** An entry nobody has visited yet is read as it was before the pass; a visited one as the pass leaves it. */
  lemma ReadAt(entries: Entries, words: Words, order: seq<string>, ms: U64, now: U64, k: nat, j: nat)
    requires Turn(entries, words, order, k) && j < |order|
    ensures var mid := PassWords(entries, words, order[..k], ms, now);
            order[j] in entries
            && WordsOf(entries, mid, order[j])
               == if j < k then WordsOf(entries, PassWords(entries, words, order, ms, now), order[j])
                  else WordsOf(entries, words, order[j])
  {
    assert order[j] in order;
    if j < k {
      KeptAfter(entries, words, order, ms, now, j, k);
      KeptAfter(entries, words, order, ms, now, j, |order|);
      assert order[..|order|] == order;
    } else {
      Unvisited(entries, words, order[..k], ms, now, order[j]);
    }
  }
}
