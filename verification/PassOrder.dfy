/**
 A pass walks a hash map, whose order is unspecified. What of its outcome does not depend
 on that order, and when none of it does.
 */
module PassOrder {
  import opened Core
  import opened Pass

  ghost predicate BothOrders(entries: Entries, words: Words, o1: seq<string>, o2: seq<string>) {
    WellFormed(entries, words) && IsOrder(entries, o1) && IsOrder(entries, o2)
  }

  /** The same entries leave the registry in every order: those dead before the pass. */
  lemma SameRemovals(entries: Entries, words: Words, o1: seq<string>, o2: seq<string>, ms: U64, now: U64)
    requires BothOrders(entries, words, o1, o2)
    ensures Without(entries, Removals(entries, words, o1, ms, now))
            == Without(entries, Removals(entries, words, o2, ms, now))
    ensures forall n :: n in Without(entries, Removals(entries, words, o1, ms, now)) <==>
                        n in entries && (n == "clock" || !Dead(WordsOf(entries, words, n), now))
  {
    forall n ensures n in Removals(entries, words, o1, ms, now) <==> n in Removals(entries, words, o2, ms, now)
      ensures n in Removals(entries, words, o1, ms, now) <==>
              n in entries && n != "clock" && Dead(WordsOf(entries, words, n), now)
    {
      RemovedIffDead(entries, words, o1, ms, now, n);
      RemovedIffDead(entries, words, o2, ms, now, n);
    }
  }

  /** The contract does not look at other entries. */
  predicate ReadsNothing(meta: Meta) {
    meta.tier != WaitCounter && meta.tier != WaitBarrier
  }

  /** What a visit leaves of the words that another entry's words cannot influence. */
  lemma EvaluatedAgrees(meta: Meta, w: Triple, r1: Reader, r2: Reader, ms: U64, now: U64)
    ensures var a, b := Evaluated(meta, w, r1, ms, now), Evaluated(meta, w, r2, ms, now);
            && a.expiration == b.expiration
            && (meta.tier != WaitCron ==> a.open == b.open)
            && (ReadsNothing(meta) || Dead(w, now) ==> a == b)
  {
  }

  function IndexOf(order: seq<string>, name: string): (k: nat)
    requires name in order
    ensures k < |order| && order[k] == name
  {
    if order[0] == name then 0 else 1 + IndexOf(order[1..], name)
  }

  /** One entry's outcome, by the point of the order at which it is visited. */
  lemma Outcome(entries: Entries, words: Words, order: seq<string>, ms: U64, now: U64, n: string)
    requires WellFormed(entries, words) && IsOrder(entries, order) && n in entries && n != "clock"
    ensures var k := IndexOf(order, n);
            WordsOf(entries, PassWords(entries, words, order, ms, now), n)
            == Evaluated(entries[n].meta, WordsOf(entries, words, n),
                         Lookup(entries, PassWords(entries, words, order[..k], ms, now)), ms, now)
  {
    Visited(entries, words, order, ms, now, IndexOf(order, n));
  }

  lemma {:induction false} ClockUntouched(entries: Entries, words: Words, order: seq<string>, ms: U64, now: U64)
    requires WellFormed(entries, words) && (forall n | n in order :: n in entries) && "clock" in entries
    ensures WordsOf(entries, PassWords(entries, words, order, ms, now), "clock") == WordsOf(entries, words, "clock")
  {
    if order != [] {
      var k := |order| - 1;
      assert order[k] in order;
      ClockUntouched(entries, words, order[..k], ms, now);
    }
  }

  /**
   In any two orders every entry ends with the same open_count and expiration_ns, and with
   the same closed_count too unless it is a live WaitCounter or WaitBarrier.
   */
  lemma SameButForWatchers(
    entries: Entries, words: Words, o1: seq<string>, o2: seq<string>, ms: U64, now: U64, n: string)
    requires BothOrders(entries, words, o1, o2) && n in entries
    ensures var a := WordsOf(entries, PassWords(entries, words, o1, ms, now), n);
            var b := WordsOf(entries, PassWords(entries, words, o2, ms, now), n);
            && a.open == b.open && a.expiration == b.expiration
            && (ReadsNothing(entries[n].meta) || Dead(WordsOf(entries, words, n), now) ==> a == b)
  {
    if n == "clock" {
      ClockUntouched(entries, words, o1, ms, now);
      ClockUntouched(entries, words, o2, ms, now);
    } else {
      Outcome(entries, words, o1, ms, now, n);
      Outcome(entries, words, o2, ms, now, n);
      EvaluatedAgrees(entries[n].meta, WordsOf(entries, words, n),
                      Lookup(entries, PassWords(entries, words, o1[..IndexOf(o1, n)], ms, now)),
                      Lookup(entries, PassWords(entries, words, o2[..IndexOf(o2, n)], ms, now)), ms, now);
    }
  }

  // -- Full independence --

  /** The entry's contract, if it is evaluated at all, looks at this name. */
  predicate Watches(meta: Meta, name: string) {
    || (meta.tier == WaitCounter && meta.watchedName == Some(name))
    || (meta.tier == WaitBarrier && meta.conditions.Some?
        && exists i :: 0 <= i < |meta.conditions.value| && meta.conditions.value[i].name == name)
  }

  /** A pass in order `o` leaves every watched entry's words as they were. */
  ghost predicate NoWatchedWritten(entries: Entries, words: Words, o: seq<string>, ms: U64, now: U64)
    requires WellFormed(entries, words) && IsOrder(entries, o)
  {
    forall n, w | n in entries && w in entries && Watches(entries[n].meta, w) ::
      WordsOf(entries, PassWords(entries, words, o, ms, now), w) == WordsOf(entries, words, w)
  }

  lemma SameReads(meta: Meta, w: Triple, r1: Reader, r2: Reader, ms: U64, now: U64)
    requires forall name, word | Watches(meta, name) :: r1(name, word) == r2(name, word)
    ensures Evaluated(meta, w, r1, ms, now) == Evaluated(meta, w, r2, ms, now)
  {
    if meta.tier == WaitBarrier && meta.conditions.Some? {
      forall i | 0 <= i < |meta.conditions.value|
        ensures Met(r1, meta.conditions.value[i]) == Met(r2, meta.conditions.value[i])
      {
        assert Watches(meta, meta.conditions.value[i].name);
      }
    }
  }

  /** Part-way through any order, an entry has its original words or its final ones of that order. */
  lemma MidPass(entries: Entries, words: Words, order: seq<string>, ms: U64, now: U64, k: nat, n: string)
    requires WellFormed(entries, words) && IsOrder(entries, order) && k <= |order| && n in entries
    ensures var mid := WordsOf(entries, PassWords(entries, words, order[..k], ms, now), n);
            if n in order[..k] then mid == WordsOf(entries, PassWords(entries, words, order, ms, now), n)
            else mid == WordsOf(entries, words, n)
  {
    if n !in order[..k] {
      Unvisited(entries, words, order[..k], ms, now, n);
    } else if n == "clock" {
      ClockUntouched(entries, words, order[..k], ms, now);
      ClockUntouched(entries, words, order, ms, now);
    } else {
      var i :| 0 <= i < k && order[i] == n;
      Visited(entries, words, order[..k], ms, now, i);
      Visited(entries, words, order, ms, now, i);
      assert order[..k][..i] == order[..i];
    }
  }

  /** The words an entry reads when visited in order `o`, if no watched word is ever written. */
  lemma ReadsOriginal(entries: Entries, words: Words, o: seq<string>, ms: U64, now: U64, k: nat, meta: Meta)
    requires WellFormed(entries, words) && IsOrder(entries, o) && k <= |o|
    requires forall w | w in entries && Watches(meta, w) && w in o[..k] ::
               WordsOf(entries, PassWords(entries, words, o, ms, now), w) == WordsOf(entries, words, w)
    ensures forall name, word | Watches(meta, name) ::
              Lookup(entries, PassWords(entries, words, o[..k], ms, now))(name, word)
              == Lookup(entries, words)(name, word)
  {
    forall name, word | Watches(meta, name)
      ensures Lookup(entries, PassWords(entries, words, o[..k], ms, now))(name, word)
              == Lookup(entries, words)(name, word)
    {
      if name in entries {
        MidPass(entries, words, o, ms, now, k, name);
      }
    }
  }

  lemma {:induction false} Unlisted(entries: Entries, words: Words, order: seq<string>, ms: U64, now: U64, id: nat)
    requires WellFormed(entries, words) && (forall n | n in order :: n in entries)
    requires id in words && forall n | n in entries :: entries[n].id != id
    ensures PassWords(entries, words, order, ms, now)[id] == words[id]
  {
    if order != [] {
      var k := |order| - 1;
      assert order[k] in order;
      Unlisted(entries, words, order[..k], ms, now, id);
    }
  }

  // -- Exactly when the order cannot be observed --

  /** What a visit that comes first makes of an entry: its snapshot. */
  function Snap(entries: Entries, words: Words, n: string, ms: U64, now: U64): Triple
    requires WellFormed(entries, words) && n in entries
  {
    if n == "clock" then WordsOf(entries, words, n)
    else Evaluated(entries[n].meta, WordsOf(entries, words, n), Lookup(entries, words), ms, now)
  }

  /** Reads that find the snapshots of the names in `done`, and every other entry as it was. */
  function Mixed(entries: Entries, words: Words, done: set<string>, ms: U64, now: U64): Reader
    requires WellFormed(entries, words)
  {
    (name, word) =>
      if name in entries then
        Some(Select(if name in done then Snap(entries, words, name, ms, now) else WordsOf(entries, words, name), word))
      else None
  }

  /** What a visit makes of n when exactly the names in `done` have been visited, each as if first. */
  function Seen(entries: Entries, words: Words, n: string, done: set<string>, ms: U64, now: U64): Triple
    requires WellFormed(entries, words) && n in entries
  {
    Evaluated(entries[n].meta, WordsOf(entries, words, n), Mixed(entries, words, done, ms, now), ms, now)
  }

  /** No entry can tell which of the others were visited before it. A condition on the state before the pass. */
  ghost predicate OrderBlind(entries: Entries, words: Words, ms: U64, now: U64)
    requires WellFormed(entries, words)
  {
    forall n, done | n in entries && n != "clock" && n !in done ::
      Seen(entries, words, n, done, ms, now) == Snap(entries, words, n, ms, now)
  }

  ghost predicate AllOrdersAgree(entries: Entries, words: Words, ms: U64, now: U64)
    requires WellFormed(entries, words)
  {
    forall o1, o2 | IsOrder(entries, o1) && IsOrder(entries, o2) ::
      PassWords(entries, words, o1, ms, now) == PassWords(entries, words, o2, ms, now)
  }

  function Names(order: seq<string>): set<string> {
    set n | n in order
  }

  /** The first k visits of an order left their entries at their snapshots. */
  ghost predicate Snapped(entries: Entries, words: Words, o: seq<string>, ms: U64, now: U64, k: nat)
    requires WellFormed(entries, words) && IsOrder(entries, o) && k <= |o|
  {
    forall j | 0 <= j < k ::
      o[j] in entries
      && WordsOf(entries, PassWords(entries, words, o, ms, now), o[j]) == Snap(entries, words, o[j], ms, now)
  }

  lemma ReadsMixed(entries: Entries, words: Words, o: seq<string>, ms: U64, now: U64, k: nat)
    requires WellFormed(entries, words) && IsOrder(entries, o) && k <= |o| && Snapped(entries, words, o, ms, now, k)
    ensures forall name, word ::
              Lookup(entries, PassWords(entries, words, o[..k], ms, now))(name, word)
              == Mixed(entries, words, Names(o[..k]), ms, now)(name, word)
  {
    hide Snap, PassWords;
    forall name, word
      ensures Lookup(entries, PassWords(entries, words, o[..k], ms, now))(name, word)
              == Mixed(entries, words, Names(o[..k]), ms, now)(name, word)
    {
      if name in entries {
        MidPass(entries, words, o, ms, now, k, name);
      }
    }
  }

  /** So the next visit sees the mixture. */
  lemma VisitSees(entries: Entries, words: Words, o: seq<string>, ms: U64, now: U64, k: nat)
    requires WellFormed(entries, words) && IsOrder(entries, o) && k < |o| && o[k] in entries && o[k] != "clock"
    requires Snapped(entries, words, o, ms, now, k)
    ensures WordsOf(entries, PassWords(entries, words, o, ms, now), o[k])
            == Seen(entries, words, o[k], Names(o[..k]), ms, now)
  {
    hide Snap, PassWords, Mixed, Evaluated;
    Visited(entries, words, o, ms, now, k);
    ReadsMixed(entries, words, o, ms, now, k);
    SameReads(entries[o[k]].meta, WordsOf(entries, words, o[k]),
              Lookup(entries, PassWords(entries, words, o[..k], ms, now)),
              Mixed(entries, words, Names(o[..k]), ms, now), ms, now);
  }

  /** If nobody can tell the order, every order ends in the snapshots. */
  lemma {:induction false} BlindSnaps(entries: Entries, words: Words, o: seq<string>, ms: U64, now: U64, k: nat)
    requires WellFormed(entries, words) && OrderBlind(entries, words, ms, now) && IsOrder(entries, o) && k <= |o|
    ensures Snapped(entries, words, o, ms, now, k)
  {
    hide Snap, PassWords, Seen;
    if k > 0 {
      BlindSnaps(entries, words, o, ms, now, k - 1);
      var n := o[k - 1];
      assert n in o;
      if n == "clock" {
        ClockUntouched(entries, words, o, ms, now);
        ClockSnap(entries, words, ms, now);
      } else {
        VisitSees(entries, words, o, ms, now, k - 1);
        assert n !in Names(o[..k - 1]);
      }
    }
  }

  lemma ClockSnap(entries: Entries, words: Words, ms: U64, now: U64)
    requires WellFormed(entries, words) && "clock" in entries
    ensures Snap(entries, words, "clock", ms, now) == WordsOf(entries, words, "clock")
  {
  }

  /** Two orders that end in the snapshots end in the same words. */
  lemma SnappedAgree(entries: Entries, words: Words, o1: seq<string>, o2: seq<string>, ms: U64, now: U64)
    requires BothOrders(entries, words, o1, o2)
    requires Snapped(entries, words, o1, ms, now, |o1|) && Snapped(entries, words, o2, ms, now, |o2|)
    ensures PassWords(entries, words, o1, ms, now) == PassWords(entries, words, o2, ms, now)
  {
    hide Snap;
    var f1, f2 := PassWords(entries, words, o1, ms, now), PassWords(entries, words, o2, ms, now);
    forall n | n in entries ensures WordsOf(entries, f1, n) == WordsOf(entries, f2, n) {
      assert n in o1 && n in o2;
    }
    forall id | id in words ensures f1[id] == f2[id] {
      if n :| n in entries && entries[n].id == id {
        assert f1[id] == WordsOf(entries, f1, n) && f2[id] == WordsOf(entries, f2, n);
      } else {
        Unlisted(entries, words, o1, ms, now, id);
        Unlisted(entries, words, o2, ms, now, id);
      }
    }
  }

  // -- The other direction: orders that put any given names first --

  lemma {:induction false} Listed(names: set<string>) returns (o: seq<string>)
    ensures |o| == |names| && forall n :: n in o <==> n in names
    ensures forall i, j | 0 <= i < j < |o| :: o[i] != o[j]
    decreases |names|
  {
    if names == {} {
      o := [];
    } else {
      var n :| n in names;
      var rest := Listed(names - {n});
      o := [n] + rest;
    }
  }

  /** An order that visits the names in `done`, then n, then the others. */
  lemma OrderThrough(entries: Entries, done: set<string>, n: string) returns (o: seq<string>, k: nat)
    requires n in entries && n !in done && done <= entries.Keys
    ensures IsOrder(entries, o) && k < |o| && o[k] == n && Names(o[..k]) == done
    ensures k == |done|
  {
    var first := Listed(done);
    var rest := Listed(entries.Keys - done - {n});
    o, k := first + [n] + rest, |first|;
    assert o[..k] == first;
    GluedDistinct(first, n, rest);
  }

  lemma GluedDistinct(first: seq<string>, n: string, rest: seq<string>)
    requires forall i, j | 0 <= i < j < |first| :: first[i] != first[j]
    requires forall i, j | 0 <= i < j < |rest| :: rest[i] != rest[j]
    requires n !in first && n !in rest && forall m | m in first :: m !in rest
    ensures var o := first + [n] + rest;
            && (forall i, j | 0 <= i < j < |o| :: o[i] != o[j])
            && (forall m :: m in o <==> m in first || m == n || m in rest)
  {
    var o, k := first + [n] + rest, |first|;
    forall i, j | 0 <= i < j < |o| ensures o[i] != o[j] {
      assert i < k ==> o[i] in first;
      assert j > k ==> o[j] in rest;
    }
  }

  lemma FirstVisitSnaps(entries: Entries, words: Words, o: seq<string>, ms: U64, now: U64, n: string)
    requires WellFormed(entries, words) && AllOrdersAgree(entries, words, ms, now)
    requires IsOrder(entries, o) && n in entries
    ensures WordsOf(entries, PassWords(entries, words, o, ms, now), n) == Snap(entries, words, n, ms, now)
  {
    if n == "clock" {
      ClockUntouched(entries, words, o, ms, now);
    } else {
      hide PassWords, Snap;
      var early, k := OrderThrough(entries, {}, n);
      FirstSees(entries, words, early, ms, now);
      assert PassWords(entries, words, o, ms, now) == PassWords(entries, words, early, ms, now);
    }
  }

  lemma FirstSees(entries: Entries, words: Words, o: seq<string>, ms: U64, now: U64)
    requires WellFormed(entries, words) && IsOrder(entries, o) && o != [] && o[0] in entries && o[0] != "clock"
    ensures WordsOf(entries, PassWords(entries, words, o, ms, now), o[0]) == Snap(entries, words, o[0], ms, now)
  {
    Visited(entries, words, o, ms, now, 0);
    assert o[..0] == [];
  }

  lemma AgreeIsBlind(entries: Entries, words: Words, ms: U64, now: U64, n: string, done: set<string>)
    requires WellFormed(entries, words) && AllOrdersAgree(entries, words, ms, now)
    requires n in entries && n != "clock" && n !in done
    ensures Seen(entries, words, n, done, ms, now) == Snap(entries, words, n, ms, now)
  {
    hide PassWords, Snap, Evaluated;
    var here := done * entries.Keys;
    var o, k := OrderThrough(entries, here, n);
    forall j | 0 <= j < k
      ensures o[j] in entries
      ensures WordsOf(entries, PassWords(entries, words, o, ms, now), o[j]) == Snap(entries, words, o[j], ms, now)
    {
      assert o[j] in o;
      FirstVisitSnaps(entries, words, o, ms, now, o[j]);
    }
    VisitSees(entries, words, o, ms, now, k);
    FirstVisitSnaps(entries, words, o, ms, now, n);
    SameReads(entries[n].meta, WordsOf(entries, words, n), Mixed(entries, words, done, ms, now),
              Mixed(entries, words, here, ms, now), ms, now);
  }

  /**
   Every order of the hash map ends in the same words if and only if, in the state before the
   pass, no entry's visit depends on which of the others are read after their own visit instead
   of before it.
   */
  lemma OrderIndependentIff(entries: Entries, words: Words, ms: U64, now: U64)
    requires WellFormed(entries, words)
    ensures AllOrdersAgree(entries, words, ms, now) <==> OrderBlind(entries, words, ms, now)
  {
    hide PassWords, Seen, Snap;
    if AllOrdersAgree(entries, words, ms, now) {
      forall n, done | n in entries && n != "clock" && n !in done
        ensures Seen(entries, words, n, done, ms, now) == Snap(entries, words, n, ms, now)
      {
        AgreeIsBlind(entries, words, ms, now, n, done);
      }
    }
    if OrderBlind(entries, words, ms, now) {
      forall o1, o2 | IsOrder(entries, o1) && IsOrder(entries, o2)
        ensures PassWords(entries, words, o1, ms, now) == PassWords(entries, words, o2, ms, now)
      {
        BlindSnaps(entries, words, o1, ms, now, |o1|);
        BlindSnaps(entries, words, o2, ms, now, |o2|);
        SnappedAgree(entries, words, o1, o2, ms, now);
      }
    }
  }

  // -- A case that is easy to see: no watched entry is written --

  lemma UnwrittenSnap(entries: Entries, words: Words, o: seq<string>, ms: U64, now: U64, n: string, w: string)
    requires WellFormed(entries, words) && IsOrder(entries, o) && NoWatchedWritten(entries, words, o, ms, now)
    requires n in entries && w in entries && Watches(entries[n].meta, w)
    ensures Snap(entries, words, w, ms, now) == WordsOf(entries, words, w)
  {
    if w != "clock" {
      var meta, i := entries[w].meta, IndexOf(o, w);
      Outcome(entries, words, o, ms, now, w);
      ReadsOriginal(entries, words, o, ms, now, i, meta);
      SameReads(meta, WordsOf(entries, words, w), Lookup(entries, words),
                Lookup(entries, PassWords(entries, words, o[..i], ms, now)), ms, now);
    }
  }

  /**
   If some order of the pass writes no watched entry, every order ends in exactly the same
   words.
   */
  lemma OrderIndependent(entries: Entries, words: Words, o1: seq<string>, o2: seq<string>, ms: U64, now: U64)
    requires BothOrders(entries, words, o1, o2) && NoWatchedWritten(entries, words, o1, ms, now)
    ensures PassWords(entries, words, o1, ms, now) == PassWords(entries, words, o2, ms, now)
  {
    hide PassWords, Snap, Evaluated;
    forall n, done | n in entries && n != "clock" && n !in done
      ensures Seen(entries, words, n, done, ms, now) == Snap(entries, words, n, ms, now)
    {
      UnwrittenBlind(entries, words, o1, ms, now, n, done);
    }
    OrderIndependentIff(entries, words, ms, now);
  }

  lemma UnwrittenBlind(entries: Entries, words: Words, o: seq<string>, ms: U64, now: U64, n: string, done: set<string>)
    requires WellFormed(entries, words) && IsOrder(entries, o) && NoWatchedWritten(entries, words, o, ms, now)
    requires n in entries && n != "clock"
    ensures Seen(entries, words, n, done, ms, now) == Snap(entries, words, n, ms, now)
  {
    hide PassWords, Evaluated;
    var meta := entries[n].meta;
    forall name, word | Watches(meta, name)
      ensures Mixed(entries, words, done, ms, now)(name, word) == Lookup(entries, words)(name, word)
    {
      if name in entries {
        UnwrittenSnap(entries, words, o, ms, now, n, name);
      }
    }
    SameReads(meta, WordsOf(entries, words, n), Mixed(entries, words, done, ms, now), Lookup(entries, words), ms, now);
  }

  // -- The hypothesis is needed --

  const COUNTER: Meta := Meta(WaitCounter, Some("b"), Some(ClosedCount), None, None)
  const BARE: Meta := Meta(Interlock, None, None, None, None)

  /**
   A WaitCounter "a" asks for 5 of "b", whose closed_count is 0 and whose time is up. Visited
   before "b" it is left alone; visited after, it reads the reap marker, which reaches any
   target, and is stamped with it.
   */
  lemma OrderCanBeObserved()
    ensures var entries := map["a" := Entry(1, COUNTER), "b" := Entry(2, BARE)];
            var words := map[1 := Triple(5, 0, 100), 2 := Triple(0, 0, 10)];
            && BothOrders(entries, words, ["a", "b"], ["b", "a"])
            && PassWords(entries, words, ["a", "b"], 1, 50)[1] == Triple(5, 0, 100)
            && PassWords(entries, words, ["b", "a"], 1, 50)[1] == Triple(5, SENTINEL, 100)
  {
    hide PassWords, PassOne;
    var entries := map["a" := Entry(1, COUNTER), "b" := Entry(2, BARE)];
    var words := map[1 := Triple(5, 0, 100), 2 := Triple(0, 0, 10)];
    assert "a" != "b" by {
      assert "a"[0] != "b"[0];
    }
    CounterFirst();
    CounterLast();
  }

  /** A pass over two names, one after the other. */
  lemma PassOfTwo(entries: Entries, words: Words, a: string, b: string, ms: U64, now: U64)
    requires WellFormed(entries, words) && a in entries && b in entries
    ensures PassWords(entries, words, [a, b], ms, now)
            == PassOne(entries, PassOne(entries, words, a, ms, now), b, ms, now)
  {
    hide PassOne;
    assert [a, b][..1] == [a] && [a][..0] == [];
    assert PassWords(entries, words, [a], ms, now) == PassOne(entries, words, a, ms, now);
  }

  lemma CounterFirst()
    ensures var entries := map["a" := Entry(1, COUNTER), "b" := Entry(2, BARE)];
            var words := map[1 := Triple(5, 0, 100), 2 := Triple(0, 0, 10)];
            WellFormed(entries, words) && PassWords(entries, words, ["a", "b"], 1, 50)[1] == Triple(5, 0, 100)
  {
    hide PassWords;
    var entries := map["a" := Entry(1, COUNTER), "b" := Entry(2, BARE)];
    var words := map[1 := Triple(5, 0, 100), 2 := Triple(0, 0, 10)];
    ValuePositive(5, 0);
    PassOfTwo(entries, words, "a", "b", 1, 50);
    assert PassOne(entries, words, "a", 1, 50)[1] == Triple(5, 0, 100);
  }

  lemma CounterLast()
    ensures var entries := map["a" := Entry(1, COUNTER), "b" := Entry(2, BARE)];
            var words := map[1 := Triple(5, 0, 100), 2 := Triple(0, 0, 10)];
            WellFormed(entries, words) && PassWords(entries, words, ["b", "a"], 1, 50)[1] == Triple(5, SENTINEL, 100)
  {
    hide PassWords;
    var entries := map["a" := Entry(1, COUNTER), "b" := Entry(2, BARE)];
    var words := map[1 := Triple(5, 0, 100), 2 := Triple(0, 0, 10)];
    ValuePositive(5, 0);
    PassOfTwo(entries, words, "b", "a", 1, 50);
    assert "b" != "clock" && "a" != "clock" && |"clock"| == 5;
    assert PassOne(entries, words, "b", 1, 50) == words[2 := REAPED];
  }
}
