/**
 The daemon's connection table over one cycle: the poll array is built from the table, accepted
 connections join the table while that array is in use, and dead connections leave it by index.
 */
module ClientTable {

  /** What poll reported for one descriptor. */
  datatype Poll = Poll(hungUp: bool, readable: bool)

  /** What one accept returned. */
  datatype Accept = Accepted(fd: int, nonblocking: bool) | NoneWaiting | AcceptError

  // -- Removal by index --

  /** The entries whose index is not marked, in their order. */
  function Kept<T>(table: seq<T>, marks: set<nat>): seq<T> {
    if table == [] then []
    else
      var last := |table| - 1;
      Kept(table[..last], marks) + if last in marks then [] else [table[last]]
  }

  function Marked(n: nat, marks: set<nat>): (c: nat)
    ensures c <= n
  {
    if n == 0 then 0 else Marked(n - 1, marks) + if n - 1 in marks then 1 else 0
  }

  /** Kept read by position: each unmarked entry moves up by the marks before it, and no other is there. */
  lemma {:induction false} KeptAt<T>(table: seq<T>, marks: set<nat>, i: nat)
    requires i < |table|
    ensures |Kept(table, marks)| == |table| - Marked(|table|, marks)
    ensures i !in marks ==>
              && i - Marked(i, marks) < |Kept(table, marks)|
              && Kept(table, marks)[i - Marked(i, marks)] == table[i]
    decreases |table|
  {
    var last := |table| - 1;
    var front := table[..last];
    if last == 0 {
      assert front == [];
    } else {
      KeptAt(front, marks, if i < last then i else 0);
    }
  }

  lemma {:induction false} KeptNone<T>(table: seq<T>, marks: set<nat>)
    requires forall m <- marks :: m >= |table|
    ensures Kept(table, marks) == table
  {
    if table != [] {
      KeptNone(table[..|table| - 1], marks);
      assert table == table[..|table| - 1] + [table[|table| - 1]];
    }
  }

  lemma {:induction false} DropInFront<T>(a: seq<T>, b: seq<T>, i: nat)
    requires i < |a|
    ensures (a + b)[..i] + (a + b)[i + 1..] == a[..i] + a[i + 1..] + b
  {
    assert (a + b)[i + 1..] == a[i + 1..] + b;
  }

  /** Behind the last mark nothing moves, so removing below it removes the same entry. */
  lemma {:induction false} KeptOneMore<T>(table: seq<T>, marks: set<nat>, i: nat)
    requires i < |table| && forall m <- marks :: m > i
    ensures var kept := Kept(table, marks);
            i < |kept| && Kept(table, marks + {i}) == kept[..i] + kept[i + 1..]
    decreases |table|
  {
    var last := |table| - 1;
    var front := table[..last];
    if i == last {
      KeptNone(front, marks);
      KeptNone(front, marks + {i});
    } else {
      KeptOneMore(front, marks, i);
      DropInFront(Kept(front, marks), if last in marks then [] else [table[last]], i);
    }
  }

  // -- Sorting and deduplicating the marks --

  function Elems(s: seq<nat>): set<nat> {
    set m | m in s
  }

  /** Every entry lies below (or, unless strict, beside) all entries after it. */
  ghost predicate Ascending(s: seq<nat>, strict: bool) {
    s == [] || (Above(s[0], s[1..], strict) && Ascending(s[1..], strict))
  }

  ghost predicate Above(x: nat, s: seq<nat>, strict: bool) {
    forall m :: m in s ==> x < m || (x == m && !strict)
  }

  lemma {:induction false} AscendingAt(s: seq<nat>, j: nat)
    requires Ascending(s, true) && j < |s|
    ensures Above(s[j], s[j + 1..], true)
  {
    if j > 0 {
      AscendingAt(s[1..], j - 1);
      assert s[1..][j..] == s[j + 1..];
    }
  }

  function Insert(x: nat, s: seq<nat>): seq<nat> {
    if s == [] || x <= s[0] then [x] + s else [s[0]] + Insert(x, s[1..])
  }

  function Sort(s: seq<nat>): seq<nat> {
    if s == [] then [] else Insert(s[0], Sort(s[1..]))
  }

  /** Drops an entry equal to the one before it. */
  function Dedup(s: seq<nat>): seq<nat> {
    if |s| <= 1 then s else (if s[0] == s[1] then [] else [s[0]]) + Dedup(s[1..])
  }

  lemma {:induction false} InsertElems(x: nat, s: seq<nat>, m: nat)
    ensures m in Insert(x, s) <==> m == x || m in s
  {
    if s != [] && x > s[0] {
      InsertElems(x, s[1..], m);
      assert s == [s[0]] + s[1..];
    }
  }

  lemma {:induction false} InsertAscending(x: nat, s: seq<nat>)
    requires Ascending(s, false)
    ensures Ascending(Insert(x, s), false)
  {
    var r := Insert(x, s);
    if s == [] {
    } else if x <= s[0] {
      assert r[1..] == s && s == [s[0]] + s[1..];
    } else {
      InsertAscending(x, s[1..]);
      assert r[1..] == Insert(x, s[1..]);
      forall m | m in r[1..]
        ensures s[0] <= m
      {
        InsertElems(x, s[1..], m);
      }
    }
  }

  lemma {:induction false} Sorted(s: seq<nat>)
    ensures Ascending(Sort(s), false)
    ensures forall m :: m in Sort(s) <==> m in s
  {
    if s != [] {
      Sorted(s[1..]);
      InsertAscending(s[0], Sort(s[1..]));
      forall m
        ensures m in Sort(s) <==> m in s
      {
        InsertElems(s[0], Sort(s[1..]), m);
        assert s == [s[0]] + s[1..];
      }
    }
  }

  lemma {:induction false} Deduped(s: seq<nat>)
    requires Ascending(s, false)
    ensures Ascending(Dedup(s), true)
    ensures forall m :: m in Dedup(s) <==> m in s
  {
    if |s| > 1 {
      Deduped(s[1..]);
      var r := Dedup(s[1..]);
      assert s == [s[0]] + s[1..] && s[1..] == [s[1]] + s[2..];
      if s[0] == s[1] {
        assert [] + r == r;
      } else {
        assert s[1] in s[1..] && Above(s[1], s[2..], false) by {
          assert s[1..][1..] == s[2..];
        }
        assert ([s[0]] + r)[1..] == r;
      }
    }
  }

  // -- One cycle --

  /** The connections that outlive the cycle: not hung up, and not lost while answering a request. */
  function Survivors(clients: seq<int>, polls: seq<Poll>, dies: set<int>): seq<int>
    requires |polls| == |clients|
  {
    if clients == [] then []
    else
      var last := |clients| - 1;
      var gone := polls[last].hungUp || (polls[last].readable && clients[last] in dies);
      Survivors(clients[..last], polls[..last], dies) + if gone then [] else [clients[last]]
  }

  /** The connections asked for a request: readable and not hung up. */
  function Served(clients: seq<int>, polls: seq<Poll>): seq<int>
    requires |polls| == |clients|
  {
    if clients == [] then []
    else
      var last := |clients| - 1;
      Served(clients[..last], polls[..last])
      + if !polls[last].hungUp && polls[last].readable then [clients[last]] else []
  }

  /** The connections accepted until accept has no more or fails. */
  function Joining(accepts: seq<Accept>): seq<int> {
    if accepts == [] || !accepts[0].Accepted? then []
    else (if accepts[0].nonblocking then [accepts[0].fd] else []) + Joining(accepts[1..])
  }

  // -- The three lists by position --

  /** A connection that leaves: it hung up, or its request was read and it died over it. */
  predicate Leaves(clients: seq<int>, polls: seq<Poll>, dies: set<int>, i: nat)
    requires |polls| == |clients| && i < |clients|
  {
    polls[i].hungUp || (polls[i].readable && clients[i] in dies)
  }

  /** A connection that is asked for a request. */
  predicate Asked(polls: seq<Poll>, i: nat)
    requires i < |polls|
  {
    polls[i].readable && !polls[i].hungUp
  }

  /** The positions below n that stay. */
  function StayingBelow(clients: seq<int>, polls: seq<Poll>, dies: set<int>, n: nat): set<nat>
    requires |polls| == |clients| && n <= |clients|
  {
    set i: nat | i < n && !Leaves(clients, polls, dies, i)
  }

  function AskedBelow(polls: seq<Poll>, n: nat): set<nat>
    requires n <= |polls|
  {
    set i: nat | i < n && Asked(polls, i)
  }

  /** The lists and the positions grow together. */
  lemma SurvivorsSnoc(clients: seq<int>, polls: seq<Poll>, dies: set<int>, n: nat)
    requires |polls| == |clients| && n < |clients|
    ensures Survivors(clients[..n + 1], polls[..n + 1], dies)
            == Survivors(clients[..n], polls[..n], dies)
               + if Leaves(clients, polls, dies, n) then [] else [clients[n]]
    ensures |StayingBelow(clients, polls, dies, n + 1)|
            == |StayingBelow(clients, polls, dies, n)| + if Leaves(clients, polls, dies, n) then 0 else 1
    ensures Survivors(clients[..0], polls[..0], dies) == [] && |StayingBelow(clients, polls, dies, 0)| == 0
  {
    assert clients[..n + 1][..n] == clients[..n] && polls[..n + 1][..n] == polls[..n];
    var below := StayingBelow(clients, polls, dies, n);
    assert n !in below && StayingBelow(clients, polls, dies, 0) == {};
    assert StayingBelow(clients, polls, dies, n + 1) == below + if Leaves(clients, polls, dies, n) then {} else {n};
  }

  lemma ServedSnoc(clients: seq<int>, polls: seq<Poll>, n: nat)
    requires |polls| == |clients| && n < |clients|
    ensures Served(clients[..n + 1], polls[..n + 1])
            == Served(clients[..n], polls[..n]) + if Asked(polls, n) then [clients[n]] else []
    ensures |AskedBelow(polls, n + 1)| == |AskedBelow(polls, n)| + if Asked(polls, n) then 1 else 0
    ensures Served(clients[..0], polls[..0]) == [] && |AskedBelow(polls, 0)| == 0
  {
    assert clients[..n + 1][..n] == clients[..n] && polls[..n + 1][..n] == polls[..n];
    var below := AskedBelow(polls, n);
    assert n !in below && AskedBelow(polls, 0) == {};
    assert AskedBelow(polls, n + 1) == below + if Asked(polls, n) then {n} else {};
  }

  lemma {:induction false} SurvivorsBelow(clients: seq<int>, polls: seq<Poll>, dies: set<int>, n: nat, i: nat)
    requires |polls| == |clients| && i < n <= |clients|
    ensures |Survivors(clients[..n], polls[..n], dies)| == |StayingBelow(clients, polls, dies, n)|
    ensures !Leaves(clients, polls, dies, i) ==>
              var k := |StayingBelow(clients, polls, dies, i)|;
              var survivors := Survivors(clients[..n], polls[..n], dies);
              k < |survivors| && survivors[k] == clients[i]
    decreases n
  {
    hide Survivors, StayingBelow, Leaves;
    var last := n - 1;
    SurvivorsSnoc(clients, polls, dies, last);
    if last > 0 {
      SurvivorsBelow(clients, polls, dies, last, if i < last then i else 0);
    }
  }

  lemma {:induction false} ServedBelow(clients: seq<int>, polls: seq<Poll>, n: nat, i: nat)
    requires |polls| == |clients| && i < n <= |clients|
    ensures |Served(clients[..n], polls[..n])| == |AskedBelow(polls, n)|
    ensures Asked(polls, i) ==>
              var k := |AskedBelow(polls, i)|;
              var served := Served(clients[..n], polls[..n]);
              k < |served| && served[k] == clients[i]
    decreases n
  {
    hide Served, AskedBelow, Asked;
    var last := n - 1;
    ServedSnoc(clients, polls, last);
    if last > 0 {
      ServedBelow(clients, polls, last, if i < last then i else 0);
    }
  }

  /**
   Survivors by position: there are as many as connections that stay, and one that stays is found behind
   exactly those before it that stay.
   */
  lemma SurvivorsAt(clients: seq<int>, polls: seq<Poll>, dies: set<int>, i: nat)
    requires |polls| == |clients| && i < |clients|
    ensures |Survivors(clients, polls, dies)| == |StayingBelow(clients, polls, dies, |clients|)|
    ensures !Leaves(clients, polls, dies, i) ==>
              var k := |StayingBelow(clients, polls, dies, i)|;
              k < |Survivors(clients, polls, dies)| && Survivors(clients, polls, dies)[k] == clients[i]
  {
    hide Survivors, StayingBelow, Leaves;
    assert clients[..|clients|] == clients && polls[..|clients|] == polls;
    SurvivorsBelow(clients, polls, dies, |clients|, i);
  }

  /** The connections asked for a request, by position in the same way. */
  lemma ServedAt(clients: seq<int>, polls: seq<Poll>, i: nat)
    requires |polls| == |clients| && i < |clients|
    ensures |Served(clients, polls)| == |AskedBelow(polls, |polls|)|
    ensures Asked(polls, i) ==>
              var k := |AskedBelow(polls, i)|;
              k < |Served(clients, polls)| && Served(clients, polls)[k] == clients[i]
  {
    hide Served, AskedBelow, Asked;
    assert clients[..|clients|] == clients && polls[..|clients|] == polls;
    ServedBelow(clients, polls, |clients|, i);
  }

  /** accept was called so often with a connection to show for it: it stops at the first that has none. */
  predicate Accepts(accepts: seq<Accept>, n: nat) {
    && n <= |accepts| && (forall i | 0 <= i < n :: accepts[i].Accepted?)
    && (n < |accepts| ==> !accepts[n].Accepted?)
  }

  function NonblockingBelow(accepts: seq<Accept>, n: nat): set<nat>
    requires n <= |accepts| && forall i | 0 <= i < n :: accepts[i].Accepted?
  {
    set i: nat | i < n && accepts[i].nonblocking
  }

  lemma {:induction false} JoiningSnoc(accepts: seq<Accept>, n: nat)
    requires n < |accepts| && forall i | 0 <= i <= n :: accepts[i].Accepted?
    ensures Joining(accepts[..n + 1])
            == Joining(accepts[..n]) + if accepts[n].nonblocking then [accepts[n].fd] else []
    decreases n
  {
    if n > 0 {
      JoiningSnoc(accepts[1..], n - 1);
      assert accepts[..n + 1][1..] == accepts[1..][..n] && accepts[..n][1..] == accepts[1..][..n - 1];
    } else {
      assert accepts[..1][1..] == [];
    }
  }

  lemma {:induction false} JoiningStops(accepts: seq<Accept>, n: nat)
    requires Accepts(accepts, n)
    ensures Joining(accepts) == Joining(accepts[..n])
    decreases n
  {
    if n > 0 {
      JoiningStops(accepts[1..], n - 1);
      assert accepts[..n][1..] == accepts[1..][..n - 1];
    }
  }

  lemma NonblockingSnoc(accepts: seq<Accept>, n: nat)
    requires n < |accepts| && forall i | 0 <= i <= n :: accepts[i].Accepted?
    ensures |NonblockingBelow(accepts, 0)| == 0
    ensures |NonblockingBelow(accepts, n + 1)|
            == |NonblockingBelow(accepts, n)| + if accepts[n].nonblocking then 1 else 0
  {
    var below := NonblockingBelow(accepts, n);
    assert NonblockingBelow(accepts, 0) == {};
    assert n !in below;
    if accepts[n].nonblocking {
      assert NonblockingBelow(accepts, n + 1) == below + {n};
    } else {
      assert NonblockingBelow(accepts, n + 1) == below;
    }
  }

  lemma {:induction false} JoiningBelow(accepts: seq<Accept>, n: nat, i: nat)
    requires i < n <= |accepts| && forall j | 0 <= j < n :: accepts[j].Accepted?
    ensures |Joining(accepts[..n])| == |NonblockingBelow(accepts, n)|
    ensures accepts[i].nonblocking ==>
              var k := |NonblockingBelow(accepts, i)|;
              k < |Joining(accepts[..n])| && Joining(accepts[..n])[k] == accepts[i].fd
    decreases n
  {
    hide Joining, NonblockingBelow;
    var last := n - 1;
    JoiningSnoc(accepts, last);
    NonblockingSnoc(accepts, last);
    if last > 0 {
      JoiningBelow(accepts, last, if i < last then i else 0);
    } else {
      JoiningNone(accepts);
    }
  }

  lemma JoiningNone(accepts: seq<Accept>)
    ensures Joining(accepts[..0]) == []
  {
  }

  /** The new connections by position: those that could be made non-blocking, up to the first accept without one. */
  lemma JoiningAt(accepts: seq<Accept>, n: nat, i: nat)
    requires Accepts(accepts, n) && i < n
    ensures |Joining(accepts)| == |NonblockingBelow(accepts, n)|
    ensures accepts[i].nonblocking ==>
              var k := |NonblockingBelow(accepts, i)|;
              k < |Joining(accepts)| && Joining(accepts)[k] == accepts[i].fd
  {
    JoiningStops(accepts, n);
    JoiningBelow(accepts, n, i);
  }

  class Table {
    var clients: seq<int>

    constructor ()
      ensures clients == []
    {
      clients := [];
    }

    method AcceptAll(accepts: seq<Accept>)
      modifies this
      ensures clients == old(clients) + Joining(accepts)
    {
      ghost var before := clients;
      var i := 0;
      while i < |accepts| && accepts[i].Accepted?
        invariant 0 <= i <= |accepts|
        invariant clients + Joining(accepts[i..]) == before + Joining(accepts)
      {
        assert accepts[i..][1..] == accepts[i + 1..];
        if accepts[i].nonblocking {
          assert clients + ([accepts[i].fd] + Joining(accepts[i + 1..]))
              == clients + [accepts[i].fd] + Joining(accepts[i + 1..]);
          clients := clients + [accepts[i].fd];
        } else {
          assert [] + Joining(accepts[i + 1..]) == Joining(accepts[i + 1..]);
        }
        i := i + 1;
      }
      assert Joining(accepts[i..]) == [];
    }

    /** Polled descriptor i + 1 is still client i, although the table may have grown. */
    method HandleRequests(polled: seq<int>, polls: seq<Poll>, dies: set<int>)
      returns (served: seq<int>, marks: seq<nat>)
      requires |polls| == |polled| && polled <= clients
      ensures served == Served(polled, polls)
      ensures forall m <- marks :: m < |polled|
      ensures Kept(polled, Elems(marks)) == Survivors(polled, polls, dies)
    {
      assert Served([], []) == [] && Kept<int>([], {}) == [] == Survivors([], [], dies);
      hide Served, Survivors, Kept;
      var i := 0;
      served, marks := [], [];
      while i < |polled|
        invariant 0 <= i <= |polled|
        invariant served == Served(polled[..i], polls[..i])
        invariant forall m <- marks :: m < i
        invariant Kept(polled[..i], Elems(marks)) == Survivors(polled[..i], polls[..i], dies)
      {
        ghost var before := marks;
        assert polled[i] == clients[i];
        if polls[i].hungUp {
          marks := marks + [i];
        } else if polls[i].readable {
          served := served + [clients[i]];
          if clients[i] in dies {
            marks := marks + [i];
          }
        }
        MarkedSoFar(polled, polls, dies, before, i);
        ServedSnoc(polled, polls, i);
        i := i + 1;
      }
      assert polled[..i] == polled && polls[..i] == polls;
    }

    /** Removing from the highest index down leaves exactly the unmarked entries, in order. */
    method RemoveMarked(marks: seq<nat>)
      requires forall m <- marks :: m < |clients|
      modifies this
      ensures clients == Kept(old(clients), Elems(marks))
    {
      var order := Dedup(Sort(marks));
      Sorted(marks);
      Deduped(Sort(marks));
      ghost var before := clients;
      var j := |order|;
      KeptNone(before, {});
      assert Elems(order[j..]) == {};
      while j > 0
        invariant 0 <= j <= |order|
        invariant clients == Kept(before, Elems(order[j..]))
      {
        j := j - 1;
        var i := order[j];
        ghost var done := Elems(order[j + 1..]);
        AscendingAt(order, j);
        assert i in order;
        KeptOneMore(before, done, i);
        assert Elems(order[j..]) == done + {i};
        clients := clients[..i] + clients[i + 1..];
      }
      assert Elems(order[0..]) == Elems(marks);
    }

    /** polls[0] is the listener's; the others follow the table as it was when poll was called. */
    method Cycle(polls: seq<Poll>, accepts: seq<Accept>, dies: set<int>) returns (served: seq<int>)
      requires |polls| == |clients| + 1
      modifies this
      ensures served == Served(old(clients), polls[1..])
      ensures clients == Survivors(old(clients), polls[1..], dies) + if polls[0].readable then Joining(accepts) else []
    {
      var polled := clients;
      if polls[0].readable {
        AcceptAll(accepts);
      }
      ghost var joined := clients[|polled|..];
      assert clients == polled + joined;
      var marks: seq<nat>;
      served, marks := HandleRequests(polled, polls[1..], dies);
      RemoveMarked(marks);
      KeptBehind(polled, joined, Elems(marks));
    }
  }

  /** The marks so far, and one more for a connection that leaves. */
  lemma MarkedSoFar(clients: seq<int>, polls: seq<Poll>, dies: set<int>, marks: seq<nat>, n: nat)
    requires |polls| == |clients| && n < |clients| && forall m <- marks :: m < n
    requires Kept(clients[..n], Elems(marks)) == Survivors(clients[..n], polls[..n], dies)
    ensures var marks' := if Leaves(clients, polls, dies, n) then marks + [n] else marks;
            Kept(clients[..n + 1], Elems(marks')) == Survivors(clients[..n + 1], polls[..n + 1], dies)
  {
    hide Survivors, Kept, Leaves;
    var marks' := if Leaves(clients, polls, dies, n) then marks + [n] else marks;
    SurvivorsSnoc(clients, polls, dies, n);
    KeptIgnoresLater(clients[..n], Elems(marks), Elems(marks'));
    KeptSnoc(clients, Elems(marks'), n);
  }

  lemma KeptSnoc<T>(table: seq<T>, marks: set<nat>, n: nat)
    requires n < |table|
    ensures Kept(table[..n + 1], marks) == Kept(table[..n], marks) + if n in marks then [] else [table[n]]
  {
    assert table[..n + 1][..n] == table[..n];
  }

  lemma {:induction false} KeptIgnoresLater<T>(table: seq<T>, a: set<nat>, b: set<nat>)
    requires forall m :: m < |table| ==> (m in a <==> m in b)
    ensures Kept(table, a) == Kept(table, b)
  {
    if table != [] {
      KeptIgnoresLater(table[..|table| - 1], a, b);
    }
  }

  lemma {:induction false} KeptBehind<T>(table: seq<T>, more: seq<T>, marks: set<nat>)
    requires forall m <- marks :: m < |table|
    ensures Kept(table + more, marks) == Kept(table, marks) + more
    decreases |more|
  {
    if more == [] {
      assert table + more == table;
    } else {
      var front := more[..|more| - 1];
      KeptBehind(table, front, marks);
      assert (table + more)[..|table + more| - 1] == table + front;
      assert front + [more[|more| - 1]] == more;
    }
  }
}
