/**
 The event pool of `conev.c`, in its poll(2) form.
 */
module Conev {
  import opened Common
  import EventLog
  import opened TimerList
  import opened SlotTable

  // ---- Pairs --------------------------------------------------------------------

  // The entries that closing `v` closes: `v`, its pair, that one's pair, and so on
  // until there is no pair or it is closed already.
  ghost function Chain(items: seq<Eval>, live: set<int>, v: int): seq<int>
    decreases live
  {
    if v !in live || !(0 <= v < |items|) then [] else [v] + Chain(items, live - {v}, items[v].pair)
  }

  // A change of pair pointers that leaves the way through the live entries as it is.
  ghost predicate SameWay(items: seq<Eval>, items': seq<Eval>, live: set<int>) {
    && |items'| == |items|
    && forall x :: x in live && 0 <= x < |items| ==>
        items'[x].pair == items[x].pair || (items'[x].pair !in live && items[x].pair !in live)
  }

  lemma {:induction false} ChainSame(items: seq<Eval>, items': seq<Eval>, live: set<int>, v: int)
    requires SameWay(items, items', live)
    ensures Chain(items', live, v) == Chain(items, live, v)
    decreases live
  {
    if v in live && 0 <= v < |items| {
      var rest := live - {v};
      ChainSame(items, items', rest, items[v].pair);
      if items'[v].pair != items[v].pair {
        assert Chain(items', rest, items'[v].pair) == [] == Chain(items, rest, items[v].pair);
      }
    }
  }

  // A set that contains the pair of each of its members, if that is live.
  ghost predicate Closed(items: seq<Eval>, live: set<int>, s: set<int>) {
    forall x :: x in s && 0 <= x < |items| && items[x].pair in live ==> items[x].pair in s
  }

  // The chain is the least closed set that holds `v`, and visits each member once.
  lemma {:induction false} ChainLeast(items: seq<Eval>, live: set<int>, v: int, s: set<int>)
    requires v in live && (forall x :: x in live ==> 0 <= x < |items|)
    ensures v in Chain(items, live, v) && Elems(Chain(items, live, v)) <= live
    ensures Closed(items, live, Elems(Chain(items, live, v)))
    ensures v in s && Closed(items, live, s) ==> Elems(Chain(items, live, v)) <= s
    ensures |Chain(items, live, v)| == |Elems(Chain(items, live, v))|
    decreases live
  {
    var rest, p := live - {v}, items[v].pair;
    var tail := Chain(items, rest, p);
    assert Chain(items, live, v) == [v] + tail;
    assert Elems([v] + tail) == {v} + Elems(tail);
    if p in rest {
      ChainLeast(items, rest, p, s);
    } else {
      assert tail == [] && Elems(tail) == {};
    }
  }

  // Two entries that are each other's pair, and three in a ring.
  lemma ChainOfTwo(items: seq<Eval>, live: set<int>, a: int, b: int)
    requires 0 <= a < |items| && 0 <= b < |items| && a in live && b in live && a != b
    requires items[a].pair == b && items[b].pair == a
    ensures Chain(items, live, a) == [a, b]
  {
    assert Chain(items, live - {a} - {b}, a) == [];
    assert Chain(items, live - {a}, b) == [b];
  }

  lemma ChainOfThree(items: seq<Eval>, live: set<int>, a: int, b: int, c: int)
    requires 0 <= a < |items| && 0 <= b < |items| && 0 <= c < |items|
    requires a in live && b in live && c in live && a != b && b != c && a != c
    requires items[a].pair == b && items[b].pair == c && items[c].pair == a
    ensures Chain(items, live, a) == [a, b, c]
  {
    assert Chain(items, live - {a} - {b} - {c}, a) == [];
    assert Chain(items, live - {a} - {b}, c) == [c];
    assert Chain(items, live - {a}, b) == [b, c];
  }

  // ---- Rings of pairs -----------------------------------------------------------

  // The pair of a live entry is live and has a pair too.
  ghost predicate InRing(items: seq<Eval>, live: set<int>, x: int) {
    x in live ==>
      && 0 <= x < |items|
      && (items[x].pair != NULL ==>
            items[x].pair in live && 0 <= items[x].pair < |items| && items[items[x].pair].pair != NULL)
  }

  // Every pair pointer leads to a live entry that has one too, and no two lead to the same.
  ghost predicate Rings(items: seq<Eval>, live: set<int>) {
    && (forall x {:trigger InRing(items, live, x)} :: InRing(items, live, x))
    && (forall x, y {:trigger InRing(items, live, x), InRing(items, live, y)} ::
          x in live && y in live && x != y && 0 <= x < |items| && 0 <= y < |items| && items[x].pair != NULL ==>
            items[x].pair != items[y].pair)
  }

  ghost predicate Within(items: seq<Eval>, s: set<int>) {
    forall x :: x in s ==> 0 <= x < |items|
  }

  lemma RingsWithin(items: seq<Eval>, live: set<int>)
    requires Rings(items, live)
    ensures Within(items, live)
  {
    forall x | x in live
      ensures 0 <= x < |items|
    {
      assert InRing(items, live, x);
    }
  }

  ghost function PairsOf(items: seq<Eval>, s: set<int>): set<int>
    requires Within(items, s)
  {
    set x | x in s :: items[x].pair
  }

  lemma SomeOf(s: set<int>) returns (x: int)
    requires s != {}
    ensures x in s
  {
    assert (forall y :: y !in s) ==> s == {};
    x :| x in s;
  }

  lemma {:induction false} PairsCount(items: seq<Eval>, live: set<int>, s: set<int>)
    requires Rings(items, live) && s <= live && Within(items, s) && forall x :: x in s ==> items[x].pair != NULL
    ensures |PairsOf(items, s)| == |s|
  {
    if s != {} {
      var x := SomeOf(s);
      var rest, p := s - {x}, items[x].pair;
      PairsCount(items, live, rest);
      forall y | y in rest
        ensures items[y].pair != p
      {
        assert InRing(items, live, x) && InRing(items, live, y);
      }
      assert p !in PairsOf(items, rest);
      assert PairsOf(items, s) == PairsOf(items, rest) + {p};
    }
  }

  lemma AllOf(a: set<int>, b: set<int>)
    requires a <= b && |a| == |b|
    ensures a == b
  {
    if b - a != {} {
      var x := SomeOf(b - a);
      SmallerSet(a, b - {x});
    }
    assert b == a + (b - a);
  }

  lemma {:induction false} SmallerSet(a: set<int>, b: set<int>)
    requires a <= b
    ensures |a| <= |b|
  {
    if a != {} {
      var x := SomeOf(a);
      SmallerSet(a - {x}, b - {x});
    }
  }

  lemma RingWhole(items: seq<Eval>, live: set<int>, v: int, ring: set<int>)
    requires Rings(items, live) && v in live && Within(items, live) && items[v].pair != NULL
    requires ring == Elems(Chain(items, live, v))
    ensures ring <= live && PairsOf(items, ring) == ring
  {
    var paired := set x | x in live && items[x].pair != NULL;
    forall x | x in paired && items[x].pair in live
      ensures items[x].pair in paired
    {
      assert InRing(items, live, x);
    }
    ChainLeast(items, live, v, paired);
    PairsCount(items, live, ring);
    forall x | x in ring
      ensures items[x].pair in ring
    {
      assert InRing(items, live, x);
    }
    AllOf(PairsOf(items, ring), ring);
  }

  // Nothing outside a ring leads into it.
  // An entry without a pair is closed alone.
  lemma ChainAlone(items: seq<Eval>, live: set<int>, v: int)
    requires v in live && 0 <= v < |items| && items[v].pair == NULL
    ensures Chain(items, live, v) == [v]
  {
    assert Chain(items, live - {v}, NULL) == [];
  }

  lemma PairedApart(items: seq<Eval>, live: set<int>, v: int, y: int)
    requires Rings(items, live) && Within(items, live) && v in live && y in live && items[v].pair != NULL
    requires y !in Chain(items, live, v)
    ensures items[y].pair !in Chain(items, live, v)
  {
    hide Chain;
    var ring := Elems(Chain(items, live, v));
    RingWhole(items, live, v, ring);
    assert InRing(items, live, y);
    forall x | x in ring
      ensures items[x].pair != items[y].pair
    {
      assert x in PairsOf(items, ring);
      var z :| z in ring && items[z].pair == x;
      assert InRing(items, live, z) && InRing(items, live, x);
    }
    assert items[y].pair !in PairsOf(items, ring);
  }

  lemma RingApart(items: seq<Eval>, live: set<int>, v: int, y: int)
    requires Rings(items, live) && v in live && y in live && y !in Chain(items, live, v)
    ensures 0 <= y < |items| && items[y].pair !in Chain(items, live, v)
  {
    hide Chain;
    RingsWithin(items, live);
    assert InRing(items, live, y) && InRing(items, live, v);
    if items[v].pair != NULL {
      PairedApart(items, live, v, y);
    } else {
      ChainAlone(items, live, v);
    }
  }

  // ---- The pool -----------------------------------------------------------------

  // The timers: the list holds exactly the live entries whose `tvMs` is set.
  ghost predicate Timed(items: seq<Eval>, live: set<int>, start: int, end: int, ts: seq<int>) {
    && TimersOk(items, start, end, ts)
    && (forall x :: x in ts ==> x in live)
    && (forall x :: x in live && 0 <= x < |items| && x !in ts ==> Idle(items[x]))
  }

  // The fields of an entry that timers do not touch.
  ghost predicate SameBut(items: seq<Eval>, items': seq<Eval>) {
    SameSlots(items, items') && forall x :: 0 <= x < |items| ==> items'[x].pair == items[x].pair
  }

  // Only the deadline of `v` may differ.
  ghost predicate SameDeadlines(items: seq<Eval>, items': seq<Eval>, v: int) {
    |items'| == |items| && forall x :: 0 <= x < |items| && x != v ==> items'[x].tvMs == items[x].tvMs
  }

  // What closing `v` leaves of the entries.
  ghost predicate ClosedOne(items: seq<Eval>, items': seq<Eval>, v: int) {
    && SameDeadlines(items, items', v)
    && (forall x :: 0 <= x < |items| ==> items'[x].pair == items[x].pair)
    && (forall x :: 0 <= x < |items| ==> items'[x].fd == if x == v then -1 else items[x].fd)
  }

  lemma UnlinkedElse(items: seq<Eval>, v: int)
    requires 0 <= v < |items| && -1 <= items[v].tvPrev < |items| && -1 <= items[v].tvNext < |items|
    ensures SameBut(items, Unlinked(items, v)) && Idle(Unlinked(items, v)[v])
    ensures SameDeadlines(items, Unlinked(items, v), v)
    ensures forall x :: 0 <= x < |items| && x != v && x != items[v].tvPrev && x != items[v].tvNext ==>
      Unlinked(items, v)[x] == items[x]
  {
  }

  lemma TimedUnlink(items: seq<Eval>, live: set<int>, start: int, end: int, ts: seq<int>, p: int)
    requires Timed(items, live, start, end, ts) && 0 <= p < |ts|
    ensures var v := ts[p];
      && 0 <= v < |items| && -1 <= items[v].tvPrev < |items| && -1 <= items[v].tvNext < |items|
      && Timed(Unlinked(items, v), live, if start == v then items[v].tvNext else start,
               if end == v then items[v].tvPrev else end, Without(ts, p))
  {
    var v := ts[p];
    UnlinkTimers(items, start, end, ts, p);
    WithoutRefs(items, ts, p);
    UnlinkedElse(items, v);
    assert Threaded(items, ts, p);
    assert items[v].tvPrev != NULL ==> items[v].tvPrev in ts;
    assert items[v].tvNext != NULL ==> items[v].tvNext in ts;
  }

  lemma LinkedElse(items: seq<Eval>, v: int, deadline: int, prev: int, next: int)
    requires 0 <= v < |items| && -1 <= prev < |items| && -1 <= next < |items|
    ensures SameBut(items, Linked(items, v, deadline, prev, next))
    ensures SameDeadlines(items, Linked(items, v, deadline, prev, next), v)
    ensures forall x :: 0 <= x < |items| && x != v && x != prev && x != next ==>
      Linked(items, v, deadline, prev, next)[x] == items[x]
  {
  }

  lemma TimedLink(items: seq<Eval>, live: set<int>, start: int, end: int, ts: seq<int>, p: int, v: int, deadline: int)
    requires Timed(items, live, start, end, ts) && Slot(items, ts, p, deadline) && deadline != 0
    requires v in live && 0 <= v < |items| && v !in ts
    ensures var prev, next := At(ts, p - 1), At(ts, p);
      && -1 <= prev < |items| && -1 <= next < |items|
      && Timed(Linked(items, v, deadline, prev, next), live, if start == NULL || next == start then v else start,
               if end == NULL || prev == end then v else end, With(ts, p, v))
  {
    var prev, next := At(ts, p - 1), At(ts, p);
    LinkTimers(items, start, end, ts, p, v, deadline);
    WithRefs(items, ts, p, v);
    LinkedElse(items, v, deadline, prev, next);
    assert prev != NULL ==> prev in ts;
    assert next != NULL ==> next in ts;
  }

  // A pair pointer of a live entry leads to a live entry or to a closed one.
  ghost predicate Paired(items: seq<Eval>, live: set<int>) {
    forall x :: x in live && 0 <= x < |items| && items[x].pair != NULL ==>
      0 <= items[x].pair < |items| && items[x].pair != x && (items[x].pair in live || items[items[x].pair].fd == -1)
  }

  ghost predicate SameTimer(e: Eval, f: Eval) {
    e.tvMs == f.tvMs && e.tvNext == f.tvNext && e.tvPrev == f.tvPrev
  }

  // Entries outside the list may change, if they stay idle.
  lemma TimedSame(items: seq<Eval>, items': seq<Eval>, live: set<int>, live': set<int>, start: int, end: int,
                  ts: seq<int>)
    requires Timed(items, live, start, end, ts) && |items'| == |items|
    requires forall x :: x in ts ==> x in live'
    requires forall x :: 0 <= x < |items| && x in live && x in live' ==> SameTimer(items'[x], items[x])
    requires forall x :: 0 <= x < |items| && x !in live && x in live' ==> Idle(items'[x])
    ensures Timed(items', live', start, end, ts)
  {
    forall k
      ensures Threaded(items', ts, k)
    {
      assert Threaded(items, ts, k);
    }
  }

  // The list without `v`, if it is there.
  ghost predicate Dropped(ts: seq<int>, v: int, ts': seq<int>) {
    if v in ts then exists p :: 0 <= p < |ts| && ts[p] == v && ts' == Without(ts, p) else ts' == ts
  }

  lemma TimedRemove(items: seq<Eval>, live: set<int>, start: int, end: int, ts: seq<int>,
                    v: int) returns (ts': seq<int>)
    requires Timed(items, live, start, end, ts) && v in live && 0 <= v < |items|
    ensures -1 <= items[v].tvPrev < |items| && -1 <= items[v].tvNext < |items|
    ensures Timed(Unlinked(items, v), live, if start == v then items[v].tvNext else start,
                  if end == v then items[v].tvPrev else end, ts')
    ensures v !in ts' && Dropped(ts, v, ts')
  {
    if v in ts {
      var p :| 0 <= p < |ts| && ts[p] == v;
      TimedUnlink(items, live, start, end, ts, p);
      WithoutRefs(items, ts, p);
      ts' := Without(ts, p);
    } else {
      assert Unlinked(items, v) == items;
      ts' := ts;
    }
  }

  // A consistent pool.
  ghost predicate PoolOk(items: seq<Eval>, links: seq<int>, pevents: seq<PollFd>, count: int, iters: nat, offs: int,
                         pending: set<int>,
                         start: int, end: int, ts: seq<int>) {
    && Table(items, links, pevents, count, iters) && Round(items, links, pevents, count, iters, offs, pending)
    && Paired(items, Live(links, count)) && Timed(items, Live(links, count), start, end, ts)
  }

  lemma AddPool(items: seq<Eval>, links: seq<int>, pevents: seq<PollFd>, count: int, iters: nat, offs: int,
                pending: set<int>,
                start: int, end: int, ts: seq<int>, fd: int, events: int)
    requires PoolOk(items, links, pevents, count, iters, offs, pending, start, end, ts) && count < |links| && fd > 0
    ensures var v := links[count];
      && 0 <= v < |items| && v !in Live(links, count) && Live(links, count + 1) == Live(links, count) + {v}
      && v !in pending
      && PoolOk(items[v := Eval(fd, count, iters, 0, NULL, NULL, NULL)], links,
                pevents[count := PollFd(fd, events, 0)], count + 1, iters,
                offs, pending, start, end, ts)
  {
    var v := links[count];
    AddTable(items, links, pevents, count, iters, fd, events);
    AddRound(items, links, pevents, count, iters, offs, pending, fd, events);
    var items' := items[v := Eval(fd, count, iters, 0, NULL, NULL, NULL)];
    TimedSame(items, items', Live(links, count), Live(links, count) + {v}, start, end, ts);
  }

  // The tables before and after `v` is taken out.
  ghost predicate TakenOut(items: seq<Eval>, links: seq<int>, pevents: seq<PollFd>, count: int, iters: nat, v: int,
                           items': seq<Eval>, links': seq<int>, pevents': seq<PollFd>) {
    && Perm(links) && |items| == |links| == |pevents| && 0 < count <= |links|
    && 0 <= v < |items| && 0 <= items[v].index < count && links[items[v].index] == v
    && var k, last := items[v].index, count - 1;
       && links' == ClosedLinks(links, k, last) && pevents' == Moved(pevents, k, last)
       && items' == ClosedItems(items, v, links[last], k, iters)
  }

  lemma ClosePaired(items: seq<Eval>, items': seq<Eval>, live: set<int>, v: int)
    requires Paired(items, live) && ClosedOne(items, items', v)
    ensures Paired(items', live - {v})
  {
  }

  lemma ClosedOneIs(items: seq<Eval>, v: int, ev: int, k: int, iters: nat)
    requires 0 <= v < |items| && 0 <= ev < |items|
    ensures ClosedOne(items, ClosedItems(items, v, ev, k, iters), v)
  {
  }

  lemma CloseTables(items: seq<Eval>, links: seq<int>, pevents: seq<PollFd>, count: int, iters: nat, offs: int,
                    pending: set<int>,
                    v: int, items': seq<Eval>, links': seq<int>, pevents': seq<PollFd>, count': int)
    requires Table(items, links, pevents, count, iters) && Round(items, links, pevents, count, iters, offs, pending)
    requires TakenOut(items, links, pevents, count, iters, v, items', links', pevents') && count' == count - 1
    ensures Table(items', links', pevents', count', iters)
    ensures Round(items', links', pevents', count', iters, offs, pending - {v})
    ensures Live(links', count') == Live(links, count) - {v} && ClosedOne(items, items', v)
  {
    var k := items[v].index;
    CloseTable(items, links, pevents, count, iters, k);
    CloseRound(items, links, pevents, count, iters, offs, pending, k);
    ClosePerm(links, k, count');
    ClosedOneIs(items, v, links[count'], k, iters);
  }

  lemma CloseTimed(items: seq<Eval>, live: set<int>, start: int, end: int, ts: seq<int>, v: int, ev: int, k: int,
                   iters: nat)
    requires Timed(items, live, start, end, ts) && v !in ts && 0 <= v < |items| && 0 <= ev < |items|
    ensures Timed(ClosedItems(items, v, ev, k, iters), live - {v}, start, end, ts)
  {
    TimedSame(items, ClosedItems(items, v, ev, k, iters), live, live - {v}, start, end, ts);
  }

  lemma ClosePool(items: seq<Eval>, links: seq<int>, pevents: seq<PollFd>, count: int, iters: nat, offs: int,
                  pending: set<int>,
                  start: int, end: int, ts: seq<int>, v: int, items': seq<Eval>, links': seq<int>,
                  pevents': seq<PollFd>, count': int)
    requires PoolOk(items, links, pevents, count, iters, offs, pending, start, end, ts)
    requires v in Live(links, count) && v !in ts && count' == count - 1
    requires TakenOut(items, links, pevents, count, iters, v, items', links', pevents')
    ensures PoolOk(items', links', pevents', count', iters, offs, pending - {v}, start, end, ts)
    ensures Live(links', count') == Live(links, count) - {v} && ClosedOne(items, items', v)
  {
    hide TimersOk;
    CloseTables(items, links, pevents, count, iters, offs, pending, v, items', links', pevents', count');
    ClosePaired(items, items', Live(links, count), v);
    CloseTimed(items, Live(links, count), start, end, ts, v, links[count'], items[v].index, iters);
  }

  // The entries that are still live have lost neither socket nor deadline nor pair.
  ghost predicate Survive(items: seq<Eval>, items': seq<Eval>, live: set<int>) {
    && |items'| == |items|
    && forall x :: x in live && 0 <= x < |items| ==>
        items'[x].fd == items[x].fd && items'[x].pair == items[x].pair && items'[x].tvMs == items[x].tvMs
  }

  // What poll is asked about an entry.
  ghost function EventsOf(items: seq<Eval>, pevents: seq<PollFd>, x: int): int {
    if 0 <= x < |items| && 0 <= items[x].index < |pevents| then pevents[items[x].index].events else 0
  }

  ghost predicate SameInterest(items: seq<Eval>, pevents: seq<PollFd>, items': seq<Eval>, pevents': seq<PollFd>,
                               live: set<int>) {
    forall x {:trigger EventsOf(items', pevents', x)} :: x in live ==>
      EventsOf(items', pevents', x) == EventsOf(items, pevents, x)
  }

  // The record that moves into the gap moves with its entry.
  lemma CloseInterest(items: seq<Eval>, links: seq<int>, pevents: seq<PollFd>, count: int, iters: nat, v: int,
                      items': seq<Eval>, links': seq<int>, pevents': seq<PollFd>)
    requires Table(items, links, pevents, count, iters)
    requires TakenOut(items, links, pevents, count, iters, v, items', links', pevents')
    ensures SameInterest(items, pevents, items', pevents', Live(links, count) - {v})
  {
    SlotIndex(items, links, pevents, count, iters, count - 1);
    forall x | x in Live(links, count) - {v}
      ensures EventsOf(items', pevents', x) == EventsOf(items, pevents, x)
    {
      LiveSlot(items, links, pevents, count, iters, x);
    }
  }

  lemma InterestThen(items: seq<Eval>, pevents: seq<PollFd>, items1: seq<Eval>, pevents1: seq<PollFd>,
                     items2: seq<Eval>, pevents2: seq<PollFd>, live1: set<int>, live2: set<int>)
    requires SameInterest(items, pevents, items1, pevents1, live1) && live2 <= live1
    requires SameInterest(items1, pevents1, items2, pevents2, live2)
    ensures SameInterest(items, pevents, items2, pevents2, live2)
  {
    forall x | x in live2
      ensures EventsOf(items2, pevents2, x) == EventsOf(items, pevents, x)
    {
      assert EventsOf(items1, pevents1, x) == EventsOf(items, pevents, x);
    }
  }

  // `v` has been closed and its link to `e` cut, on both sides.
  ghost predicate Cut(items: seq<Eval>, items': seq<Eval>, v: int, e: int) {
    && |items'| == |items|
    && forall x :: 0 <= x < |items| && x != v ==>
        && items'[x].fd == items[x].fd && items'[x].tvMs == items[x].tvMs
        && items'[x].pair == if x == e && items[x].pair == v then NULL else items[x].pair
  }

  lemma CutChain(items: seq<Eval>, items': seq<Eval>, live: set<int>, v: int, e: int)
    requires v in live && 0 <= v < |items| && NULL !in live && e == items[v].pair && Cut(items, items', v, e)
    ensures Chain(items, live, v) == [v] + Chain(items', live - {v}, e)
  {
    ChainSame(items, items', live - {v}, e);
  }

  lemma CutSurvive(items: seq<Eval>, items': seq<Eval>, items'': seq<Eval>, live: set<int>, v: int, e: int)
    requires Cut(items, items', v, e) && Survive(items', items'', live) && v !in live && e !in live
    ensures Survive(items, items'', live)
  {
  }

  lemma ChainJoins(v: int, c: seq<int>)
    ensures Elems([v] + c) == {v} + Elems(c)
  {
  }

  lemma ChainHead(items: seq<Eval>, live: set<int>, e: int)
    ensures e !in live - Elems(Chain(items, live, e)) || !(0 <= e < |items|)
    ensures Chain(items, live, NULL) == [] || NULL in live
  {
    if e in live && 0 <= e < |items| {
      assert Chain(items, live, e)[0] == e;
    }
  }

  const POLLTIMEOUT: int := 0

  // What poll(2) answers: events in the first `count` records, at least one of them, or none.
  datatype PollResult = Events(revents: seq<int>) | Timeout | Failed
  {
    predicate Fits(count: int) {
      Events? ==> |revents| == count && exists i :: 0 <= i < |revents| && revents[i] != 0
    }
  }

  lemma ReportedSome(links: seq<int>, revents: seq<int>)
    requires |revents| <= |links| && exists i :: 0 <= i < |revents| && revents[i] != 0
    ensures Reported(links, revents) != {}
  {
    var i :| 0 <= i < |revents| && revents[i] != 0;
    assert links[i] in Reported(links, revents);
  }

  lemma TableRead(items: seq<Eval>, links: seq<int>, pevents: seq<PollFd>, pevents': seq<PollFd>, count: int,
                  iters: nat)
    requires Table(items, links, pevents, count, iters) && |pevents'| == |pevents|
    requires forall i :: 0 <= i < |pevents| ==> pevents'[i].fd == pevents[i].fd
    ensures Table(items, links, pevents', count, iters)
  {
    forall i | 0 <= i < count
      ensures SlotOk(items, links, pevents', iters, i)
    {
      assert SlotOk(items, links, pevents, iters, i);
    }
  }

  // The list with `v` in the place of its deadline.
  ghost predicate Queued(items: seq<Eval>, ts: seq<int>, v: int, deadline: int, ts': seq<int>)
    requires Refs(items, ts)
  {
    exists p :: Slot(items, ts, p, deadline) && ts' == With(ts, p, v)
  }

  ghost predicate Due(items: seq<Eval>, ts: seq<int>, now: int) {
    ts != [] && 0 <= ts[0] < |items| && items[ts[0]].tvMs <= now
  }

  // When next_event_tv takes the first timer: it is due, or there is nothing to hand out and the type that
  // is left says that the poll timed out, be it that this one did or that it failed after one that did.
  ghost predicate Fires(items: seq<Eval>, ts: seq<int>, pending: set<int>, now: int, poll: PollResult, etype: int) {
    || Due(items, ts, now)
    || (ts != [] && pending == {} && (poll.Timeout? || (poll.Failed? && etype == POLLTIMEOUT)))
  }

  ghost predicate Earliest(items: seq<Eval>, ts: seq<int>, v: int) {
    0 <= v < |items| && forall x :: x in ts ==> 0 <= x < |items| && items[v].tvMs <= items[x].tvMs
  }

  lemma {:induction false} FirstIn(items: seq<Eval>, start: int, end: int, ts: seq<int>)
    requires TimersOk(items, start, end, ts) && start != NULL
    ensures start in ts && Earliest(items, ts, start)
  {
    forall x | x in ts
      ensures 0 <= x < |items| && items[start].tvMs <= items[x].tvMs
    {
      var k :| 0 <= k < |ts| && ts[k] == x;
      SortedAll(items, start, end, ts, 0, k);
    }
  }

  lemma FirstDropped(items: seq<Eval>, start: int, end: int, ts: seq<int>, ts': seq<int>)
    requires TimersOk(items, start, end, ts) && start != NULL && Dropped(ts, start, ts')
    ensures ts == [start] + ts'
  {
  }

  // Closing a chain where pairs form rings leaves rings.
  lemma RingsKept(items: seq<Eval>, items': seq<Eval>, live: set<int>, live': set<int>, v: int)
    requires Rings(items, live) && v in live && live' == live - Elems(Chain(items, live, v))
    requires Survive(items, items', live')
    ensures Rings(items', live')
  {
    forall x
      ensures InRing(items', live', x)
    {
      assert InRing(items, live, x);
      if x in live' {
        RingApart(items, live, v, x);
        if items[x].pair != NULL { assert InRing(items, live, items[x].pair); }
      }
    }
    forall x, y | x in live' && y in live' && x != y && 0 <= x < |items| && 0 <= y < |items| && items'[x].pair != NULL
      ensures items'[x].pair != items'[y].pair
    {
      assert InRing(items, live, x) && InRing(items, live, y);
    }
  }

  // What a callback may do to the pool.
  datatype Action =
    | Add(fd: int, events: int)
    | Close(v: int)
    | Arm(v: int, deadline: int)
    | Disarm(v: int)
    | Link(x: int, y: int)
    | Unlink(x: int)

  // One turn of the event loop: the time, what poll would answer, whether an error was an
  // interruption, what the callback does and whether it fails.
  datatype Turn = Turn(now: int, poll: PollResult, interrupted: bool, script: seq<Action>, fails: bool)
  {
    // An answer that poll cannot give for `count` descriptors stands for a failure.
    function Answer(count: int): (r: PollResult)
      ensures r.Fits(count)
    {
      if poll.Fits(count) then poll else Failed
    }
  }

  ghost predicate Uninterrupted(turns: seq<Turn>) {
    forall i :: 0 <= i < |turns| ==> !turns[i].interrupted
  }

  // What the log says: who is in the pool, what is still to be handed out, and how many polls there were.
  ghost predicate Logged(log: EventLog.Log, live: set<int>, pending: set<int>, iters: nat) {
    && EventLog.Proper(log) && EventLog.Alive(log) == live
    && EventLog.Due(log) == pending && EventLog.Polls(log) == iters
  }

  lemma LoggedOn(log: EventLog.Log, live: set<int>, pending: set<int>, iters: nat, e: EventLog.Event)
    requires Logged(log, live, pending, iters) && EventLog.Permits(live, pending, e)
    ensures Logged(log + [e],
                   if e.Added? then live + {e.v} else if e.Closed? then live - {e.v} else live,
                   if e.Polled? then e.reported else if e.Handed? || e.Closed? then pending - {e.v} else pending,
                   if e.Polled? then iters + 1 else iters)
  {
    EventLog.Extended(log, e);
  }

  class EventPool {
    var count: int
    var items: seq<Eval>
    var links: seq<int>
    var pevents: seq<PollFd>
    var iters: nat
    var tvStart: int
    var tvEnd: int
    ghost var timers: seq<int>
    ghost var offs: int         // where the scan of the last poll stands
    ghost var pending: set<int> // what that poll reported and is still to be handed out
    ghost var log: EventLog.Log // all that has happened

    ghost function LiveSet(): set<int>
      reads this`links, this`count
    {
      if 0 <= count <= |links| then Live(links, count) else {}
    }

    ghost predicate Valid()
      reads this
    {
      && PoolOk(items, links, pevents, count, iters, offs, pending, tvStart, tvEnd, timers)
      && Logged(log, LiveSet(), pending, iters)
    }

    // A change of timer fields only.
    lemma SteadySame(items': seq<Eval>, start': int, end': int, ts': seq<int>)
      requires Valid() && SameBut(items, items') && Timed(items', LiveSet(), start', end', ts')
      ensures PoolOk(items', links, pevents, count, iters, offs, pending, start', end', ts')
    {
      TableSame(items, items', links, pevents, count, iters);
      RoundSame(items, items', links, pevents, count, iters, offs, pending);
    }

    constructor (max: nat)
      ensures Valid() && |items| == |links| == max && count == 0 && LiveSet() == {} && timers == []
      ensures offs == -1 && pending == {} && log == []
    {
      count, iters, tvStart, tvEnd := 0, 0, NULL, NULL;
      items := seq(max, _ => Eval(0, 0, 0, 0, NULL, NULL, NULL));
      pevents := seq(max, _ => PollFd(0, 0, 0));
      links := seq(max, i => i);
      timers, offs, pending, log := [], -1, {}, [];
    }

    // The stores of remove_timer.
    method UnlinkFields(v: int)
      requires 0 <= v < |items| && -1 <= items[v].tvPrev < |items| && -1 <= items[v].tvNext < |items|
      modifies this`items, this`tvStart, this`tvEnd
      ensures items == Unlinked(old(items), v)
      ensures tvStart == if old(tvStart) == v then old(items)[v].tvNext else old(tvStart)
      ensures tvEnd == if old(tvEnd) == v then old(items)[v].tvPrev else old(tvEnd)
    {
      var prev, next := items[v].tvPrev, items[v].tvNext;
      if prev != NULL {
        items := items[prev := items[prev].(tvNext := next)];
      }
      if next != NULL {
        items := items[next := items[next].(tvPrev := prev)];
      }
      if tvStart == v {
        tvStart := next;
      }
      if tvEnd == v {
        tvEnd := prev;
      }
      items := items[v := items[v].(tvMs := 0, tvNext := NULL, tvPrev := NULL)];
    }

    method RemoveTimer(v: int)
      requires Valid() && v in LiveSet()
      modifies this`items, this`tvStart, this`tvEnd, this`timers
      ensures Valid() && SameBut(old(items), items) && SameDeadlines(old(items), items, v) && 0 <= v < |items|
      ensures Idle(items[v])
      ensures v !in timers && Dropped(old(timers), v, timers)
    {
      LiveSlot(items, links, pevents, count, iters, v);
      ghost var ts' := TimedRemove(items, LiveSet(), tvStart, tvEnd, timers, v);
      UnlinkedElse(items, v);
      SteadySame(Unlinked(items, v), if tvStart == v then items[v].tvNext else tvStart,
                 if tvEnd == v then items[v].tvPrev else tvEnd, ts');
      timers := ts';
      UnlinkFields(v);
    }

    // The stores of set_timer once its place is found.
    method LinkFields(v: int, deadline: int, prev: int, next: int)
      requires 0 <= v < |items| && -1 <= prev < |items| && -1 <= next < |items|
      modifies this`items, this`tvStart, this`tvEnd
      ensures items == Linked(old(items), v, deadline, prev, next)
      ensures tvStart == if old(tvStart) == NULL || next == old(tvStart) then v else old(tvStart)
      ensures tvEnd == if old(tvEnd) == NULL || prev == old(tvEnd) then v else old(tvEnd)
    {
      items := items[v := items[v].(tvMs := deadline, tvNext := next, tvPrev := prev)];
      if next != NULL {
        items := items[next := items[next].(tvPrev := v)];
      }
      if prev != NULL {
        items := items[prev := items[prev].(tvNext := v)];
      }
      if tvStart == NULL || next == tvStart {
        tvStart := v;
      }
      if tvEnd == NULL || prev == tvEnd {
        tvEnd := v;
      }
    }

    // The place of a deadline, looked for from the end of the list.
    method FindPlace(deadline: int) returns (prev: int, next: int, ghost p: int)
      requires TimersOk(items, tvStart, tvEnd, timers)
      ensures Slot(items, timers, p, deadline) && prev == At(timers, p - 1) && next == At(timers, p)
    {
      next, prev, p := NULL, tvEnd, |timers|;
      while prev != NULL && items[prev].tvMs >= deadline
        invariant 0 <= p <= |timers| && prev == At(timers, p - 1) && next == At(timers, p)
        invariant p < |timers| ==> items[timers[p]].tvMs >= deadline
        decreases p
      {
        assert Threaded(items, timers, p - 1);
        next := prev;
        prev := items[prev].tvPrev;
        p := p - 1;
      }
    }

    // set_timer, at a moment for which `deadline` is `ms` ahead.
    method SetTimer(v: int, deadline: int)
      requires Valid() && v in LiveSet() && deadline != 0
      modifies this`items, this`tvStart, this`tvEnd, this`timers
      ensures Valid() && SameBut(old(items), items) && SameDeadlines(old(items), items, v) && 0 <= v < |items|
      ensures v in old(timers) ==> timers == old(timers) && items == old(items)
      ensures v !in old(timers) ==>
        items[v].tvMs == deadline && Queued(old(items), old(timers), v, deadline, timers)
    {
      LiveSlot(items, links, pevents, count, iters, v);
      HasTimer(v);
      if items[v].tvMs != 0 {
        return;
      }
      var prev, next;
      ghost var p;
      prev, next, p := FindPlace(deadline);
      LinkReady(v, deadline, prev, next, p);
      hide PoolOk;
      hide SameDeadlines;
      hide SameBut;
      LinkFields(v, deadline, prev, next);
      timers := With(timers, p, v);
    }

    // What the stores of set_timer will leave.
    lemma LinkReady(v: int, deadline: int, prev: int, next: int, p: int)
      requires Valid() && v in LiveSet() && 0 <= v < |items| && v !in timers && deadline != 0
      requires Slot(items, timers, p, deadline) && prev == At(timers, p - 1) && next == At(timers, p)
      ensures -1 <= prev < |items| && -1 <= next < |items|
      ensures var after := Linked(items, v, deadline, prev, next);
        && PoolOk(after, links, pevents, count, iters, offs, pending,
                  if tvStart == NULL || next == tvStart then v else tvStart,
                  if tvEnd == NULL || prev == tvEnd then v else tvEnd, With(timers, p, v))
        && SameBut(items, after) && SameDeadlines(items, after, v) && after[v].tvMs == deadline
    {
      TimedLink(items, LiveSet(), tvStart, tvEnd, timers, p, v, deadline);
      LinkedElse(items, v, deadline, prev, next);
      SteadySame(Linked(items, v, deadline, prev, next), if tvStart == NULL || next == tvStart then v else tvStart,
                 if tvEnd == NULL || prev == tvEnd then v else tvEnd, With(timers, p, v));
      LinkedNew(items, v, deadline, prev, next);
    }

    // A live entry is in the list exactly if its deadline is set.
    lemma HasTimer(v: int)
      requires Valid() && v in LiveSet()
      ensures 0 <= v < |items| && (v in timers <==> items[v].tvMs != 0)
    {
      LiveSlot(items, links, pevents, count, iters, v);
      if v in timers {
        var k :| 0 <= k < |timers| && timers[k] == v;
        assert Threaded(items, timers, k);
      }
    }

    // add_event; null if the table is full.
    method AddEvent(fd: int, events: int) returns (v: int)
      requires Valid() && fd > 0
      modifies this`count, this`items, this`pevents, this`log
      ensures Valid()
      ensures old(count) == |links| ==>
        v == NULL && count == old(count) && items == old(items) && pevents == old(pevents) && log == old(log)
      ensures old(count) < |links| ==>
        && v !in old(LiveSet()) && LiveSet() == old(LiveSet()) + {v} && v !in pending && 0 <= v < |old(items)|
        && items == old(items)[v := Eval(fd, old(count), iters, 0, NULL, NULL, NULL)]
        && count == old(count) + 1 && pevents == old(pevents)[old(count) := PollFd(fd, events, 0)]
        && log == old(log) + [EventLog.Added(v)]
    {
      if count >= |links| {
        return NULL;
      }
      v := links[count];
      AddPool(items, links, pevents, count, iters, offs, pending, tvStart, tvEnd, timers, fd, events);
      LoggedOn(log, LiveSet(), pending, iters, EventLog.Added(v));
      FillSlot(v, fd, events);
    }

    // The stores of add_event.
    method FillSlot(v: int, fd: int, events: int)
      requires 0 <= v < |items| && 0 <= count < |pevents|
      modifies this`count, this`items, this`pevents, this`log
      ensures items == old(items)[v := Eval(fd, old(count), iters, 0, NULL, NULL, NULL)]
      ensures pevents == old(pevents)[old(count) := PollFd(fd, events, 0)] && count == old(count) + 1
      ensures log == old(log) + [EventLog.Added(v)]
    {
      items := items[v := Eval(fd, count, iters, 0, NULL, NULL, NULL)];
      pevents := pevents[count := PollFd(fd, events, 0)];
      count, log := count + 1, log + [EventLog.Added(v)];
    }

    // Stores a pair pointer.
    method SetPair(x: int, y: int)
      requires Valid() && 0 <= x < |items| && (y == NULL || (y in LiveSet() && 0 <= y < |items| && y != x))
      modifies this`items
      ensures Valid() && items == old(items)[x := old(items)[x].(pair := y)]
    {
      ghost var items' := items[x := items[x].(pair := y)];
      TableSame(items, items', links, pevents, count, iters);
      RoundSame(items, items', links, pevents, count, iters, offs, pending);
      TimedSame(items, items', LiveSet(), LiveSet(), tvStart, tvEnd, timers);
      items := items[x := items[x].(pair := y)];
    }

    // The part of del_event before the pair is looked at.
    method CloseOne(v: int)
      requires Valid() && v in LiveSet()
      modifies this
      ensures Valid() && LiveSet() == old(LiveSet()) - {v} && ClosedOne(old(items), items, v) && count == old(count) - 1
      ensures 0 <= v < |items| && iters == old(iters) && offs == old(offs)
      ensures Dropped(old(timers), v, timers)
      ensures pending == old(pending) - {v} && log == old(log) + [EventLog.Closed(v)]
      ensures SameInterest(old(items), old(pevents), items, pevents, LiveSet())
    {
      RemoveTimer(v);
      CloseSlot(v);
    }

    method CloseSlot(v: int)
      requires Valid() && v in LiveSet() && v !in timers
      modifies this`items, this`links, this`pevents, this`count, this`pending, this`log
      ensures Valid() && LiveSet() == old(LiveSet()) - {v} && ClosedOne(old(items), items, v) && count == old(count) - 1
      ensures pending == old(pending) - {v} && log == old(log) + [EventLog.Closed(v)]
      ensures SameInterest(old(items), old(pevents), items, pevents, LiveSet())
    {
      LoggedOn(log, LiveSet(), pending, iters, EventLog.Closed(v));
      ghost var items0, links0, pevents0, count0, pending0 := items, links, pevents, count, pending;
      LiveSlot(items, links, pevents, count, iters, v);
      CloseFields(v);
      CloseInterest(items0, links0, pevents0, count0, iters, v, items, links, pevents);
      ClosePool(items0, links0, pevents0, count0, iters, offs, pending0, tvStart, tvEnd, timers, v, items, links,
                pevents, count);
      pending, log := pending - {v}, log + [EventLog.Closed(v)];
    }

    // The stores of del_event that take `v` out of the table.
    method CloseFields(v: int)
      requires Perm(links) && |items| == |links| == |pevents| && 0 < count <= |links|
      requires 0 <= v < |items| && 0 <= items[v].index < count && links[items[v].index] == v
      modifies this`items, this`links, this`pevents, this`count
      ensures TakenOut(old(items), old(links), old(pevents), old(count), iters, v, items, links, pevents)
      ensures count == old(count) - 1
    {
      items := items[v := items[v].(fd := -1, modIter := iters)];
      count := count - 1;
      var ev := links[count];
      if ev != v {
        var index := items[v].index;
        links := links[index := ev][count := v];
        pevents := pevents[index := pevents[count]];
        items := items[ev := items[ev].(index := index)];
      }
    }

    // What closing the entries `chain` leaves.
    twostate predicate Removed(chain: seq<int>)
      reads this
    {
      && LiveSet() == old(LiveSet()) - Elems(chain) && pending == old(pending) - Elems(chain)
      && count == old(count) - |chain| && Survive(old(items), items, LiveSet())
      && iters == old(iters) && offs == old(offs) && log == old(log) + EventLog.Closings(chain)
      && SameInterest(old(items), old(pevents), items, pevents, LiveSet())
    }

    // Closes `v` and cuts the link to its pair `e`.
    method CutOff(v: int) returns (e: int)
      requires Valid() && v in LiveSet()
      modifies this
      ensures Valid() && 0 <= v < |old(items)| && e == old(items)[v].pair && Cut(old(items), items, v, e)
      ensures LiveSet() == old(LiveSet()) - {v} && pending == old(pending) - {v} && count == old(count) - 1
      ensures iters == old(iters) && offs == old(offs) && log == old(log) + [EventLog.Closed(v)]
      ensures e != NULL ==> 0 <= e < |items| && e != v && (e in LiveSet() || items[e].fd == -1)
      ensures SameInterest(old(items), old(pevents), items, pevents, LiveSet())
    {
      hide Perm;
      hide Without;
      LiveSlot(items, links, pevents, count, iters, v);
      ghost var items0, pevents0 := items, pevents;
      CloseOne(v);
      ghost var items1 := items;
      e := items[v].pair;
      if e != NULL {
        if items[e].pair == v {
          SetPair(e, NULL);
        }
        SetPair(v, NULL);
      }
      assert SameInterest(items1, pevents, items, pevents, LiveSet());
      InterestThen(items0, pevents0, items1, pevents, items, pevents, LiveSet(), LiveSet());
    }

    method DelEvent(v: int)
      requires Valid() && 0 <= v < |items| && (v in LiveSet() || items[v].fd == -1)
      modifies this
      ensures Valid() && Removed(Chain(old(items), old(LiveSet()), v))
      decreases count
    {
      hide Valid;
      if items[v].fd == -1 {
        NotLive(v);
        return;
      }
      hide Logged;
      hide PoolOk;
      hide Survive;
      hide SameInterest;
      ghost var items0, pevents0, live0, log0 := items, pevents, LiveSet(), log;
      NullNotLive();
      var e := CutOff(v);
      ghost var items1, pevents1, live1 := items, pevents, LiveSet();
      CutChain(items0, items1, live0, v, e);
      ChainHead(items1, live1, e);
      if e != NULL {
        DelEvent(e);
        InterestThen(items0, pevents0, items1, pevents1, items, pevents, live1, LiveSet());
      }
      ChainJoins(v, Chain(items1, live1, e));
      EventLog.ClosingsFirst(log0, v, Chain(items1, live1, e));
      CutSurvive(items0, items1, items, LiveSet(), v, e);
    }

    lemma NullNotLive()
      requires Valid()
      ensures NULL !in LiveSet()
    {
    }

    lemma NotLive(v: int)
      requires Valid() && 0 <= v < |items| && items[v].fd == -1
      ensures v !in LiveSet()
    {
      if v in LiveSet() { LiveSlot(items, links, pevents, count, iters, v); }
    }

    // The scan of next_event for a slot with an event to hand out.
    method Scan(i0: int) returns (i: int)
      requires Valid() && -1 <= i0 < |links|
      ensures -1 <= i <= i0 && (0 <= i ==> Waiting(items, links, pevents, iters, i))
      ensures forall k :: i < k <= i0 ==> !Waiting(items, links, pevents, iters, k)
    {
      i := i0;
      while 0 <= i && (pevents[i].revents == 0 || items[links[i]].modIter == iters)
        invariant -1 <= i <= i0
        invariant forall k :: i < k <= i0 ==> !Waiting(items, links, pevents, iters, k)
      {
        i := i - 1;
      }
    }

    // Hands out the event of slot `i`.
    method Take(i: int) returns (v: int, etype: int)
      requires Valid() && 0 <= i <= offs && Waiting(items, links, pevents, iters, i)
      requires forall k :: i < k <= offs ==> !Waiting(items, links, pevents, iters, k)
      modifies this`pevents, this`offs, this`pending, this`log
      ensures Valid() && v in LiveSet() && v in old(pending) && offs == i - 1
      ensures InSlot(items, v, count) && items[v].index == i && etype == old(pevents)[i].revents != 0
      ensures pending == old(pending) - {v} && log == old(log) + [EventLog.Handed(v)]
    {
      TakeRound(items, links, pevents, count, iters, offs, pending, i);
      SlotIndex(items, links, pevents, count, iters, i);
      v, etype := links[i], pevents[i].revents;
      ghost var pevents0 := pevents;
      pevents := pevents[i := pevents[i].(revents := 0)];
      TableRead(items, links, pevents0, pevents, count, iters);
      LoggedOn(log, LiveSet(), pending, iters, EventLog.Handed(v));
      pending, log, offs := pending - {v}, log + [EventLog.Handed(v)], i - 1;
    }

    // A poll that reports `revents`.
    method Poll(revents: seq<int>) returns (i: int)
      requires Valid() && pending == {} && |revents| == count
      modifies this`pevents, this`iters, this`offs, this`pending, this`log
      ensures Valid() && iters == old(iters) + 1 && i == offs == count - 1 && pevents == Polled(old(pevents), revents)
      ensures pending == Reported(links, revents) && log == old(log) + [EventLog.Polled(Reported(links, revents))]
    {
      PollRound(items, links, pevents, count, iters, revents);
      LoggedOn(log, LiveSet(), pending, iters, EventLog.Polled(Reported(links, revents)));
      pevents, iters, i := Polled(pevents, revents), iters + 1, count - 1;
      offs, pending := i, Reported(links, revents);
      log := log + [EventLog.Polled(Reported(links, revents))];
    }

    // next_event: `o` is the scan offset that the caller keeps, `poll` what poll would
    // answer now.  The type stays `etype0` where the source does not store one.
    method NextEvent(o: int, poll: PollResult, etype0: int) returns (v: int, o': int, etype: int)
      requires Valid() && o == offs && poll.Fits(count)
      modifies this`pevents, this`iters, this`offs, this`pending, this`log
      ensures Valid() && o' == offs && (v != NULL ==> v in LiveSet() && InSlot(items, v, count) && etype != 0)
      // An entry of the current round is handed out while there is one, with what was reported for it.
      ensures old(pending) != {} ==>
        && v in old(pending) && pending == old(pending) - {v} && iters == old(iters)
        && log == old(log) + [EventLog.Handed(v)] && etype == old(pevents)[items[v].index].revents
      // A new round begins only when the last one is over.
      ensures old(pending) == {} && poll.Events? ==>
        && v in Reported(links, poll.revents) && pending == Reported(links, poll.revents) - {v}
        && iters == old(iters) + 1 && etype == poll.revents[items[v].index]
        && log == old(log) + [EventLog.Polled(Reported(links, poll.revents)), EventLog.Handed(v)]
      ensures old(pending) == {} && !poll.Events? ==>
        && v == NULL && pending == {} && log == old(log)
        && iters == old(iters) && etype == if poll.Timeout? then POLLTIMEOUT else etype0
    {
      hide Perm;
      var i := Scan(o);
      if i < 0 {
        ScannedAll(items, links, pevents, count, iters, offs, pending);
        if !poll.Events? {
          return NULL, o, if poll.Timeout? then POLLTIMEOUT else etype0;
        }
        i := Poll(poll.revents);
        i := Scan(i);
        ReportedSome(links, poll.revents);
        if i < 0 {
          ScannedAll(items, links, pevents, count, iters, offs, pending);
          assert false;
        }
      }
      v, etype := Take(i);
      o' := i - 1;
    }

    // next_event_tv at the moment `now`.
    method NextEventTv(o: int, now: int, poll: PollResult, etype0: int)
      returns (v: int, o': int, etype: int, ghost fires: bool)
      requires Valid() && o == offs && poll.Fits(count)
      modifies this
      ensures Valid() && o' == offs && (v != NULL ==> v in LiveSet()) && LiveSet() == old(LiveSet())
      ensures SameBut(old(items), items) && links == old(links) && count == old(count)
      ensures v != NULL ==> InSlot(items, v, count)
      ensures fires <==> Fires(old(items), old(timers), old(pending), now, poll, etype0)
      // The timer that goes off is the first of the list, so none has an earlier deadline, and the round
      // stands still.
      ensures fires ==>
        && etype == POLLTIMEOUT && old(timers) == [v] + timers && Earliest(old(items), old(timers), v)
        && pending == old(pending) && iters == old(iters) && log == old(log) + [EventLog.Fired(v)]
      // Otherwise the events of the round come in turn,
      ensures !fires ==> timers == old(timers)
      ensures !fires && old(pending) != {} ==>
        && v in old(pending) && pending == old(pending) - {v} && log == old(log) + [EventLog.Handed(v)]
        && iters == old(iters) && etype == old(pevents)[items[v].index].revents != 0
      // then those of a new poll, and without any there is nothing.
      ensures !fires && old(pending) == {} && poll.Events? ==>
        && v in Reported(links, poll.revents) && pending == Reported(links, poll.revents) - {v}
        && iters == old(iters) + 1 && etype == poll.revents[items[v].index] != 0
        && log == old(log) + [EventLog.Polled(Reported(links, poll.revents)), EventLog.Handed(v)]
      ensures !fires && old(pending) == {} && !poll.Events? ==>
        && v == NULL && pending == {} && iters == old(iters) && log == old(log)
        && etype == if poll.Timeout? then POLLTIMEOUT else etype0
    {
      hide Table;
      hide Logged;
      hide Closed;
      fires := Fires(items, timers, pending, now, poll, etype0);
      if tvStart == NULL {
        v, o', etype := NextEvent(o, poll, etype0);
        return;
      }
      v, o', etype := NULL, o, POLLTIMEOUT;
      var ms := items[tvStart].tvMs - now;
      if ms > 0 {
        v, o', etype := NextEvent(o, poll, etype0);
      }
      if v == NULL && etype == POLLTIMEOUT {
        v := FireFirst();
        LiveSlot(items, links, pevents, count, iters, v);
      }
    }

    // Takes the first timer off the list.
    method FireFirst() returns (v: int)
      requires Valid() && tvStart != NULL
      modifies this`items, this`tvStart, this`tvEnd, this`timers, this`log
      ensures Valid() && SameBut(old(items), items) && v in LiveSet() && log == old(log) + [EventLog.Fired(v)]
      ensures old(timers) == [v] + timers && Earliest(old(items), old(timers), v)
    {
      hide At;
      v := tvStart;
      ghost var items0, end0, ts0 := items, tvEnd, timers;
      FirstIn(items, tvStart, tvEnd, timers);
      assert v in LiveSet() && TimersOk(items0, v, end0, ts0);
      hide PoolOk;
      hide TimersOk;
      hide Dropped;
      hide Logged;
      RemoveTimer(v);
      FirstDropped(items0, v, end0, ts0, timers);
      LoggedOn(log, LiveSet(), pending, iters, EventLog.Fired(v));
      log := log + [EventLog.Fired(v)];
    }

    predicate IsLive(v: int)
      requires |links| == |items| && 0 <= count <= |links|
      reads this
    {
      0 <= v < |items| && 0 <= items[v].index < count && links[items[v].index] == v
    }

    lemma IsLiveMeans(v: int)
      requires Valid()
      ensures IsLive(v) <==> v in LiveSet()
    {
      if v in LiveSet() { LiveSlot(items, links, pevents, count, iters, v); }
    }

    // In a pool of rings, closing a member closes its ring and nothing else.
    method CloseRing(v: int)
      requires Valid() && v in LiveSet() && Rings(items, LiveSet())
      modifies this
      ensures Valid() && Removed(Chain(old(items), old(LiveSet()), v)) && Rings(items, LiveSet())
    {
      ghost var items0, live0 := items, LiveSet();
      LiveSlot(items, links, pevents, count, iters, v);
      DelEvent(v);
      RingsKept(items0, items, live0, LiveSet(), v);
    }

    // What no callback can change: it hands out nothing, adds nothing to the round, and takes from it
    // only what it closes.
    twostate predicate SameRound(more: EventLog.Log)
      reads this
    {
      && log == old(log) + more && EventLog.Outside(more)
      && pending <= old(pending) && (forall x :: x in old(pending) - pending ==> EventLog.Closed(x) in more)
      && offs == old(offs) && iters == old(iters)
    }

    // Closing entries is something a callback may do.
    twostate lemma RemovedRound(chain: seq<int>)
      requires Removed(chain)
      ensures SameRound(EventLog.Closings(chain))
    {
      EventLog.ClosingsOutside(chain);
      forall x | x in old(pending) - pending
        ensures EventLog.Closed(x) in EventLog.Closings(chain)
      {
        EventLog.ClosingsHas(chain, x);
      }
    }

    // One step of a callback; a handle that is not live is left alone, as a closed one is.
    method Act(a: Action) returns (ghost more: EventLog.Log)
      requires Valid()
      modifies this
      ensures Valid() && SameRound(more)
      ensures old(pending) - pending <= old(LiveSet()) - LiveSet()
      ensures forall x :: x in LiveSet() && x !in old(LiveSet()) ==> x !in pending
      ensures a.Add? && a.fd > 0 && old(count) < |old(links)| ==>
        |more| == 1 && more[0].Added? && LiveSet() == old(LiveSet()) + {more[0].v} && more[0].v !in old(LiveSet())
      ensures a.Close? && a.v in old(LiveSet()) ==> Removed(Chain(old(items), old(LiveSet()), a.v))
      ensures a.Arm? && a.v in old(LiveSet()) && a.deadline != 0 ==> a.v in timers
      ensures a.Disarm? && a.v in old(LiveSet()) ==> a.v !in timers
    {
      more := [];
      match a
      case Add(fd, events) =>
        if fd > 0 {
          var v := AddEvent(fd, events);
          if v != NULL { more := [EventLog.Added(v)]; }
        }
      case Close(v) =>
        IsLiveMeans(v);
        if IsLive(v) {
          more := EventLog.Closings(Chain(items, LiveSet(), v));
          ghost var chain := Chain(items, LiveSet(), v);
          DelEvent(v);
          RemovedRound(chain);
        }
      case Arm(v, deadline) =>
        IsLiveMeans(v);
        if IsLive(v) && deadline != 0 {
          SetTimer(v, deadline);
        }
      case Disarm(v) =>
        IsLiveMeans(v);
        if IsLive(v) {
          RemoveTimer(v);
        }
      case Link(x, y) =>
        IsLiveMeans(x);
        IsLiveMeans(y);
        if IsLive(x) && IsLive(y) && x != y {
          SetPair(x, y);
        }
      case Unlink(x) =>
        IsLiveMeans(x);
        if IsLive(x) {
          SetPair(x, NULL);
        }
    }

    // A callback: any sequence of steps.
    method Callback(script: seq<Action>) returns (ghost more: EventLog.Log)
      requires Valid()
      modifies this
      ensures Valid() && SameRound(more)
    {
      hide Valid;
      more := [];
      for i := 0 to |script|
        invariant Valid() && SameRound(more)
      {
        ghost var step := Act(script[i]);
        more := more + step;
      }
    }

    // destroy_pool: closes every entry.
    method Destroy()
      requires Valid()
      modifies this
      ensures Valid() && LiveSet() == {} && forall x :: x !in timers
    {
      while count > 0
        invariant Valid()
        decreases count
      {
        var v := links[0];
        assert v in LiveSet();
        DelEvent(v);
      }
    }

    // Calls back for `v`, and closes it if the callback fails.
    method CallFor(v: int, script: seq<Action>, fails: bool) returns (ghost more: EventLog.Log)
      requires Valid()
      modifies this
      ensures Valid() && SameRound(more) && (fails ==> v !in LiveSet())
    {
      hide Logged;
      more := Callback(script);
      IsLiveMeans(v);
      if fails && IsLive(v) {
        ghost var chain := Chain(items, LiveSet(), v);
        label called:
        DelEvent(v);
        RemovedRound@called(chain);
        more := more + EventLog.Closings(chain);
      }
    }

    // One turn of loop_event: nothing, or a callback for `v`, which has just been handed out or whose
    // timer has gone off, and what the callback does.
    method Step(t: Turn, o: int, etype0: int)
      returns (v: int, stop: bool, o': int, etype: int, ghost head: EventLog.Log, ghost more: EventLog.Log)
      requires Valid() && o == offs
      modifies this
      ensures Valid() && o' == offs && (stop <==> v == NULL && !t.interrupted)
      ensures log == old(log) + head + more && EventLog.Opens(head, v, NULL) && EventLog.Outside(more)
      ensures v == NULL ==> more == []
      // The first timer, an entry of the round, one of a new round, or nothing,
      ensures var fires := Fires(old(items), old(timers), old(pending), t.now, t.Answer(old(count)), etype0);
        && (fires ==> v == old(timers)[0] && head == [EventLog.Fired(v)] && etype == POLLTIMEOUT)
        && (!fires && old(pending) != {} ==> v in old(pending) && head == [EventLog.Handed(v)])
        && (!fires && old(pending) == {} && t.Answer(old(count)).Events? ==>
              var reported := Reported(old(links), t.poll.revents);
              v in reported && head == [EventLog.Polled(reported), EventLog.Handed(v)])
        && (!fires && old(pending) == {} && !t.Answer(old(count)).Events? ==>
              v == NULL && timers == old(timers) && pending == {} && count == old(count))
      // and an entry whose callback fails is closed.
      ensures v != NULL && t.fails ==> v !in LiveSet()
    {
      var poll := t.Answer(count);
      ghost var before := log;
      ghost var fires;
      v, o', etype, fires := NextEventTv(o, t.now, poll, etype0);
      head, more := log[|before|..], [];
      stop := v == NULL && !t.interrupted;
      if v != NULL {
        more := CallFor(v, t.script, t.fails);
      }
    }

    // loop_event: over every run, what is handed out was reported by the last poll and has since been
    // neither handed out nor closed nor added, and before a new poll everything that the last one
    // reported has been handed out or closed. `events` are the entries the callbacks were called for,
    // one in each of the `taken` turns but the interrupted ones and the one at which the loop ends.
    method LoopEvent(turns: seq<Turn>) returns (events: seq<int>, taken: nat)
      requires Valid() && offs == -1
      modifies this
      ensures Valid() && old(log) <= log && EventLog.Faithful(log)
      ensures EventLog.Given(log) == EventLog.Given(old(log)) + events
      ensures iters - old(iters) == EventLog.Polls(log) - EventLog.Polls(old(log))
      ensures taken == |turns| || (0 < taken < |turns| && !turns[taken - 1].interrupted && |events| < taken)
      ensures Uninterrupted(turns) ==> taken - 1 <= |events| <= taken
      // It ends early only with nothing to hand out, and with a timer only if the poll failed.
      ensures taken < |turns| ==> pending == {} && (timers == [] || turns[taken - 1].Answer(count).Failed?)
    {
      hide Live;
      hide PoolOk;
      hide Reported;
      events, taken := [], 0;
      ghost var log0 := log;
      var o, etype, stop := -1, -1, false;
      while taken < |turns| && !stop
        invariant Valid() && o == offs && log0 <= log && taken <= |turns|
        invariant EventLog.Given(log) == EventLog.Given(log0) + events
        invariant stop ==> 0 < taken && !turns[taken - 1].interrupted
        invariant stop ==> pending == {} && (timers == [] || turns[taken - 1].Answer(count).Failed?)
        invariant |events| <= taken - (if stop then 1 else 0)
        invariant Uninterrupted(turns) ==> |events| == taken - (if stop then 1 else 0)
        decreases |turns| - taken
      {
        ghost var before, head, more := log, [], [];
        var v;
        v, stop, o, etype, head, more := Step(turns[taken], o, etype);
        EventLog.GivenTurn(before, head, more, v, NULL);
        if v != NULL {
          events := events + [v];
        }
        taken := taken + 1;
      }
      EventLog.ProperFaithful(log);
    }
  }

  // A poll that fails after a timer has gone off leaves the type of that turn standing, so that the next
  // timer is taken however far its deadline is ahead.
  method FiresEarly(p: EventPool, o0: int, now: int, later: int, etype0: int) returns (x: int, y: int)
    requires p.Valid() && o0 == p.offs && p.pending == {} && |p.timers| >= 2 && 0 <= p.timers[1] < |p.items|
    requires later < p.items[p.timers[1]].tvMs
    modifies p
    ensures p.Valid() && old(p.timers) == [x, y] + p.timers
    ensures p.log == old(p.log) + [EventLog.Fired(x), EventLog.Fired(y)]
  {
    hide EventPool.Valid;
    hide Earliest;
    hide SameBut;
    var o, etype;
    ghost var fires;
    x, o, etype, fires := p.NextEventTv(o0, now, Timeout, etype0);
    assert old(p.timers)[1..] == p.timers;
    y, o, etype, fires := p.NextEventTv(o, later, Failed, etype);
  }

  method TwoEntries() returns (p: EventPool, x: int, y: int)
    ensures fresh(p) && p.Valid() && p.offs == -1 && p.pending == {} && p.timers == []
    ensures p.LiveSet() == {x, y} && x != y
  {
    hide EventPool.Valid;
    hide EventPool.LiveSet;
    p := new EventPool(2);
    x := p.AddEvent(1, 0);
    y := p.AddEvent(2, 0);
  }

  lemma QueuedFirst(items: seq<Eval>, v: int, deadline: int, ts: seq<int>)
    requires Queued(items, [], v, deadline, ts)
    ensures ts == [v]
  {
  }

  lemma QueuedLast(items: seq<Eval>, x: int, v: int, deadline: int, ts: seq<int>)
    requires 0 <= x < |items| && Queued(items, [x], v, deadline, ts) && items[x].tvMs < deadline
    ensures ts == [x, v]
  {
    var p :| Slot(items, [x], p, deadline) && ts == With([x], p, v);
    assert p == 1;
  }

  // Such a pool: two entries, one that waits for `first` and one that waits for `second`.
  method TwoTimers(first: int, second: int) returns (p: EventPool, x: int, y: int)
    requires 0 < first < second
    ensures fresh(p) && p.Valid() && p.offs == -1 && p.pending == {} && p.timers == [x, y]
    ensures 0 <= x < |p.items| && 0 <= y < |p.items| && p.items[x].tvMs == first && p.items[y].tvMs == second
  {
    hide EventPool.Valid;
    hide EventPool.LiveSet;
    hide Queued;
    p, x, y := TwoEntries();
    ghost var items := p.items;
    p.SetTimer(x, first);
    QueuedFirst(items, x, first, p.timers);
    items := p.items;
    p.SetTimer(y, second);
    QueuedLast(items, x, y, second, p.timers);
  }

  // So both go off by the time `first`, whatever the deadline of the other.
  method BothFire(first: int, second: int) returns (p: EventPool, x: int, y: int)
    requires 0 < first < second
    ensures fresh(p) && p.Valid() && p.timers == [] && |p.log| >= 2 && x != y
    ensures p.log[|p.log| - 2..] == [EventLog.Fired(x), EventLog.Fired(y)]
  {
    p, x, y := TwoTimers(first, second);
    hide EventPool.Valid;
    var a, b := FiresEarly(p, -1, 0, first, -1);
  }
}
