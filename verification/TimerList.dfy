/**
 The timer list of `conev.c`: a doubly linked list threaded through the entries
 of the event pool, sorted by deadline.

 Entries refer to each other by their position in the pool's `items` array; `NULL`
 stands for the null pointer.
 */
module TimerList {
  import opened Common

  const NULL: int := -1

  datatype Eval = Eval(fd: int, index: int, modIter: nat, tvMs: int, tvNext: int, tvPrev: int, pair: int)

  // The element at position `k`, or null past either end.
  ghost function At(s: seq<int>, k: int): int {
    if 0 <= k < |s| then s[k] else NULL
  }

  ghost predicate Refs(items: seq<Eval>, ts: seq<int>) {
    && (forall k :: 0 <= k < |ts| ==> 0 <= ts[k] < |items|)
    && (forall j, k :: 0 <= j < k < |ts| ==> ts[j] != ts[k])
  }

  // The links and the deadline of the entry at position `k` of the list.
  ghost predicate Threaded(items: seq<Eval>, ts: seq<int>, k: int)
    requires Refs(items, ts)
  {
    0 <= k < |ts| ==>
      && items[ts[k]].tvNext == At(ts, k + 1) && items[ts[k]].tvPrev == At(ts, k - 1)
      && items[ts[k]].tvMs != 0
      && (0 < k ==> items[ts[k - 1]].tvMs <= items[ts[k]].tvMs)
  }

  // The list from `start` to `end` is `ts`.
  ghost predicate TimersOk(items: seq<Eval>, start: int, end: int, ts: seq<int>) {
    && Refs(items, ts)
    && start == At(ts, 0) && end == At(ts, |ts| - 1)
    && forall k :: Threaded(items, ts, k)
  }

  // An entry that is not in the list has no timer.
  ghost predicate Idle(e: Eval) {
    e.tvMs == 0 && e.tvNext == NULL && e.tvPrev == NULL
  }

  lemma {:induction false} SortedAll(items: seq<Eval>, start: int, end: int, ts: seq<int>, j: nat, k: nat)
    requires TimersOk(items, start, end, ts) && j <= k < |ts|
    ensures items[ts[j]].tvMs <= items[ts[k]].tvMs
    decreases k
  {
    if j < k {
      assert Threaded(items, ts, k);
      SortedAll(items, start, end, ts, j, k - 1);
    }
  }

  // ---- Removal ------------------------------------------------------------------

  // The entries after `v` has been unlinked.
  function Unlinked(items: seq<Eval>, v: int): (r: seq<Eval>)
    requires 0 <= v < |items| && -1 <= items[v].tvPrev < |items| && -1 <= items[v].tvNext < |items|
    ensures |r| == |items|
  {
    var next, prev := items[v].tvNext, items[v].tvPrev;
    var a := if prev != NULL then items[prev := items[prev].(tvNext := next)] else items;
    var b := if next != NULL then a[next := a[next].(tvPrev := prev)] else a;
    b[v := b[v].(tvMs := 0, tvNext := NULL, tvPrev := NULL)]
  }

  lemma WithoutAt(ts: seq<int>, p: int, k: int)
    requires 0 <= p < |ts|
    ensures At(Without(ts, p), k) == if k < p then At(ts, k) else At(ts, k + 1)
  {
  }

  lemma WithoutRefs(items: seq<Eval>, ts: seq<int>, p: int)
    requires Refs(items, ts) && 0 <= p < |ts|
    ensures Refs(items, Without(ts, p)) && ts[p] !in Without(ts, p)
    ensures forall x :: x in ts && x != ts[p] ==> x in Without(ts, p)
    ensures forall x :: x in Without(ts, p) ==> x in ts
  {
    var us := Without(ts, p);
    forall k | 0 <= k < |us|
      ensures us[k] == ts[if k < p then k else k + 1]
    {
    }
    forall k | 0 <= k < |ts| && k != p
      ensures ts[k] == us[if k < p then k else k - 1]
    {
    }
  }

  // What becomes of the other entries: only the neighbours of the one that leaves change.
  lemma UnlinkedAt(items: seq<Eval>, start: int, end: int, ts: seq<int>, p: int, i: int)
    requires TimersOk(items, start, end, ts) && 0 <= p < |ts| && 0 <= i < |ts| && i != p
    ensures -1 <= items[ts[p]].tvPrev < |items| && -1 <= items[ts[p]].tvNext < |items|
    ensures var e, r := items[ts[i]], Unlinked(items, ts[p])[ts[i]];
      && r.tvMs == e.tvMs && r.tvNext == (if i == p - 1 then At(ts, p + 1) else e.tvNext)
      && r.tvPrev == if i == p + 1 then At(ts, p - 1) else e.tvPrev
  {
    assert Threaded(items, ts, p);
  }

  lemma UnlinkOne(items: seq<Eval>, start: int, end: int, ts: seq<int>, p: int, k: int)
    requires TimersOk(items, start, end, ts) && 0 <= p < |ts| && 0 <= k < |ts| - 1
    requires -1 <= items[ts[p]].tvPrev < |items| && -1 <= items[ts[p]].tvNext < |items|
    requires Refs(items, Without(ts, p))
    ensures Threaded(Unlinked(items, ts[p]), Without(ts, p), k)
  {
    var us, i := Without(ts, p), if k < p then k else k + 1;
    assert Threaded(items, ts, i) && Threaded(items, ts, p);
    UnlinkedAt(items, start, end, ts, p, i);
    WithoutAt(ts, p, k - 1);
    WithoutAt(ts, p, k + 1);
    assert us[k] == ts[i];
    if k > 0 {
      var h := if k - 1 < p then k - 1 else k;
      assert us[k - 1] == ts[h];
      UnlinkedAt(items, start, end, ts, p, h);
    }
  }

  // remove_timer on an entry of the list.
  lemma UnlinkTimers(items: seq<Eval>, start: int, end: int, ts: seq<int>, p: int)
    requires TimersOk(items, start, end, ts) && 0 <= p < |ts|
    ensures var v := ts[p];
      && 0 <= v < |items| && -1 <= items[v].tvPrev < |items| && -1 <= items[v].tvNext < |items|
      && TimersOk(Unlinked(items, v), if start == v then items[v].tvNext else start,
                  if end == v then items[v].tvPrev else end, Without(ts, p))
  {
    var us := Without(ts, p);
    assert Threaded(items, ts, p);
    WithoutRefs(items, ts, p);
    WithoutAt(ts, p, 0);
    WithoutAt(ts, p, |us| - 1);
    forall k
      ensures Threaded(Unlinked(items, ts[p]), us, k)
    {
      if 0 <= k < |us| { UnlinkOne(items, start, end, ts, p, k); }
    }
  }

  // ---- Insertion ----------------------------------------------------------------

  ghost function With(ts: seq<int>, p: int, v: int): seq<int>
    requires 0 <= p <= |ts|
  {
    ts[..p] + [v] + ts[p..]
  }

  // The entries after `v` has been linked in between `prev` and `next`.
  function Linked(items: seq<Eval>, v: int, deadline: int, prev: int, next: int): (r: seq<Eval>)
    requires 0 <= v < |items| && -1 <= prev < |items| && -1 <= next < |items|
    ensures |r| == |items|
  {
    var a := items[v := items[v].(tvMs := deadline, tvNext := next, tvPrev := prev)];
    var b := if next != NULL then a[next := a[next].(tvPrev := v)] else a;
    if prev != NULL then b[prev := b[prev].(tvNext := v)] else b
  }

  lemma WithAt(ts: seq<int>, p: int, v: int, k: int)
    requires 0 <= p <= |ts|
    ensures At(With(ts, p, v), k) == if k < p then At(ts, k) else if k == p then v else At(ts, k - 1)
  {
  }

  lemma WithRefs(items: seq<Eval>, ts: seq<int>, p: int, v: int)
    requires Refs(items, ts) && 0 <= p <= |ts| && 0 <= v < |items| && v !in ts
    ensures Refs(items, With(ts, p, v))
    ensures forall x :: x in With(ts, p, v) <==> x in ts || x == v
  {
    var us := With(ts, p, v);
    forall k | 0 <= k < |us|
      ensures us[k] == if k < p then ts[k] else if k == p then v else ts[k - 1]
    {
    }
    forall k | 0 <= k < |ts|
      ensures ts[k] == us[if k < p then k else k + 1]
    {
    }
    assert us[p] == v;
  }

  // `p` is where the search from the end stops.
  ghost predicate Slot(items: seq<Eval>, ts: seq<int>, p: int, deadline: int)
    requires Refs(items, ts)
  {
    && 0 <= p <= |ts|
    && (0 < p ==> items[ts[p - 1]].tvMs < deadline)
    && (p < |ts| ==> items[ts[p]].tvMs >= deadline)
  }

  lemma LinkedAt(items: seq<Eval>, v: int, deadline: int, prev: int, next: int, x: int)
    requires 0 <= v < |items| && -1 <= prev < |items| && -1 <= next < |items| && 0 <= x < |items| && x != v
    ensures var e := Linked(items, v, deadline, prev, next)[x];
      && e.tvMs == items[x].tvMs
      && e.tvNext == (if x == prev then v else items[x].tvNext)
      && e.tvPrev == (if x == next then v else items[x].tvPrev)
  {
  }

  lemma LinkedNew(items: seq<Eval>, v: int, deadline: int, prev: int, next: int)
    requires 0 <= v < |items| && -1 <= prev < |items| && -1 <= next < |items| && v != prev && v != next
    ensures var e := Linked(items, v, deadline, prev, next)[v];
      e.tvMs == deadline && e.tvNext == next && e.tvPrev == prev
  {
  }

  lemma LinkOne(items: seq<Eval>, start: int, end: int, ts: seq<int>, p: int, v: int, deadline: int, k: int)
    requires TimersOk(items, start, end, ts) && Slot(items, ts, p, deadline) && deadline != 0
    requires 0 <= v < |items| && v !in ts && 0 <= k <= |ts|
    ensures -1 <= At(ts, p - 1) < |items| && -1 <= At(ts, p) < |items|
    ensures Refs(items, With(ts, p, v))
    ensures Threaded(Linked(items, v, deadline, At(ts, p - 1), At(ts, p)), With(ts, p, v), k)
  {
    hide With;
    var us, prev, next := With(ts, p, v), At(ts, p - 1), At(ts, p);
    WithRefs(items, ts, p, v);
    WithAt(ts, p, v, k - 1);
    WithAt(ts, p, v, k);
    WithAt(ts, p, v, k + 1);
    if k == p {
      LinkedNew(items, v, deadline, prev, next);
      if 0 < p { LinkedAt(items, v, deadline, prev, next, ts[p - 1]); }
    } else {
      var i := if k < p then k else k - 1;
      assert Threaded(items, ts, i);
      LinkedAt(items, v, deadline, prev, next, ts[i]);
      assert ts[i] == prev <==> i == p - 1;
      assert ts[i] == next <==> i == p;
      if k == p + 1 {
        LinkedNew(items, v, deadline, prev, next);
      } else if 0 < k {
        LinkedAt(items, v, deadline, prev, next, ts[i - 1]);
      }
    }
  }

  // set_timer on an entry that has no timer.
  lemma LinkTimers(items: seq<Eval>, start: int, end: int, ts: seq<int>, p: int, v: int, deadline: int)
    requires TimersOk(items, start, end, ts) && Slot(items, ts, p, deadline) && deadline != 0
    requires 0 <= v < |items| && v !in ts
    ensures var prev, next := At(ts, p - 1), At(ts, p);
      && -1 <= prev < |items| && -1 <= next < |items|
      && TimersOk(Linked(items, v, deadline, prev, next), if start == NULL || next == start then v else start,
                  if end == NULL || prev == end then v else end, With(ts, p, v))
  {
    var us := With(ts, p, v);
    var linked := Linked(items, v, deadline, At(ts, p - 1), At(ts, p));
    WithRefs(items, ts, p, v);
    WithAt(ts, p, v, 0);
    WithAt(ts, p, v, |us| - 1);
    assert Threaded(items, ts, p) && Threaded(items, ts, p - 1);
    forall k
      ensures Threaded(linked, us, k)
    {
      if 0 <= k < |us| { LinkOne(items, start, end, ts, p, v, deadline, k); }
    }
  }
}
