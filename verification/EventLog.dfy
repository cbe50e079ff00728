/**
 What happens in the event pool of `conev.c`, as a sequence of events, and what the polls of it
 promise: a reported entry is handed out once, or closed before its turn.
 */
module EventLog {
  import opened Common

  datatype Event =
    | Polled(reported: set<int>) // poll has reported these entries
    | Handed(v: int)             // next_event has handed out an entry of the round
    | Fired(v: int)              // a timer has gone off
    | Added(v: int)
    | Closed(v: int)

  type Log = seq<Event>

  ghost function Last(log: Log): Event
    requires log != []
  {
    log[|log| - 1]
  }

  ghost function Front(log: Log): Log
    requires log != []
  {
    log[..|log| - 1]
  }

  // The entries that are in the pool.
  ghost function Alive(log: Log): set<int> {
    if log == [] then {} else
      match Last(log)
      case Added(v) => Alive(Front(log)) + {v}
      case Closed(v) => Alive(Front(log)) - {v}
      case _ => Alive(Front(log))
  }

  // The entries of the round that are still to be handed out.
  ghost function Due(log: Log): set<int> {
    if log == [] then {} else
      match Last(log)
      case Polled(reported) => reported
      case Handed(v) => Due(Front(log)) - {v}
      case Closed(v) => Due(Front(log)) - {v}
      case _ => Due(Front(log))
  }

  ghost function Polls(log: Log): nat {
    if log == [] then 0 else Polls(Front(log)) + if Last(log).Polled? then 1 else 0
  }

  // Whether an event can happen, given who is in the pool and what is due.
  ghost predicate Permits(alive: set<int>, due: set<int>, e: Event) {
    match e
    case Polled(reported) => due == {} && reported <= alive
    case Handed(v) => v in due
    case Fired(v) => v in alive
    case Added(v) => v !in alive
    case Closed(v) => v in alive
  }

  ghost predicate Possible(log: Log, e: Event) {
    Permits(Alive(log), Due(log), e)
  }

  ghost predicate Proper(log: Log) {
    log == [] || (Proper(Front(log)) && Possible(Front(log), Last(log)))
  }

  lemma Extended(log: Log, e: Event)
    requires Proper(log) && Possible(log, e)
    ensures Proper(log + [e]) && Front(log + [e]) == log && Last(log + [e]) == e
  {
    assert Front(log + [e]) == log;
  }

  // ---- What a proper log means --------------------------------------------------

  // Nothing has happened to `x` since position `p`, and no poll.
  ghost predicate Quiet(log: Log, p: int, x: int, m: int) {
    0 <= p < m < |log| ==> !log[m].Polled? && log[m] != Handed(x) && log[m] != Closed(x) && log[m] != Added(x)
  }

  // The poll at `p` reported `x`, and nothing has happened to it before position `k`.
  ghost predicate ReportedAt(log: Log, p: int, x: int, k: int) {
    && 0 <= p < k <= |log| && log[p].Polled? && x in log[p].reported
    && forall m {:trigger Quiet(log[..k], p, x, m)} :: Quiet(log[..k], p, x, m)
  }

  // An entry that is handed out was reported by the last poll, and has since been neither handed out
  // nor closed nor added.
  ghost predicate HandedOnce(log: Log, k: int) {
    0 <= k < |log| && log[k].Handed? ==> exists p :: ReportedAt(log, p, log[k].v, k)
  }

  // Between the poll at `p` and the next one at `q` every reported entry is handed out or closed.
  ghost predicate Finished(log: Log, p: int, q: int) {
    0 <= p < q < |log| && log[p].Polled? && log[q].Polled? && (forall m :: p < m < q ==> !log[m].Polled?) ==>
      forall x :: x in log[p].reported ==> Settled(log, p, q, x)
  }

  ghost predicate Settled(log: Log, p: int, q: int, x: int) {
    exists k :: 0 <= p < k < q <= |log| && (log[k] == Handed(x) || log[k] == Closed(x))
  }

  ghost predicate Faithful(log: Log) {
    && (forall k {:trigger HandedOnce(log, k)} :: HandedOnce(log, k))
    && (forall p, q {:trigger Finished(log, p, q)} :: Finished(log, p, q))
  }

  // What is due was reported by the last poll, and is in the pool.
  lemma {:induction false} DueAlive(log: Log)
    requires Proper(log)
    ensures Due(log) <= Alive(log)
    decreases |log|
  {
    if log != [] { DueAlive(Front(log)); }
  }

  lemma {:induction false} DueReported(log: Log, x: int) returns (p: int)
    requires Proper(log) && x in Due(log)
    ensures ReportedAt(log, p, x, |log|)
    decreases |log|
  {
    assert log[..|log|] == log;
    if Last(log).Polled? {
      p := |log| - 1;
    } else {
      var front := Front(log);
      DueAlive(front);
      p := DueReported(front, x);
      assert front[..|front|] == front;
      forall m
        ensures Quiet(log, p, x, m)
      {
        assert Quiet(front, p, x, m);
      }
    }
  }

  // What the last poll reported is still due, or has been handed out or closed.
  lemma {:induction false} DueOrSettled(log: Log, p: int, x: int)
    requires Proper(log) && 0 <= p < |log| && log[p].Polled? && x in log[p].reported
    requires forall m :: p < m < |log| ==> !log[m].Polled?
    ensures x in Due(log) || Settled(log, p, |log|, x)
    decreases |log|
  {
    var front, k := Front(log), |log| - 1;
    if p < k {
      DueOrSettled(front, p, x);
      if Settled(front, p, |front|, x) {
        var j :| 0 <= p < j < |front| && (front[j] == Handed(x) || front[j] == Closed(x));
        assert log[j] == front[j];
      } else if x !in Due(log) {
        assert log[k] == Handed(x) || log[k] == Closed(x);
      }
    }
  }

  lemma {:induction false} ProperPrefix(log: Log, k: nat)
    requires Proper(log) && k <= |log|
    ensures Proper(log[..k]) && (k < |log| ==> Possible(log[..k], log[k]))
    decreases |log|
  {
    if k < |log| - 1 {
      ProperPrefix(Front(log), k);
      assert Front(log)[..k] == log[..k];
    } else if k == |log| {
      assert log[..k] == log;
    }
  }

  // Every proper log keeps the promise.
  lemma ProperFaithful(log: Log)
    requires Proper(log)
    ensures Faithful(log)
  {
    forall k
      ensures HandedOnce(log, k)
    {
      if 0 <= k < |log| && log[k].Handed? {
        ProperPrefix(log, k);
        var p := DueReported(log[..k], log[k].v);
        assert log[..k][..k] == log[..k];
        assert ReportedAt(log, p, log[k].v, k);
      }
    }
    forall p, q
      ensures Finished(log, p, q)
    {
      if 0 <= p < q < |log| && log[p].Polled? && log[q].Polled? && (forall m :: p < m < q ==> !log[m].Polled?) {
        RoundFinished(log, p, q);
      }
    }
  }

  lemma RoundFinished(log: Log, p: int, q: int)
    requires Proper(log) && 0 <= p < q < |log| && log[p].Polled? && log[q].Polled?
    requires forall m :: p < m < q ==> !log[m].Polled?
    ensures forall x :: x in log[p].reported ==> Settled(log, p, q, x)
  {
    ProperPrefix(log, q);
    forall x | x in log[p].reported
      ensures Settled(log, p, q, x)
    {
      DueOrSettled(log[..q], p, x);
      var j :| 0 <= p < j < q && (log[..q][j] == Handed(x) || log[..q][j] == Closed(x));
      assert log[j] == log[..q][j];
    }
  }

  // ---- Parts of a log -----------------------------------------------------------

  // What the callbacks were called for.
  ghost function Given(log: Log): seq<int> {
    if log == [] then [] else
      Given(Front(log)) + if Last(log).Handed? || Last(log).Fired? then [Last(log).v] else []
  }

  // Entries come and go, and nothing else.
  ghost predicate Outside(log: Log) {
    forall k :: 0 <= k < |log| ==> log[k].Added? || log[k].Closed?
  }

  ghost function Closings(vs: seq<int>): Log {
    if vs == [] then [] else [Closed(vs[0])] + Closings(vs[1..])
  }

  lemma {:induction false} ClosingsOutside(vs: seq<int>)
    ensures Outside(Closings(vs))
  {
    if vs != [] { ClosingsOutside(vs[1..]); }
  }

  lemma {:induction false} GivenSplit(a: Log, b: Log)
    ensures Given(a + b) == Given(a) + Given(b)
    decreases |b|
  {
    if b == [] {
      assert a + b == a;
    } else {
      GivenSplit(a, Front(b));
      assert Front(a + b) == a + Front(b) && Last(a + b) == Last(b);
    }
  }

  lemma {:induction false} OutsideGiven(b: Log)
    requires Outside(b)
    ensures Given(b) == []
    decreases |b|
  {
    if b != [] { OutsideGiven(Front(b)); }
  }

  lemma {:induction false} ClosingsHas(vs: seq<int>, x: int)
    requires x in vs
    ensures Closed(x) in Closings(vs)
  {
    if x != vs[0] { ClosingsHas(vs[1..], x); }
  }

  lemma ClosingsFirst(log: Log, v: int, vs: seq<int>)
    ensures log + Closings([v] + vs) == log + [Closed(v)] + Closings(vs) && log + Closings([]) == log
  {
    assert ([v] + vs)[1..] == vs;
  }

  // The first events of a turn: what the callback is called for, after a poll or not.
  ghost predicate Opens(head: Log, v: int, none: int) {
    if v == none then head == [] else
      head == [Handed(v)] || head == [Fired(v)] || (|head| == 2 && head[0].Polled? && head[1] == Handed(v))
  }

  lemma OpensGiven(head: Log, v: int, none: int)
    requires Opens(head, v, none)
    ensures Given(head) == if v == none then [] else [v]
  {
    if |head| == 2 {
      assert Front(head) == [head[0]] && Front([head[0]]) == [];
      assert Given([head[0]]) == [];
    } else if |head| == 1 {
      assert Front(head) == [];
    }
  }

  lemma GivenTurn(log: Log, head: Log, more: Log, v: int, none: int)
    requires Opens(head, v, none) && Outside(more)
    ensures Given(log + head + more) == Given(log) + if v == none then [] else [v]
  {
    GivenSplit(log + head, more);
    GivenSplit(log, head);
    OpensGiven(head, v, none);
    OutsideGiven(more);
  }
}
