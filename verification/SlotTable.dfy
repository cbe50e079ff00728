/**
 The slot table of `conev.c`: `links` lists the entries, the live ones first, and
 `pevents` holds the poll record of each slot.

 While the results of one poll are handed out from the highest slot down, callbacks
 add entries at the end of the table and remove entries by moving the last one into
 the freed slot.
 */
module SlotTable {
  import opened TimerList

  datatype PollFd = PollFd(fd: int, events: int, revents: int)

  ghost predicate Perm(links: seq<int>) {
    && (forall i :: 0 <= i < |links| ==> 0 <= links[i] < |links|)
    && (forall i, j :: 0 <= i < j < |links| ==> links[i] != links[j])
  }

  ghost function Live(links: seq<int>, count: int): set<int>
    requires 0 <= count <= |links|
  {
    set i | 0 <= i < count :: links[i]
  }

  // The live entry of slot `i` knows its slot, and its poll record is its own.
  ghost predicate SlotOk(items: seq<Eval>, links: seq<int>, pevents: seq<PollFd>, iters: nat, i: int)
    requires Perm(links) && |items| == |links| == |pevents| && 0 <= i < |links|
  {
    var e := items[links[i]];
    e.index == i && e.fd > 0 && pevents[i].fd == e.fd && e.modIter <= iters
  }

  ghost predicate Table(items: seq<Eval>, links: seq<int>, pevents: seq<PollFd>, count: int, iters: nat) {
    && Perm(links) && |items| == |links| == |pevents| && 0 <= count <= |links|
    && forall i :: 0 <= i < count ==> SlotOk(items, links, pevents, iters, i)
  }

  // Slot `i` still has an event to hand out.
  ghost predicate Waiting(items: seq<Eval>, links: seq<int>, pevents: seq<PollFd>, iters: nat, i: int)
    requires Perm(links) && |items| == |links| == |pevents| && 0 <= i < |links|
  {
    pevents[i].revents != 0 && items[links[i]].modIter != iters
  }

  // What the scan, which stands at slot `offs`, will find.
  ghost predicate SlotDue(items: seq<Eval>, links: seq<int>, pevents: seq<PollFd>, count: int, iters: nat, offs: int,
                          pending: set<int>, i: int)
    requires Perm(links) && |items| == |links| == |pevents| && 0 <= i < |links|
  {
    && (i < count ==> (links[i] in pending <==> Waiting(items, links, pevents, iters, i)))
    && (i < count && offs < i ==> links[i] !in pending)
    && (count <= i <= offs ==> items[links[i]].modIter == iters)
  }

  // `pending` are the entries that poll reported and that are still to be handed out.
  ghost predicate Round(items: seq<Eval>, links: seq<int>, pevents: seq<PollFd>, count: int, iters: nat, offs: int,
                        pending: set<int>) {
    && Perm(links) && |items| == |links| == |pevents| && 0 <= count <= |links| && -1 <= offs < |links|
    && pending <= Live(links, count)
    && forall i :: 0 <= i < |links| ==> SlotDue(items, links, pevents, count, iters, offs, pending, i)
  }

  ghost predicate InSlot(items: seq<Eval>, v: int, count: int) {
    0 <= v < |items| && 0 <= items[v].index < count
  }

  lemma SlotIndex(items: seq<Eval>, links: seq<int>, pevents: seq<PollFd>, count: int, iters: nat, i: int)
    requires Table(items, links, pevents, count, iters) && 0 <= i < count
    ensures 0 <= links[i] < |items| && items[links[i]].index == i
  {
    assert SlotOk(items, links, pevents, iters, i);
  }

  lemma LiveSlot(items: seq<Eval>, links: seq<int>, pevents: seq<PollFd>, count: int, iters: nat, v: int)
    requires Table(items, links, pevents, count, iters) && v in Live(links, count)
    ensures 0 <= v < |items| && 0 <= items[v].index < count && links[items[v].index] == v
    ensures items[v].fd > 0 && pevents[items[v].index].fd == items[v].fd
  {
    var i :| 0 <= i < count && links[i] == v;
    assert SlotOk(items, links, pevents, iters, i);
  }

  // The fields of an entry that the table depends on.
  ghost predicate SameSlots(items: seq<Eval>, items': seq<Eval>) {
    && |items'| == |items|
    && forall x :: 0 <= x < |items| ==>
        && items'[x].fd == items[x].fd && items'[x].index == items[x].index
        && items'[x].modIter == items[x].modIter
  }

  lemma TableSame(items: seq<Eval>, items': seq<Eval>, links: seq<int>, pevents: seq<PollFd>, count: int, iters: nat)
    requires Table(items, links, pevents, count, iters) && SameSlots(items, items')
    ensures Table(items', links, pevents, count, iters)
  {
    forall i | 0 <= i < count
      ensures SlotOk(items', links, pevents, iters, i)
    {
      assert SlotOk(items, links, pevents, iters, i);
    }
  }

  lemma RoundSame(items: seq<Eval>, items': seq<Eval>, links: seq<int>, pevents: seq<PollFd>, count: int, iters: nat,
                  offs: int, pending: set<int>)
    requires Round(items, links, pevents, count, iters, offs, pending) && SameSlots(items, items')
    ensures Round(items', links, pevents, count, iters, offs, pending)
  {
    forall i | 0 <= i < |links|
      ensures SlotDue(items', links, pevents, count, iters, offs, pending, i)
    {
      assert SlotDue(items, links, pevents, count, iters, offs, pending, i);
    }
  }

  // ---- Adding -------------------------------------------------------------------

  lemma AddTable(items: seq<Eval>, links: seq<int>, pevents: seq<PollFd>, count: int, iters: nat, fd: int, events: int)
    requires Table(items, links, pevents, count, iters) && count < |links| && fd > 0
    ensures var v := links[count];
      && v !in Live(links, count) && Live(links, count + 1) == Live(links, count) + {v}
      && Table(items[v := Eval(fd, count, iters, 0, NULL, NULL, NULL)], links,
               pevents[count := PollFd(fd, events, 0)], count + 1, iters)
  {
    var v := links[count];
    var items' := items[v := Eval(fd, count, iters, 0, NULL, NULL, NULL)];
    var pevents' := pevents[count := PollFd(fd, events, 0)];
    forall i | 0 <= i < count + 1
      ensures SlotOk(items', links, pevents', iters, i)
    {
      if i < count { assert SlotOk(items, links, pevents, iters, i); }
    }
  }

  lemma AddRound(items: seq<Eval>, links: seq<int>, pevents: seq<PollFd>, count: int, iters: nat, offs: int,
                 pending: set<int>,
                 fd: int, events: int)
    requires Round(items, links, pevents, count, iters, offs, pending) && count < |links| && links[count] !in pending
    ensures var v := links[count];
      Round(items[v := Eval(fd, count, iters, 0, NULL, NULL, NULL)], links,
            pevents[count := PollFd(fd, events, 0)], count + 1, iters,
            offs, pending)
  {
    var v := links[count];
    var items' := items[v := Eval(fd, count, iters, 0, NULL, NULL, NULL)];
    var pevents' := pevents[count := PollFd(fd, events, 0)];
    var more := count + 1;
    assert Live(links, count) <= Live(links, more);
    forall i | 0 <= i < |links|
      ensures SlotDue(items', links, pevents', more, iters, offs, pending, i)
    {
      assert SlotDue(items, links, pevents, count, iters, offs, pending, i);
    }
  }

  // ---- Removing -----------------------------------------------------------------

  // The slots after the entry of slot `k` has made room for the last one.
  function Moved<T>(s: seq<T>, k: int, last: int): (r: seq<T>)
    requires 0 <= k <= last < |s|
    ensures |r| == |s|
  {
    s[k := s[last]]
  }

  // The tables after `v` has been closed.
  function ClosedLinks(links: seq<int>, k: int, last: int): (r: seq<int>)
    requires 0 <= k <= last < |links|
    ensures |r| == |links|
  {
    links[k := links[last]][last := links[k]]
  }

  function ClosedItems(items: seq<Eval>, v: int, ev: int, k: int, iters: nat): (r: seq<Eval>)
    requires 0 <= v < |items| && 0 <= ev < |items|
    ensures |r| == |items|
  {
    var a := items[v := items[v].(fd := -1, modIter := iters)];
    if ev != v then a[ev := a[ev].(index := k)] else a
  }

  lemma ClosePerm(links: seq<int>, k: int, last: int)
    requires Perm(links) && 0 <= k <= last < |links|
    ensures Perm(ClosedLinks(links, k, last))
    ensures Live(ClosedLinks(links, k, last), last) == Live(links, last + 1) - {links[k]}
  {
    var ls := ClosedLinks(links, k, last);
    forall x | x in Live(links, last + 1) - {links[k]}
      ensures x in Live(ls, last)
    {
      var i :| 0 <= i < last + 1 && links[i] == x;
      assert ls[if i == last then k else i] == x;
    }
    forall i | 0 <= i < last
      ensures ls[i] in Live(links, last + 1) - {links[k]}
    {
      assert ls[i] == links[if i == k then last else i];
    }
  }

  lemma CloseTable(items: seq<Eval>, links: seq<int>, pevents: seq<PollFd>, count: int, iters: nat, k: int)
    requires Table(items, links, pevents, count, iters) && 0 <= k < count
    ensures var v, last := links[k], count - 1;
      Table(ClosedItems(items, v, links[last], k, iters), ClosedLinks(links, k, last), Moved(pevents, k, last), last,
            iters)
  {
    var v, last := links[k], count - 1;
    var items', links', pevents' := ClosedItems(items, v, links[last], k, iters), ClosedLinks(links, k,
                                                last), Moved(pevents, k, last);
    ClosePerm(links, k, last);
    forall i | 0 <= i < last
      ensures SlotOk(items', links', pevents', iters, i)
    {
      assert SlotOk(items, links, pevents, iters, if i == k then last else i);
    }
  }

  lemma CloseRound(items: seq<Eval>, links: seq<int>, pevents: seq<PollFd>, count: int, iters: nat, offs: int,
                   pending: set<int>, k: int)
    requires Round(items, links, pevents, count, iters, offs, pending) && 0 <= k < count
    ensures var v, last := links[k], count - 1;
      Round(ClosedItems(items, v, links[last], k, iters), ClosedLinks(links, k, last), Moved(pevents, k, last), last,
            iters,
            offs, pending - {v})
  {
    var v, last := links[k], count - 1;
    var items', links', pevents' := ClosedItems(items, v, links[last], k, iters), ClosedLinks(links, k,
                                                last), Moved(pevents, k, last);
    ClosePerm(links, k, last);
    forall i | 0 <= i < |links|
      ensures SlotDue(items', links', pevents', last, iters, offs, pending - {v}, i)
    {
      assert SlotDue(items, links, pevents, count, iters, offs, pending, i);
      assert SlotDue(items, links, pevents, count, iters, offs, pending, last);
      assert SlotDue(items, links, pevents, count, iters, offs, pending, k);
    }
  }

  // ---- Scanning -----------------------------------------------------------------

  // The slots above `j` have been passed; slot `j` is handed out.
  lemma TakeRound(items: seq<Eval>, links: seq<int>, pevents: seq<PollFd>, count: int, iters: nat, offs: int,
                  pending: set<int>, j: int)
    requires Round(items, links, pevents, count, iters, offs, pending) && 0 <= j <= offs
    requires Waiting(items, links, pevents, iters, j)
    requires forall k :: j < k <= offs ==> !Waiting(items, links, pevents, iters, k)
    ensures j < count && links[j] in pending
    ensures Round(items, links, pevents[j := pevents[j].(revents := 0)], count, iters, j - 1, pending - {links[j]})
  {
    var pevents', pending', offs' := pevents[j := pevents[j].(revents := 0)], pending - {links[j]}, j - 1;
    assert SlotDue(items, links, pevents, count, iters, offs, pending, j);
    forall i | 0 <= i < |links|
      ensures SlotDue(items, links, pevents', count, iters, offs', pending', i)
    {
      assert SlotDue(items, links, pevents, count, iters, offs, pending, i);
    }
  }

  // A scan that finds nothing: everything that was reported is dealt with.
  lemma ScannedAll(items: seq<Eval>, links: seq<int>, pevents: seq<PollFd>, count: int, iters: nat, offs: int,
                   pending: set<int>)
    requires Round(items, links, pevents, count, iters, offs, pending)
    requires forall k :: 0 <= k <= offs ==> !Waiting(items, links, pevents, iters, k)
    ensures pending == {}
  {
    forall i | 0 <= i < count
      ensures links[i] !in pending
    {
      assert SlotDue(items, links, pevents, count, iters, offs, pending, i);
    }
    assert forall x :: x in Live(links, count) ==> x !in pending;
  }

  function Polled(pevents: seq<PollFd>, revents: seq<int>): (r: seq<PollFd>)
    requires |revents| <= |pevents|
    ensures |r| == |pevents|
    ensures forall i :: 0 <= i < |r| ==>
      r[i] == if i < |revents| then pevents[i].(revents := revents[i]) else pevents[i]
    decreases |revents|
  {
    if revents == [] then pevents else
      var k := |revents| - 1;
      Polled(pevents[k := pevents[k].(revents := revents[k])], revents[..k])
  }

  ghost function Reported(links: seq<int>, revents: seq<int>): set<int>
    requires |revents| <= |links|
  {
    set i | 0 <= i < |revents| && revents[i] != 0 :: links[i]
  }

  // The state right after a poll.
  lemma PollRound(items: seq<Eval>, links: seq<int>, pevents: seq<PollFd>, count: int, iters: nat, revents: seq<int>)
    requires Table(items, links, pevents, count, iters) && |revents| == count
    ensures Table(items, links, Polled(pevents, revents), count, iters + 1)
    ensures Round(items, links, Polled(pevents, revents), count, iters + 1, count - 1, Reported(links, revents))
  {
    var pevents', iters', offs', pending' := Polled(pevents, revents), iters + 1, count - 1, Reported(links, revents);
    forall i | 0 <= i < count
      ensures SlotOk(items, links, pevents', iters', i)
    {
      assert SlotOk(items, links, pevents, iters, i);
    }
    forall i | 0 <= i < |links|
      ensures SlotDue(items, links, pevents', count, iters', offs', pending', i)
    {
      if i < count { assert SlotOk(items, links, pevents, iters, i); }
    }
  }
}
