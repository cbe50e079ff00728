/**
 The packet handlers of `dnsredir.c` and `ttltrack.c` over their trackers.

 `t1 <= t2 <= t3` are the readings of the clock in one call.  Whether a packet looks
 like a DNS message is a parameter.
 */
module Conntrack {
  import opened Common
  import opened TrackKeys
  import opened Tracker

  // ---- dnsredir.c ---------------------------------------------------------------

  datatype Dest = Dest(ip: Addr, port: U16)
  datatype UdpInfo = UdpInfo(v6: bool, src: Addr, sport: U16, dst: Addr, dport: U16)

  // dns_handle_outgoing
  method DnsOutgoing(t: Table<Dest>, v6: bool, src: Addr, sport: U16, dst: Addr, dport: U16, len: nat, isDns: bool,
                     t1: int, t2: int, t3: int) returns (ok: bool)
    requires t.Valid() && 0 < t1 <= t2 <= t3 && t.lastCleanup <= t1
    modifies t, t.table, t.table.app.Keys
    ensures t.Valid() && t.lastCleanup <= t2 && fresh(t.table.app.Keys - old(t.table.app.Keys))
    ensures t.answered == old(t.answered)
    ensures len >= 16 ==> Recent(t.Contents(), t1)
    ensures ok ==>
      && len >= 16 && isDns && sport != 0 && dport != 0
      && t.added == old(t.added) + [Added(UdpKey(v6, src, sport), Dest(CopyAddr(v6, dst), dport))]
      && UdpKey(v6, src, sport) in t.Contents()
      && t.Contents()[UdpKey(v6, src, sport)] == Rec(t3, Dest(CopyAddr(v6, dst), dport))
    ensures !ok ==> t.added == old(t.added)
    ensures Within(old(t.Contents()), if ok then t.Contents() - {UdpKey(v6, src, sport)} else t.Contents())
    ensures Aged(old(t.Contents()), t.Contents(), t.lastCleanup) && old(t.lastCleanup) <= t.lastCleanup
    // A packet that could be tracked is refused exactly while an answer is outstanding for its flow.
    ensures !ok && len >= 16 && isDns && sport != 0 && dport != 0 ==>
      UdpKey(v6, src, sport) in t.Contents() && UdpKey(v6, src, sport) in old(t.Contents())
    ensures ok && UdpKey(v6, src, sport) in old(t.Contents()) ==>
      t.lastCleanup - old(t.Contents())[UdpKey(v6, src, sport)].time >= CLEANUP_INTERVAL_SEC
  {
    ok := false;
    if len >= 16 {
      ok := Note(t, UdpKey(v6, src, sport), Dest(CopyAddr(v6, dst), dport), isDns && sport != 0 && dport != 0, t1, t2,
                 t3);
    }
  }

  // dns_handle_incoming; `i` is the addition that the answer comes from.
  method DnsIncoming(t: Table<Dest>, v6: bool, src: Addr, sport: U16, len: nat, isDns: bool, t1: int, t2: int)
    returns (info: Option<UdpInfo>, ghost i: nat)
    requires t.Valid() && 0 < t1 <= t2 && t.lastCleanup <= t1
    modifies t, t.table, t.table.app.Keys
    ensures t.Valid() && t.lastCleanup <= t2 && t.table.app.Keys <= old(t.table.app.Keys) && t.added == old(t.added)
    ensures len >= 16 ==> Recent(t.Contents(), t1)
    // The answer names the flow that was asked for and comes from its own, unused, addition.
    ensures info.Some? ==>
      && UdpKey(v6, src, sport) in old(t.Contents())
      && len >= 16 && isDns && t1 - old(t.Contents())[UdpKey(v6, src, sport)].time < 2 * CLEANUP_INTERVAL_SEC
      && i < |t.added| && i !in old(t.answered) && t.answered == old(t.answered) + {i}
      && t.added[i] == Added(UdpKey(v6, src, sport), Dest(info.value.dst, info.value.dport))
      && info.value.v6 == v6 && info.value.src == CopyAddr(v6, src) && info.value.sport == sport
      && UdpKey(v6, src, sport) !in t.Contents()
      && old(t.Contents())[UdpKey(v6, src, sport)].data == Dest(info.value.dst, info.value.dport)
    ensures info.None? ==> t.answered == old(t.answered)
    ensures Within(old(t.Contents()), t.Contents()) && old(t.lastCleanup) <= t.lastCleanup
    ensures var was := old(t.Contents());
      Aged(if info.Some? then was - {UdpKey(v6, src, sport)} else was, t.Contents(), t.lastCleanup)
    // A reply goes unanswered only if nothing is outstanding for its flow.
    ensures info.None? && len >= 16 && isDns ==> UdpKey(v6, src, sport) !in t.Contents()
  {
    info, i := None, 0;
    if len < 16 {
      return;
    }
    if isDns {
      var key := UdpKey(v6, src, sport);
      var data;
      data, i := Redeem(t, key, t1, t2);
      UdpKeyRound(v6, src, sport);
      if data.Some? {
        var six := key[0] == SIX;
        info := Some(UdpInfo(six, CopyAddr(six, AddrAt(key, 1)), HalfAt(key, 17), data.value.ip, data.value.port));
      }
    } else {
      t.Cleanup(t1, t2);
    }
  }

  // ---- ttltrack.c ---------------------------------------------------------------

  datatype TcpInfo = TcpInfo(v6: bool, ttl: Byte, src: Addr, dst: Addr, sport: U16, dport: U16)

  // Cleans up, and adds a record if the packet has both of its ports.
  method Note<V>(t: Table<V>, key: Key, data: V, ports: bool, t1: int, t2: int, t3: int) returns (ok: bool)
    requires t.Valid() && 0 < t1 <= t2 <= t3 && t.lastCleanup <= t1
    modifies t, t.table, t.table.app.Keys
    ensures t.Valid() && t.lastCleanup <= t2 && fresh(t.table.app.Keys - old(t.table.app.Keys))
    ensures t.answered == old(t.answered)
    ensures Recent(t.Contents(), t1) && (ok ==> ports) && (ports ==> key in t.Contents())
    ensures t.added == if ok then old(t.added) + [Added(key, data)] else old(t.added)
    ensures Within(old(t.Contents()), if ok then t.Contents() - {key} else t.Contents())
    ensures Aged(old(t.Contents()), t.Contents(), t.lastCleanup) && old(t.lastCleanup) <= t.lastCleanup
    ensures ok ==> t.Contents()[key] == Rec(t3, data)
    // A record is not replaced before it has grown too old.
    ensures ports && !ok ==> key in old(t.Contents())
    ensures ok && key in old(t.Contents()) ==>
      t.lastCleanup - old(t.Contents())[key].time >= CLEANUP_INTERVAL_SEC
  {
    hide Within;
    hide Aged;
    hide Recent;
    ghost var was := t.Contents();
    t.Cleanup(t1, t2);
    ok := false;
    if ports {
      RecentAdd(t.Contents(), t1, key, Rec(t3, data));
      SweptAdd(was, t.Contents(), t.lastCleanup, key, Rec(t3, data));
      ok := t.Insert(key, data, t3);
    }
  }

  // Cleans up, and hands out the record of a key.
  method Redeem<V>(t: Table<V>, key: Key, t1: int, t2: int) returns (data: Option<V>, ghost i: nat)
    requires t.Valid() && 0 < t1 <= t2 && t.lastCleanup <= t1
    modifies t, t.table, t.table.app.Keys
    ensures t.Valid() && t.lastCleanup <= t2 && t.table.app.Keys <= old(t.table.app.Keys) && t.added == old(t.added)
    ensures Recent(t.Contents(), t1) && key !in t.Contents() && old(t.lastCleanup) <= t.lastCleanup
    ensures Within(old(t.Contents()), t.Contents())
    ensures Aged(if data.Some? then old(t.Contents()) - {key} else old(t.Contents()), t.Contents(), t.lastCleanup)
    ensures data.Some? ==>
      && key in old(t.Contents()) && old(t.Contents())[key].data == data.value
      && i < |t.added| && i !in old(t.answered) && t.answered == old(t.answered) + {i}
      && t.added[i] == Added(key, data.value)
      && t1 - old(t.Contents())[key].time < 2 * CLEANUP_INTERVAL_SEC
    ensures data.None? ==> t.answered == old(t.answered)
  {
    hide Within;
    hide Aged;
    hide Recent;
    ghost var was := t.Contents();
    t.Cleanup(t1, t2);
    SweptTake(was, t.Contents(), t.lastCleanup, key);
    RecentTake(t.Contents(), t1, key);
    data, i := t.Take(key);
  }

  // tcp_handle_incoming
  method TcpIncoming(t: Table<Byte>, v6: bool, src: Addr, dst: Addr, sport: U16, dport: U16, ttl: Byte,
                     t1: int, t2: int, t3: int) returns (ok: bool)
    requires t.Valid() && 0 < t1 <= t2 <= t3 && t.lastCleanup <= t1
    modifies t, t.table, t.table.app.Keys
    ensures t.Valid() && t.lastCleanup <= t2 && fresh(t.table.app.Keys - old(t.table.app.Keys))
    ensures t.answered == old(t.answered)
    ensures Recent(t.Contents(), t1)
    ensures ok ==>
      && sport != 0 && dport != 0
      && t.added == old(t.added) + [Added(TcpKey(v6, src, dst, sport, dport), ttl)]
    ensures !ok ==> t.added == old(t.added)
    ensures Within(old(t.Contents()), if ok then t.Contents() - {TcpKey(v6, src, dst, sport, dport)} else t.Contents())
    ensures Aged(old(t.Contents()), t.Contents(), t.lastCleanup) && old(t.lastCleanup) <= t.lastCleanup
    ensures ok ==> TcpKey(v6, src, dst, sport, dport) in t.Contents()
    ensures ok ==> t.Contents()[TcpKey(v6, src, dst, sport, dport)] == Rec(t3, ttl)
    ensures sport != 0 && dport != 0 ==> TcpKey(v6, src, dst, sport, dport) in t.Contents()
    ensures sport != 0 && dport != 0 && !ok ==> TcpKey(v6, src, dst, sport, dport) in old(t.Contents())
    ensures ok && TcpKey(v6, src, dst, sport, dport) in old(t.Contents()) ==>
      t.lastCleanup - old(t.Contents())[TcpKey(v6, src, dst, sport, dport)].time >= CLEANUP_INTERVAL_SEC
  {
    ok := Note(t, TcpKey(v6, src, dst, sport, dport), ttl, sport != 0 && dport != 0, t1, t2, t3);
  }

  // tcp_handle_outgoing: looks for the record of the packet that this one answers.
  method TcpOutgoing(t: Table<Byte>, v6: bool, src: Addr, dst: Addr, sport: U16, dport: U16, t1: int, t2: int)
    returns (info: Option<TcpInfo>, ghost i: nat)
    requires t.Valid() && 0 < t1 <= t2 && t.lastCleanup <= t1
    modifies t, t.table, t.table.app.Keys
    ensures t.Valid() && t.lastCleanup <= t2 && t.table.app.Keys <= old(t.table.app.Keys) && t.added == old(t.added)
    ensures Recent(t.Contents(), t1)
    // The answer comes from the unused addition of the mirrored flow.
    ensures info.Some? ==>
      && i < |t.added| && i !in old(t.answered) && t.answered == old(t.answered) + {i}
      && t.added[i] == Added(TcpKey(v6, dst, src, dport, sport), info.value.ttl)
      && info.value.v6 == v6 && info.value.src == CopyAddr(v6, dst) && info.value.dst == CopyAddr(v6, src)
      && info.value.sport == dport && info.value.dport == sport
      && TcpKey(v6, dst, src, dport, sport) in old(t.Contents())
      && old(t.Contents())[TcpKey(v6, dst, src, dport, sport)].data == info.value.ttl
      && t1 - old(t.Contents())[TcpKey(v6, dst, src, dport, sport)].time < 2 * CLEANUP_INTERVAL_SEC
    ensures Within(old(t.Contents()), t.Contents()) && old(t.lastCleanup) <= t.lastCleanup
    ensures info.None? ==> t.answered == old(t.answered)
    ensures Aged(if info.Some? then old(t.Contents()) - {TcpKey(v6, dst, src, dport, sport)} else old(t.Contents()),
                 t.Contents(), t.lastCleanup)
    ensures TcpKey(v6, dst, src, dport, sport) !in t.Contents()
  {
    var key := TcpKey(v6, dst, src, dport, sport);
    var ttl;
    ttl, i := Redeem(t, key, t1, t2);
    TcpKeyRound(v6, dst, src, dport, sport);
    info := None;
    if ttl.Some? {
      var six := key[0] == SIX;
      info := Some(TcpInfo(six, ttl.value, CopyAddr(six, AddrAt(key, 1)), CopyAddr(six, AddrAt(key, 17)),
                           HalfAt(key, 33), HalfAt(key, 35)));
    }
  }

  // ---- Runs ---------------------------------------------------------------------

  // The clock never goes back.
  datatype Clock = Clock(t1: int, t2: int, t3: int)

  ghost predicate Ticks(c: Clock) {
    0 < c.t1 <= c.t2 <= c.t3
  }

  ghost predicate Clocked(clocks: seq<Clock>) {
    && (forall j :: 0 <= j < |clocks| ==> Ticks(clocks[j]))
    && (forall i, j :: 0 <= i < j < |clocks| ==> clocks[i].t3 <= clocks[j].t1)
  }

  // What a call came to: a record was stored, or refused, or one was told, or there was none to tell.
  datatype Fact<V> =
    | Stored(key: Key, data: V, time: int)
    | Refused(key: Key, now: int)
    | Told(key: Key, data: V, now: int)
    | Missed(key: Key, now: int)
    | Nothing

  ghost predicate About<V>(f: Fact<V>, key: Key) {
    (f.Stored? || f.Told?) && f.key == key
  }

  // At `i` a record was stored under the key, and until `j` none was stored or told again.
  ghost predicate Outstanding<V>(h: seq<Fact<V>>, i: int, j: int, key: Key) {
    && 0 <= i < j <= |h| && h[i].Stored? && h[i].key == key
    && forall m {:trigger h[m]} :: i < m < j ==> !About(h[m], key)
  }

  // What is told is the record that is outstanding for the key; a record is refused only while one is
  // outstanding, and neither happens when it is twice the interval old; and what is outstanding is neither
  // replaced nor missed within the interval.
  ghost predicate Justified<V>(h: seq<Fact<V>>, j: int) {
    0 <= j < |h| ==>
      match h[j]
      case Told(key, data, now) =>
        exists i :: Outstanding(h, i, j, key) && h[i].data == data && now - h[i].time < 2 * CLEANUP_INTERVAL_SEC
      case Refused(key, now) =>
        exists i :: Outstanding(h, i, j, key) && now - h[i].time < 2 * CLEANUP_INTERVAL_SEC
      case Missed(key, now) => forall i :: Outstanding(h, i, j, key) ==> now - h[i].time >= CLEANUP_INTERVAL_SEC
      case Stored(key, data, time) =>
        forall i :: Outstanding(h, i, j, key) ==> time - h[i].time >= CLEANUP_INTERVAL_SEC
      case Nothing => true
  }

  ghost predicate AllJustified<V>(h: seq<Fact<V>>) {
    forall j {:trigger Justified(h, j)} :: Justified(h, j)
  }

  // So no record is told twice.
  lemma ToldOnce<V>(h: seq<Fact<V>>, i: int, j: int, j': int)
    requires 0 <= j < j' < |h| && h[j].Told? && h[j'].Told? && Outstanding(h, i, j, h[j].key)
    ensures !Outstanding(h, i, j', h[j'].key)
  {
  }

  // The record that is kept under a key is outstanding.
  ghost predicate Backed<V>(h: seq<Fact<V>>, contents: map<Key, Rec<V>>, k: Key) {
    k in contents ==> exists i :: Outstanding(h, i, |h|, k) && Rec(h[i].time, h[i].data) == contents[k]
  }

  // What is outstanding is kept, unless it has grown too old.
  ghost predicate Retained<V>(h: seq<Fact<V>>, contents: map<Key, Rec<V>>, last: int, k: Key, i: int) {
    Outstanding(h, i, |h|, k) && k !in contents ==> last - h[i].time >= CLEANUP_INTERVAL_SEC
  }

  ghost predicate Current<V>(h: seq<Fact<V>>, contents: map<Key, Rec<V>>, last: int) {
    && (forall k {:trigger Backed(h, contents, k)} :: Backed(h, contents, k))
    && (forall k, i {:trigger Retained(h, contents, last, k, i)} :: Retained(h, contents, last, k, i))
  }

  // How a call that comes to `f` changes the records.
  ghost predicate Follows<V>(contents: map<Key, Rec<V>>, contents': map<Key, Rec<V>>, last: int, f: Fact<V>) {
    match f
    case Stored(key, data, time) =>
      && Within(contents, contents' - {key}) && Aged(contents, contents', last)
      && key in contents' && contents'[key] == Rec(time, data) && last <= time
      && (key in contents ==> last - contents[key].time >= CLEANUP_INTERVAL_SEC)
    case Told(key, data, now) =>
      && Within(contents, contents') && Aged(contents - {key}, contents', last)
      && key !in contents' && key in contents && contents[key].data == data
      && now - contents[key].time < 2 * CLEANUP_INTERVAL_SEC
    case Refused(key, now) =>
      && Within(contents, contents') && Aged(contents, contents', last)
      && key in contents' && now - contents'[key].time < 2 * CLEANUP_INTERVAL_SEC
    case Missed(key, now) =>
      Within(contents, contents') && Aged(contents, contents', last) && key !in contents' && last <= now
    case Nothing => Within(contents, contents') && Aged(contents, contents', last)
  }

  lemma OutstandingOn<V>(h: seq<Fact<V>>, i: int, key: Key, f: Fact<V>)
    ensures i < |h| && !About(f, key) ==> (Outstanding(h + [f], i, |h| + 1, key) <==> Outstanding(h, i, |h|, key))
    ensures i < |h| && About(f, key) ==> !Outstanding(h + [f], i, |h| + 1, key)
    ensures Outstanding(h + [f], |h|, |h| + 1, key) <==> f.Stored? && f.key == key
  {
    var g := h + [f];
    assert g[|h|] == f;
    if 0 <= i < |h| { assert g[i] == h[i]; }
    assert forall m :: i < m < |h| && 0 <= m ==> g[m] == h[m];
  }

  lemma OutstandingOne<V>(h: seq<Fact<V>>, i: int, i': int, key: Key)
    requires Outstanding(h, i, |h|, key) && Outstanding(h, i', |h|, key)
    ensures i == i'
  {
  }

  lemma BackedOn<V>(h: seq<Fact<V>>, contents: map<Key, Rec<V>>, contents': map<Key, Rec<V>>, last: int, f: Fact<V>,
                    k: Key)
    requires Backed(h, contents, k) && Follows(contents, contents', last, f)
    ensures Backed(h + [f], contents', k)
  {
    var g := h + [f];
    if k in contents' {
      OutstandingOn(h, |h|, k, f);
      if !About(f, k) {
        assert f.Stored? ==> k in contents' - {f.key};
        var i :| Outstanding(h, i, |h|, k) && Rec(h[i].time, h[i].data) == contents[k];
        OutstandingOn(h, i, k, f);
        assert g[i] == h[i];
      } else {
        assert g[|h|] == f;
      }
    }
  }

  lemma RetainedOn<V>(h: seq<Fact<V>>, contents: map<Key, Rec<V>>, contents': map<Key, Rec<V>>, last: int, last': int,
                      f: Fact<V>, k: Key, i: int)
    requires Backed(h, contents, k) && Retained(h, contents, last, k, i) && last <= last'
    requires Follows(contents, contents', last', f)
    ensures Retained(h + [f], contents', last', k, i)
  {
    if Outstanding(h + [f], i, |h| + 1, k) && k !in contents' {
      OutstandingOn(h, i, k, f);
      OutstandingOn(h, |h|, k, f);
      assert (h + [f])[i] == h[i];
      if k in contents {
        var i' :| Outstanding(h, i', |h|, k) && Rec(h[i'].time, h[i'].data) == contents[k];
        OutstandingOne(h, i, i', k);
        assert f.Told? ==> k in contents - {f.key};
      }
    }
  }

  lemma JustifiedOld<V>(h: seq<Fact<V>>, f: Fact<V>, j: int)
    requires Justified(h, j) && j < |h|
    ensures Justified(h + [f], j)
  {
    var g := h + [f];
    if 0 <= j {
      assert g[j] == h[j];
      forall i, key
        ensures Outstanding(g, i, j, key) <==> Outstanding(h, i, j, key)
      {
        assert forall m :: i < m < j && 0 <= m ==> g[m] == h[m];
        if 0 <= i < j { assert g[i] == h[i]; }
      }
    }
  }

  lemma JustifiedNew<V>(h: seq<Fact<V>>, contents: map<Key, Rec<V>>, contents': map<Key, Rec<V>>, last: int,
                        last': int, f: Fact<V>)
    requires Current(h, contents, last) && Follows(contents, contents', last', f) && last <= last'
    ensures Justified(h + [f], |h|)
  {
    var g, n := h + [f], |h|;
    assert g[n] == f;
    if !f.Nothing? {
      assert Backed(h, contents, f.key);
      forall i
        ensures Outstanding(g, i, n, f.key) <==> Outstanding(h, i, n, f.key)
      {
        assert forall m :: i < m < n && 0 <= m ==> g[m] == h[m];
        if 0 <= i < n { assert g[i] == h[i]; }
      }
      if f.Missed? || f.Stored? {
        forall i | Outstanding(g, i, n, f.key)
          ensures (if f.Missed? then f.now else f.time) - g[i].time >= CLEANUP_INTERVAL_SEC
        {
          assert Retained(h, contents, last, f.key, i);
          if f.key in contents {
            var i' :| Outstanding(h, i', n, f.key) && Rec(h[i'].time, h[i'].data) == contents[f.key];
            OutstandingOne(h, i, i', f.key);
          }
        }
      }
    }
  }

  lemma HistoryEmpty<V>(contents: map<Key, Rec<V>>, last: int)
    requires contents == map[]
    ensures AllJustified<V>([]) && Current([], contents, last)
  {
  }

  // The history after a call.
  lemma HistoryOn<V>(h: seq<Fact<V>>, contents: map<Key, Rec<V>>, contents': map<Key, Rec<V>>, last: int, last': int,
                     f: Fact<V>)
    requires AllJustified(h) && Current(h, contents, last) && Follows(contents, contents', last', f) && last <= last'
    ensures AllJustified(h + [f]) && Current(h + [f], contents', last')
  {
    var g := h + [f];
    forall j
      ensures Justified(g, j)
    {
      assert Justified(h, j);
      if j < |h| {
        JustifiedOld(h, f, j);
      } else if j == |h| {
        JustifiedNew(h, contents, contents', last, last', f);
      }
    }
    forall k
      ensures Backed(g, contents', k)
    {
      assert Backed(h, contents, k);
      BackedOn(h, contents, contents', last', f, k);
    }
    forall k, i
      ensures Retained(g, contents', last', k, i)
    {
      assert Backed(h, contents, k) && Retained(h, contents, last, k, i);
      RetainedOn(h, contents, contents', last, last', f, k, i);
    }
  }

  // ---- Runs of dnsredir.c -------------------------------------------------------

  datatype DnsPacket =
    | DnsOut(v6: bool, src: Addr, sport: U16, dst: Addr, dport: U16, len: nat, isDns: bool)
    | DnsIn(v6: bool, src: Addr, sport: U16, len: nat, isDns: bool)

  datatype DnsResult = Tracked(ok: bool) | Answered(info: Option<UdpInfo>)

  // The key of the flow a packet belongs to.
  function DnsKey(p: DnsPacket): Key {
    UdpKey(p.v6, p.src, p.sport)
  }

  // A packet the tracker deals with.
  ghost predicate DnsProper(p: DnsPacket) {
    p.len >= 16 && p.isDns && (p.DnsOut? ==> p.sport != 0 && p.dport != 0)
  }

  ghost function DnsFact(p: DnsPacket, c: Clock, r: DnsResult): Fact<Dest> {
    match r
    case Tracked(ok) =>
      if ok && p.DnsOut? then Stored(DnsKey(p), Dest(CopyAddr(p.v6, p.dst), p.dport), c.t3)
      else if DnsProper(p) then Refused(DnsKey(p), c.t1) else Nothing
    case Answered(info) =>
      if info.Some? then Told(DnsKey(p), Dest(info.value.dst, info.value.dport), c.t1)
      else if DnsProper(p) then Missed(DnsKey(p), c.t2) else Nothing
  }

  ghost function DnsFacts(ps: seq<DnsPacket>, cs: seq<Clock>, rs: seq<DnsResult>): seq<Fact<Dest>>
    requires |rs| <= |ps| == |cs|
  {
    seq(|rs|, j requires 0 <= j < |rs| => DnsFact(ps[j], cs[j], rs[j]))
  }

  // Outgoing packets are tracked and incoming ones answered, with the flow they belong to.
  ghost predicate DnsFits(p: DnsPacket, r: DnsResult) {
    match r
    case Tracked(ok) => p.DnsOut? && (ok ==> DnsProper(p))
    case Answered(info) => p.DnsIn? && (info.Some? ==>
        DnsProper(p) && info.value.v6 == p.v6 && info.value.src == CopyAddr(p.v6, p.src) && info.value.sport == p.sport)
  }

  ghost predicate DnsAllFit(ps: seq<DnsPacket>, rs: seq<DnsResult>) {
    |rs| <= |ps| && forall j :: 0 <= j < |rs| ==> DnsFits(ps[j], rs[j])
  }

  lemma DnsOn(ps: seq<DnsPacket>, cs: seq<Clock>, rs: seq<DnsResult>, r: DnsResult)
    requires DnsAllFit(ps, rs) && |rs| < |ps| == |cs| && DnsFits(ps[|rs|], r)
    ensures DnsAllFit(ps, rs + [r])
    ensures DnsFacts(ps, cs, rs + [r]) == DnsFacts(ps, cs, rs) + [DnsFact(ps[|rs|], cs[|rs|], r)]
  {
  }

  method DnsStep(t: Table<Dest>, p: DnsPacket, c: Clock, ghost h: seq<Fact<Dest>>) returns (r: DnsResult)
    requires t.Valid() && Ticks(c) && t.lastCleanup <= c.t1 && AllJustified(h)
    requires Current(h, t.Contents(), t.lastCleanup)
    modifies t, t.table, t.table.app.Keys
    ensures t.Valid() && t.lastCleanup <= c.t3 && fresh(t.table.app.Keys - old(t.table.app.Keys))
    ensures DnsFits(p, r) && AllJustified(h + [DnsFact(p, c, r)])
    ensures Current(h + [DnsFact(p, c, r)], t.Contents(), t.lastCleanup)
    ensures p.len >= 16 ==> Recent(t.Contents(), c.t1)
  {
    ghost var was, last := t.Contents(), t.lastCleanup;
    if p.DnsOut? {
      var ok := DnsOutgoing(t, p.v6, p.src, p.sport, p.dst, p.dport, p.len, p.isDns, c.t1, c.t2, c.t3);
      r := Tracked(ok);
    } else {
      var info;
      ghost var i;
      info, i := DnsIncoming(t, p.v6, p.src, p.sport, p.len, p.isDns, c.t1, c.t2);
      r := Answered(info);
    }
    HistoryOn(h, was, t.Contents(), last, t.lastCleanup, DnsFact(p, c, r));
  }

  // A run after the results `rs`.
  ghost predicate DnsGoing(t: Table<Dest>, ps: seq<DnsPacket>, cs: seq<Clock>, rs: seq<DnsResult>)
    reads t, t.table, t.table.app.Keys, t.table.chain.Keys
  {
    && t.Valid() && |rs| <= |ps| == |cs| && Clocked(cs) && DnsAllFit(ps, rs)
    && AllJustified(DnsFacts(ps, cs, rs)) && Current(DnsFacts(ps, cs, rs), t.Contents(), t.lastCleanup)
    && t.lastCleanup <= (if rs == [] then 0 else cs[|rs| - 1].t3)
    && (rs != [] && ps[|rs| - 1].len >= 16 ==> Recent(t.Contents(), cs[|rs| - 1].t1))
  }

  method DnsNext(t: Table<Dest>, ps: seq<DnsPacket>, cs: seq<Clock>, rs: seq<DnsResult>) returns (r: DnsResult)
    requires DnsGoing(t, ps, cs, rs) && |rs| < |ps|
    modifies t, t.table, t.table.app.Keys
    ensures DnsGoing(t, ps, cs, rs + [r]) && fresh(t.table.app.Keys - old(t.table.app.Keys))
  {
    hide AllJustified;
    hide Current;
    hide Recent;
    hide DnsFits;
    hide DnsAllFit;
    hide DnsFacts;
    hide DnsFact;
    r := DnsStep(t, ps[|rs|], cs[|rs|], DnsFacts(ps, cs, rs));
    DnsOn(ps, cs, rs, r);
  }

  // Over every run of the handlers with a clock that never goes back, each answer repeats the one
  // outstanding record of its flow; and after each call that cleans up, every record is under 60 seconds old.
  method DnsRun(t: Table<Dest>, packets: seq<DnsPacket>, clocks: seq<Clock>) returns (results: seq<DnsResult>)
    requires t.Valid() && t.lastCleanup == 0 && |packets| == |clocks| && Clocked(clocks)
    modifies t, t.table, t.table.app.Keys
    ensures t.Valid() && |results| == |packets| && DnsAllFit(packets, results)
    ensures AllJustified(DnsFacts(packets, clocks, results))
    ensures packets != [] && packets[|packets| - 1].len >= 16 ==> Recent(t.Contents(), clocks[|clocks| - 1].t1)
  {
    results := [];
    HistoryEmpty(t.Contents(), t.lastCleanup);
    assert DnsFacts(packets, clocks, []) == [];
    assert DnsGoing(t, packets, clocks, []);
    for j := 0 to |packets|
      invariant |results| == j && DnsGoing(t, packets, clocks, results)
      invariant fresh(t.table.app.Keys - old(t.table.app.Keys))
    {
      hide DnsGoing;
      var r := DnsNext(t, packets, clocks, results);
      results := results + [r];
    }
  }

  // ---- Runs of ttltrack.c -------------------------------------------------------

  datatype TcpPacket =
    | TcpIn(v6: bool, src: Addr, dst: Addr, sport: U16, dport: U16, ttl: Byte)
    | TcpOut(v6: bool, src: Addr, dst: Addr, sport: U16, dport: U16)

  datatype TcpResult = Noted(ok: bool) | Found(info: Option<TcpInfo>)

  // The key of an incoming packet; an outgoing one has that of the packet it answers.
  function TcpFlow(p: TcpPacket): Key {
    match p
    case TcpIn(v6, src, dst, sport, dport, ttl) => TcpKey(v6, src, dst, sport, dport)
    case TcpOut(v6, src, dst, sport, dport) => TcpKey(v6, dst, src, dport, sport)
  }

  ghost function TcpFact(p: TcpPacket, c: Clock, r: TcpResult): Fact<Byte> {
    match r
    case Noted(ok) =>
      if ok && p.TcpIn? then Stored(TcpFlow(p), p.ttl, c.t3)
      else if p.sport != 0 && p.dport != 0 then Refused(TcpFlow(p), c.t1) else Nothing
    case Found(info) => if info.Some? then Told(TcpFlow(p), info.value.ttl, c.t1) else Missed(TcpFlow(p), c.t2)
  }

  ghost function TcpFacts(ps: seq<TcpPacket>, cs: seq<Clock>, rs: seq<TcpResult>): seq<Fact<Byte>>
    requires |rs| <= |ps| == |cs|
  {
    seq(|rs|, j requires 0 <= j < |rs| => TcpFact(ps[j], cs[j], rs[j]))
  }

  // Incoming packets are noted and outgoing ones looked up, with both ends exchanged.
  ghost predicate TcpFits(p: TcpPacket, r: TcpResult) {
    match r
    case Noted(ok) => p.TcpIn? && (ok ==> p.sport != 0 && p.dport != 0)
    case Found(info) => p.TcpOut? && (info.Some? ==>
        && info.value.v6 == p.v6 && info.value.src == CopyAddr(p.v6, p.dst) && info.value.dst == CopyAddr(p.v6, p.src)
        && info.value.sport == p.dport && info.value.dport == p.sport)
  }

  ghost predicate TcpAllFit(ps: seq<TcpPacket>, rs: seq<TcpResult>) {
    |rs| <= |ps| && forall j :: 0 <= j < |rs| ==> TcpFits(ps[j], rs[j])
  }

  lemma TcpOn(ps: seq<TcpPacket>, cs: seq<Clock>, rs: seq<TcpResult>, r: TcpResult)
    requires TcpAllFit(ps, rs) && |rs| < |ps| == |cs| && TcpFits(ps[|rs|], r)
    ensures TcpAllFit(ps, rs + [r])
    ensures TcpFacts(ps, cs, rs + [r]) == TcpFacts(ps, cs, rs) + [TcpFact(ps[|rs|], cs[|rs|], r)]
  {
  }

  method TcpStep(t: Table<Byte>, p: TcpPacket, c: Clock, ghost h: seq<Fact<Byte>>) returns (r: TcpResult)
    requires t.Valid() && Ticks(c) && t.lastCleanup <= c.t1 && AllJustified(h)
    requires Current(h, t.Contents(), t.lastCleanup)
    modifies t, t.table, t.table.app.Keys
    ensures t.Valid() && t.lastCleanup <= c.t3 && fresh(t.table.app.Keys - old(t.table.app.Keys))
    ensures TcpFits(p, r) && AllJustified(h + [TcpFact(p, c, r)])
    ensures Current(h + [TcpFact(p, c, r)], t.Contents(), t.lastCleanup)
    ensures Recent(t.Contents(), c.t1)
  {
    ghost var was, last := t.Contents(), t.lastCleanup;
    if p.TcpIn? {
      var ok := TcpIncoming(t, p.v6, p.src, p.dst, p.sport, p.dport, p.ttl, c.t1, c.t2, c.t3);
      r := Noted(ok);
    } else {
      var info;
      ghost var i;
      info, i := TcpOutgoing(t, p.v6, p.src, p.dst, p.sport, p.dport, c.t1, c.t2);
      r := Found(info);
    }
    HistoryOn(h, was, t.Contents(), last, t.lastCleanup, TcpFact(p, c, r));
  }

  // A run after the results `rs`.
  ghost predicate TcpGoing(t: Table<Byte>, ps: seq<TcpPacket>, cs: seq<Clock>, rs: seq<TcpResult>)
    reads t, t.table, t.table.app.Keys, t.table.chain.Keys
  {
    && t.Valid() && |rs| <= |ps| == |cs| && Clocked(cs) && TcpAllFit(ps, rs)
    && AllJustified(TcpFacts(ps, cs, rs)) && Current(TcpFacts(ps, cs, rs), t.Contents(), t.lastCleanup)
    && t.lastCleanup <= (if rs == [] then 0 else cs[|rs| - 1].t3)
    && (rs != [] ==> Recent(t.Contents(), cs[|rs| - 1].t1))
  }

  method TcpNext(t: Table<Byte>, ps: seq<TcpPacket>, cs: seq<Clock>, rs: seq<TcpResult>) returns (r: TcpResult)
    requires TcpGoing(t, ps, cs, rs) && |rs| < |ps|
    modifies t, t.table, t.table.app.Keys
    ensures TcpGoing(t, ps, cs, rs + [r]) && fresh(t.table.app.Keys - old(t.table.app.Keys))
  {
    hide AllJustified;
    hide Current;
    hide Recent;
    hide TcpFits;
    hide TcpAllFit;
    hide TcpFacts;
    hide TcpFact;
    r := TcpStep(t, ps[|rs|], cs[|rs|], TcpFacts(ps, cs, rs));
    TcpOn(ps, cs, rs, r);
  }

  method TcpRun(t: Table<Byte>, packets: seq<TcpPacket>, clocks: seq<Clock>) returns (results: seq<TcpResult>)
    requires t.Valid() && t.lastCleanup == 0 && |packets| == |clocks| && Clocked(clocks)
    modifies t, t.table, t.table.app.Keys
    ensures t.Valid() && |results| == |packets| && TcpAllFit(packets, results)
    ensures AllJustified(TcpFacts(packets, clocks, results))
    ensures packets != [] ==> Recent(t.Contents(), clocks[|clocks| - 1].t1)
  {
    results := [];
    HistoryEmpty(t.Contents(), t.lastCleanup);
    assert TcpFacts(packets, clocks, []) == [];
    assert TcpGoing(t, packets, clocks, []);
    for j := 0 to |packets|
      invariant |results| == j && TcpGoing(t, packets, clocks, results)
      invariant fresh(t.table.app.Keys - old(t.table.app.Keys))
    {
      hide TcpGoing;
      var r := TcpNext(t, packets, clocks, results);
      results := results + [r];
    }
  }
}
