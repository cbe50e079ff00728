/**
 The one-shot trackers of `dnsredir.c` and `ttltrack.c`: a record is kept under a key,
 answers one lookup, and is swept out by a lazy cleanup.
 */
module Tracker {
  import opened Common
  import opened HashLinks
  import opened Uthash
  import opened TrackKeys

  const CLEANUP_INTERVAL_SEC: int := 30

  datatype Rec<V> = Rec(time: int, data: V)

  // Every record is less than two intervals old.
  ghost predicate Recent<V>(contents: map<Key, Rec<V>>, now: int) {
    forall k :: k in contents ==> now - contents[k].time < 2 * CLEANUP_INTERVAL_SEC
  }

  lemma RecentAdd<V>(contents: map<Key, Rec<V>>, now: int, key: Key, r: Rec<V>)
    requires Recent(contents, now) && now <= r.time
    ensures Recent(contents[key := r], now)
  {
  }

  lemma RecentTake<V>(contents: map<Key, Rec<V>>, now: int, key: Key)
    requires Recent(contents, now)
    ensures Recent(contents - {key}, now)
    ensures key in contents ==> now - contents[key].time < 2 * CLEANUP_INTERVAL_SEC
  {
  }

  // Records that are kept are as they were,
  ghost predicate Within<V>(contents: map<Key, Rec<V>>, contents': map<Key, Rec<V>>) {
    forall k :: k in contents' ==> k in contents && contents'[k] == contents[k]
  }

  // and those that are not have grown too old.
  ghost predicate Aged<V>(contents: map<Key, Rec<V>>, contents': map<Key, Rec<V>>, last: int) {
    forall k :: k in contents && k !in contents' ==> last - contents[k].time >= CLEANUP_INTERVAL_SEC
  }

  // A record is added after a sweep,
  lemma SweptAdd<V>(was: map<Key, Rec<V>>, mid: map<Key, Rec<V>>, last: int, key: Key, r: Rec<V>)
    requires Within(was, mid) && Aged(was, mid, last)
    ensures Within(was, mid[key := r] - {key}) && Aged(was, mid[key := r], last)
    ensures key in was && key !in mid ==> last - was[key].time >= CLEANUP_INTERVAL_SEC
  {
  }

  // or taken.
  lemma SweptTake<V>(was: map<Key, Rec<V>>, mid: map<Key, Rec<V>>, last: int, key: Key)
    requires Within(was, mid) && Aged(was, mid, last)
    ensures Within(was, mid - {key}) && Aged(was - {key}, mid - {key}, last)
    ensures key in mid ==> key in was && was[key] == mid[key]
    ensures key !in mid ==> Aged(was, mid - {key}, last)
  {
  }

  // The records that a sweep at `limit` leaves.
  ghost predicate Swept<V>(was: map<Key, Rec<V>>, now: map<Key, Rec<V>>, limit: int) {
    && (forall k :: k in now ==> k in was && now[k] == was[k] && limit - was[k].time < CLEANUP_INTERVAL_SEC)
    && (forall k :: k in was && k !in now ==> limit - was[k].time >= CLEANUP_INTERVAL_SEC)
  }

  // The sweep while it stands before `rest`; `gone` are the keys it has removed.
  ghost predicate Sweeping<V>(was: map<Key, Rec<V>>, now: map<Key, Rec<V>>, order: seq<Item<Key, Rec<V>>>,
                              kept: seq<Item<Key, Rec<V>>>, rest: seq<Item<Key, Rec<V>>>, gone: set<Key>, limit: int) {
    && order == kept + rest && now == was - gone
    && (forall i :: 0 <= i < |kept| ==> limit - kept[i].value.time < CLEANUP_INTERVAL_SEC)
    && (forall k :: k in gone ==> k in was && limit - was[k].time >= CLEANUP_INTERVAL_SEC)
  }

  lemma SweepDone<V>(hash: Key -> nat, was: map<Key, Rec<V>>, order: seq<Item<Key, Rec<V>>>,
                     kept: seq<Item<Key, Rec<V>>>,
                     gone: set<Key>, limit: int)
    requires Keyed(hash, order) && Sweeping(was, ContentsOf(order), order, kept, [], gone, limit)
    ensures Swept(was, ContentsOf(order), limit)
  {
    forall k | k in ContentsOf(order)
      ensures k in was && ContentsOf(order)[k] == was[k] && limit - was[k].time < CLEANUP_INTERVAL_SEC
    {
      ContentsAt(hash, order, k);
      var i :| 0 <= i < |order| && order[i].key == k;
      assert order[i] == kept[i];
    }
  }

  lemma SweepKeep<V>(was: map<Key, Rec<V>>, now: map<Key, Rec<V>>, order: seq<Item<Key, Rec<V>>>,
                     kept: seq<Item<Key, Rec<V>>>, rest: seq<Item<Key, Rec<V>>>, gone: set<Key>, limit: int)
    requires Sweeping(was, now, order, kept, rest, gone, limit) && rest != []
    requires limit - rest[0].value.time < CLEANUP_INTERVAL_SEC
    ensures Sweeping(was, now, order, kept + [rest[0]], rest[1..], gone, limit)
  {
    assert kept + rest == kept + [rest[0]] + rest[1..];
  }

  lemma SweepDrop<V>(hash: Key -> nat, was: map<Key, Rec<V>>, order: seq<Item<Key, Rec<V>>>,
                     kept: seq<Item<Key, Rec<V>>>, rest: seq<Item<Key, Rec<V>>>, gone: set<Key>, limit: int,
                     order': seq<Item<Key, Rec<V>>>)
    requires Keyed(hash, order) && Distinct(order) && Sweeping(was, ContentsOf(order), order, kept, rest, gone, limit)
    requires rest != [] && limit - rest[0].value.time >= CLEANUP_INTERVAL_SEC && DeletedFrom(order, rest[0], order')
    ensures Sweeping(was, ContentsOf(order) - {rest[0].key}, order', kept, rest[1..], gone + {rest[0].key}, limit)
  {
    var p := |kept|;
    assert order[p] == rest[0];
    DeletedAt(order, p, order');
    ContentsAt(hash, order, rest[0].key);
    assert Without(order, p) == kept + rest[1..];
  }

  // The element after the one at which the walk stands.
  lemma SweepNext<V>(app: Links<Key, Rec<V>>, order: seq<Item<Key, Rec<V>>>, kept: seq<Item<Key, Rec<V>>>,
                     rest: seq<Item<Key, Rec<V>>>)
    requires DList(app, order) && order == kept + rest && rest != []
    ensures rest[0] in app && rest[0] in order && app[rest[0]].next == At(rest[1..], 0)
  {
    assert Linked(app, order, |kept|);
  }

  datatype Added<V> = Added(key: Key, data: V)

  // Every record is one of the additions, and that addition has not answered yet.
  ghost predicate Logged<V>(contents: map<Key, Rec<V>>, added: seq<Added<V>>, owner: map<Key, nat>,
                            answered: set<nat>) {
    && (forall i :: i in answered ==> i < |added|)
    && forall k :: k in contents ==>
        && k in owner && owner[k] < |added| && owner[k] !in answered
        && added[owner[k]] == Added(k, contents[k].data)
  }

  // No record was older than the interval at the last cleanup.
  ghost predicate RecordsOk<V>(contents: map<Key, Rec<V>>, added: seq<Added<V>>, owner: map<Key, nat>,
                               answered: set<nat>, last: int) {
    && Logged(contents, added, owner, answered) && 0 <= last && (last == 0 ==> contents == map[])
    && forall k :: k in contents ==> last - contents[k].time < CLEANUP_INTERVAL_SEC
  }

  lemma RecordsAdd<V>(contents: map<Key, Rec<V>>, added: seq<Added<V>>, owner: map<Key, nat>, answered: set<nat>,
                      last: int,
                      key: Key, now: int, data: V)
    requires RecordsOk(contents, added, owner, answered, last) && 0 < last <= now
    ensures RecordsOk(contents[key := Rec(now, data)], added + [Added(key, data)], owner[key := |added|], answered,
                      last)
  {
    LoggedAdd(contents, added, owner, answered, key, Rec(now, data));
  }

  lemma RecordsTake<V>(contents: map<Key, Rec<V>>, added: seq<Added<V>>, owner: map<Key, nat>, answered: set<nat>,
                       last: int, key: Key)
    requires RecordsOk(contents, added, owner, answered, last) && key in contents
    ensures key in owner && owner[key] < |added| && added[owner[key]] == Added(key, contents[key].data)
    ensures owner[key] !in answered
    ensures RecordsOk(contents - {key}, added, owner, answered + {owner[key]}, last)
  {
    OwnersApart(contents - {key}, added, owner, answered, key, owner[key]);
  }

  lemma LoggedAdd<V>(contents: map<Key, Rec<V>>, added: seq<Added<V>>, owner: map<Key, nat>, answered: set<nat>,
                     key: Key, r: Rec<V>)
    requires Logged(contents, added, owner, answered)
    ensures Logged(contents[key := r], added + [Added(key, r.data)], owner[key := |added|], answered)
  {
  }

  class Table<V> {
    const table: HashTable<Key, Rec<V>>
    var lastCleanup: int
    ghost var added: seq<Added<V>>    // all additions so far,
    ghost var owner: map<Key, nat>    // the one that a key last came from,
    ghost var answered: set<nat>      // and those that have been handed out

    ghost function Contents(): map<Key, Rec<V>>
      reads this, table
    {
      table.Contents()
    }

    ghost predicate Valid()
      reads this, table, table.app.Keys, table.chain.Keys
    {
      table.Valid() && RecordsOk(Contents(), added, owner, answered, lastCleanup)
    }

    constructor (hash: Key -> nat)
      ensures Valid() && fresh(table) && Contents() == map[] && lastCleanup == 0 && table.order == []
      ensures table.app == map[] && table.chain == map[]
      ensures added == [] && answered == {}
    {
      table := new HashTable(hash);
      lastCleanup := 0;
      added, owner, answered := [], map[], {};
    }

    // One turn of HASH_ITER in the cleanup.
    method SweepOne(el: Item<Key, Rec<V>>, limit: int, ghost was: map<Key, Rec<V>>,
                    ghost kept: seq<Item<Key, Rec<V>>>, ghost rest: seq<Item<Key, Rec<V>>>, ghost gone: set<Key>)
      returns (next: Item?<Key, Rec<V>>, ghost kept': seq<Item<Key, Rec<V>>>, ghost gone': set<Key>)
      requires table.Valid() && Sweeping(was, table.Contents(), table.order, kept, rest, gone, limit)
      requires rest != [] && el == rest[0]
      modifies table, table.app.Keys
      ensures table.Valid() && Sweeping(was, table.Contents(), table.order, kept', rest[1..], gone', limit)
      ensures next == At(rest[1..], 0) && table.app.Keys <= old(table.app.Keys)
    {
      SweepNext(table.app, table.order, kept, rest);
      next := el.next;
      if limit - el.value.time >= CLEANUP_INTERVAL_SEC {
        ghost var order := table.order;
        table.Delete(el);
        SweepDrop(table.hash, was, order, kept, rest, gone, limit, table.order);
        kept', gone' := kept, gone + {el.key};
      } else {
        SweepKeep(was, table.Contents(), table.order, kept, rest, gone, limit);
        kept', gone' := kept + [el], gone;
      }
    }

    // Removes every record that is older than the interval at `limit`.
    method Sweep(limit: int)
      requires table.Valid()
      modifies table, table.app.Keys
      ensures table.Valid() && Swept(old(table.Contents()), table.Contents(), limit)
      ensures table.app.Keys <= old(table.app.Keys)
    {
      ghost var was, kept, rest, gone := table.Contents(), [], table.order, {};
      var el := table.head;
      while el != null
        invariant table.Valid() && Sweeping(was, table.Contents(), table.order, kept, rest, gone, limit)
        invariant el == At(rest, 0) && table.app.Keys <= old(table.app.Keys)
        decreases |rest|
      {
        el, kept, gone := SweepOne(el, limit, was, kept, rest, gone);
        rest := rest[1..];
      }
      SweepDone(table.hash, was, table.order, kept, gone, limit);
    }

    // dns_cleanup, tcp_cleanup: `t1` and `t2` are the readings of the clock.
    method Cleanup(t1: int, t2: int)
      requires Valid() && 0 < t1 <= t2 && lastCleanup <= t1
      modifies this`lastCleanup, table, table.app.Keys
      ensures Valid() && 0 < lastCleanup <= t2 && table.app.Keys <= old(table.app.Keys)
      ensures Within(old(Contents()), Contents()) && Aged(old(Contents()), Contents(), lastCleanup)
      ensures old(lastCleanup) <= lastCleanup
      ensures Recent(Contents(), t1)
      // The records are swept when the interval has passed since the last time, and not before.
      ensures old(lastCleanup) == 0 || t1 - old(lastCleanup) < CLEANUP_INTERVAL_SEC ==> Contents() == old(Contents())
      ensures 0 < old(lastCleanup) <= t1 - CLEANUP_INTERVAL_SEC ==> Swept(old(Contents()), Contents(), t2)
    {
      if lastCleanup == 0 {
        lastCleanup := t1;
        return;
      }
      if t1 - lastCleanup >= CLEANUP_INTERVAL_SEC {
        lastCleanup := t2;
        Sweep(lastCleanup);
      }
    }

    // Adds a record unless there is one with that key; `now` is the reading of the clock.
    method Insert(key: Key, data: V, now: int) returns (ok: bool)
      requires Valid() && 0 < lastCleanup <= now
      modifies this, table, table.app.Keys
      ensures Valid() && lastCleanup == old(lastCleanup) && fresh(table.app.Keys - old(table.app.Keys))
      ensures answered == old(answered)
      ensures ok <==> key !in old(Contents())
      ensures Contents() == if ok then old(Contents())[key := Rec(now, data)] else old(Contents())
      ensures added == if ok then old(added) + [Added(key, data)] else old(added)
    {
      hide RecordsOk;
      var found := table.Find(key);
      ok := found == null;
      if ok {
        RecordsAdd(Contents(), added, owner, answered, lastCleanup, key, now, data);
        owner := owner[key := |added|];
        added := added + [Added(key, data)];
        Put(key, Rec(now, data));
      }
    }

    // A new record goes into the hash table.
    method Put(key: Key, r: Rec<V>)
      requires table.Valid() && key !in table.Contents()
      modifies table, table.app.Keys
      ensures table.Valid() && table.Contents() == old(table.Contents())[key := r]
      ensures fresh(table.app.Keys - old(table.app.Keys))
    {
      var x := new Item(key, table.hash(key), r);
      table.Add(x);
    }

    // Hands out the record of a key and removes it; `i` is the addition it came from.
    method Take(key: Key) returns (data: Option<V>, ghost i: nat)
      requires Valid()
      modifies this, table, table.app.Keys
      ensures Valid() && lastCleanup == old(lastCleanup) && table.app.Keys <= old(table.app.Keys) && added == old(added)
      ensures data.Some? <==> key in old(Contents())
      ensures Contents() == old(Contents()) - {key}
      ensures data.Some? ==>
        && data.value == old(Contents())[key].data
        && i < |added| && added[i] == Added(key, data.value) && i !in old(answered) && answered == old(answered) + {i}
      ensures data.None? ==> answered == old(answered)
    {
      hide RecordsOk;
      var x := table.Find(key);
      data, i := None, 0;
      if x != null {
        RecordsTake(Contents(), added, owner, answered, lastCleanup, key);
        data, i := Some(x.value.data), owner[key];
        answered := answered + {i};
        table.Delete(x);
      }
    }
  }

  // Records of different keys come from different additions.
  lemma OwnersApart<V>(contents: map<Key, Rec<V>>, added: seq<Added<V>>, owner: map<Key, nat>, answered: set<nat>,
                       key: Key, i: nat)
    requires Logged(contents, added, owner, answered) && key !in contents && i < |added| && added[i].key == key
    ensures Logged(contents, added, owner, answered + {i})
  {
  }

  lemma DeletedAt<T>(s: seq<T>, p: int, s': seq<T>)
    requires Distinct(s) && 0 <= p < |s| && DeletedFrom(s, s[p], s')
    ensures s' == Without(s, p)
  {
  }
}
