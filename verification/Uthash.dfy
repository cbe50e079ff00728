/**
 The hash table of `uthash.h`: find, add with bucket doubling, and delete.
 */
module Uthash {
  import opened Common
  import opened HashLinks
  import opened HashBuckets
  import opened HashExpand
  import opened HashMask

  const INITIAL_NUM_BUCKETS: nat := 32
  const INITIAL_LOG2: nat := 5
  const CAPACITY_THRESH: nat := 10

  // ---- Link fields, with their record -------------------------------------------

  ghost predicate MirrorsApp<K, V>(m: Links<K, V>)
    reads m.Keys`next, m.Keys`prev
  {
    forall x :: x in m ==> x.next == m[x].next && x.prev == m[x].prev
  }

  ghost predicate MirrorsHh<K, V>(m: Links<K, V>)
    reads m.Keys`hhNext, m.Keys`hhPrev
  {
    forall x :: x in m ==> x.hhNext == m[x].next && x.hhPrev == m[x].prev
  }

  // The stores that put `x` in front of a chain.
  method PushHh<K, V>(x: Item<K, V>, head: Item?<K, V>, ghost m: Links<K, V>) returns (ghost m': Links<K, V>)
    requires MirrorsHh(m) && head != x && (head != null ==> head in m)
    modifies x`hhNext, x`hhPrev, m.Keys`hhPrev
    ensures m' == Pushed(m, head, x) && MirrorsHh(m')
  {
    x.hhNext := head;
    x.hhPrev := null;
    if head != null {
      head.hhPrev := x;
    }
    m' := Pushed(m, head, x);
  }

  // The stores that take `x` out of its chain.
  method UnlinkHh<K, V>(x: Item<K, V>, ghost m: Links<K, V>) returns (ghost m': Links<K, V>)
    requires MirrorsHh(m) && x in m && (m[x].prev != null ==> m[x].prev in m) && (m[x].next != null ==> m[x].next in m)
    requires m[x].prev != x && m[x].next != x
    modifies m.Keys`hhNext, m.Keys`hhPrev
    ensures m' == Unlinked(m, x) && MirrorsHh(m')
  {
    m' := Unlinked(m, x);
    if x.hhPrev != null {
      x.hhPrev.hhNext := x.hhNext;
    }
    if x.hhNext != null {
      x.hhNext.hhPrev := x.hhPrev;
    }
  }

  method AppendApp<K, V>(x: Item<K, V>, tail: Item<K, V>, ghost m: Links<K, V>) returns (ghost m': Links<K, V>)
    requires MirrorsApp(m) && tail in m && tail != x
    modifies x`next, x`prev, m.Keys`next
    ensures m' == Appended(m, tail, x) && MirrorsApp(m')
  {
    x.next := null;
    x.prev := tail;
    tail.next := x;
    m' := Appended(m, tail, x);
  }

  method UnlinkApp<K, V>(x: Item<K, V>, ghost m: Links<K, V>) returns (ghost m': Links<K, V>)
    requires MirrorsApp(m) && x in m && (m[x].prev != null ==> m[x].prev in m) && (m[x].next != null ==> m[x].next in m)
    requires m[x].prev != x && m[x].next != x
    modifies m.Keys`next, m.Keys`prev
    ensures m' == Unlinked(m, x) && MirrorsApp(m')
  {
    m' := Unlinked(m, x);
    if x.prev != null {
      x.prev.next := x.next;
    }
    if x.next != null {
      x.next.prev := x.prev;
    }
  }

  // ---- The state of a table -----------------------------------------------------

  // What HASH_FSCK checks: the items are a list, the buckets hold exactly the items of
  // that list, each in the bucket of its hash, and both counts are right.
  ghost predicate Fsck<K, V>(head: Item?<K, V>, tail: Item?<K, V>, numItems: nat, numBuckets: nat,
                             buckets: seq<Bucket<K, V>>,
                             order: seq<Item<K, V>>, app: Links<K, V>, chain: Links<K, V>,
                             chains: seq<seq<Item<K, V>>>) {
    && DList(app, order) && app.Keys == chain.Keys == Elems(order)
    && head == At(order, 0)
    && (head != null ==>
          && tail == At(order, |order| - 1) && numItems == |order| && numBuckets == |buckets|
          && BucketsOk(chain, buckets, chains) && Holds(chains, Elems(order)))
  }

  // The keys are hashed and no two are the same.
  ghost predicate Keyed<K, V>(hash: K -> nat, order: seq<Item<K, V>>) {
    && (forall i :: 0 <= i < |order| ==> order[i].hashv == hash(order[i].key))
    && (forall i, j :: 0 <= i < j < |order| ==> order[i].key != order[j].key)
  }

  ghost function ContentsOf<K, V>(order: seq<Item<K, V>>): map<K, V> {
    if order == [] then map[] else
      var k := |order| - 1;
      ContentsOf(order[..k])[order[k].key := order[k].value]
  }

  // The contents hold exactly the items.
  lemma {:induction false} ContentsAt<K, V>(hash: K -> nat, order: seq<Item<K, V>>, key: K)
    requires Keyed(hash, order)
    ensures key in ContentsOf(order) <==> exists i :: 0 <= i < |order| && order[i].key == key
    ensures forall i :: 0 <= i < |order| && order[i].key == key ==>
      key in ContentsOf(order) && ContentsOf(order)[key] == order[i].value
    decreases |order|
  {
    if order != [] {
      var k := |order| - 1;
      ContentsAt(hash, order[..k], key);
      if order[k].key == key {
        assert key in ContentsOf(order);
      } else if key in ContentsOf(order[..k]) {
        var i :| 0 <= i < k && order[..k][i].key == key;
        assert order[i].key == key;
      } else {
        assert forall i :: 0 <= i < k ==> order[i] == order[..k][i];
      }
    }
  }

  lemma ContentsAppend<K, V>(order: seq<Item<K, V>>, x: Item<K, V>)
    ensures ContentsOf(order + [x]) == ContentsOf(order)[x.key := x.value]
  {
    assert (order + [x])[..|order|] == order;
  }

  lemma KeyedWithout<K, V>(hash: K -> nat, order: seq<Item<K, V>>, p: int)
    requires Keyed(hash, order) && 0 <= p < |order|
    ensures Keyed(hash, Without(order, p))
  {
    var s := Without(order, p);
    forall i | 0 <= i < |s|
      ensures s[i] == order[if i < p then i else i + 1]
    {
    }
  }

  lemma {:induction false} ContentsWithout<K, V>(hash: K -> nat, order: seq<Item<K, V>>, p: int)
    requires Keyed(hash, order) && 0 <= p < |order|
    ensures Keyed(hash, Without(order, p)) && ContentsOf(Without(order, p)) == ContentsOf(order) - {order[p].key}
    decreases |order|
  {
    var k, s := |order| - 1, Without(order, p);
    KeyedWithout(hash, order, p);
    assert Keyed(hash, order[..k]) && forall i :: 0 <= i < k ==> order[..k][i].key != order[k].key;
    hide Keyed;
    if p == k {
      assert s == order[..k];
      ContentsAt(hash, order[..k], order[k].key);
    } else {
      ContentsWithout(hash, order[..k], p);
      assert s[..k - 1] == Without(order[..k], p);
      assert s[k - 1] == order[k];
    }
  }

  // ---- The counts of HASH_FSCK --------------------------------------------------

  ghost function TotalCount<K, V>(buckets: seq<Bucket<K, V>>, n: int): int
    requires 0 <= n <= |buckets|
  {
    if n == 0 then 0 else TotalCount(buckets, n - 1) + buckets[n - 1].count
  }

  // The items of the first `n` chains.
  ghost function Upto<K, V>(chains: seq<seq<Item<K, V>>>, n: int): set<Item<K, V>>
    requires 0 <= n <= |chains|
  {
    if n == 0 then {} else Upto(chains, n - 1) + Elems(chains[n - 1])
  }

  lemma {:induction false} ElemsCount<T>(s: seq<T>)
    requires Distinct(s)
    ensures |Elems(s)| == |s|
    decreases |s|
  {
    if s != [] {
      var k := |s| - 1;
      ElemsCount(s[..k]);
      assert s == s[..k] + [s[k]];
      ElemsAppend(s[..k], s[k]);
    }
  }

  lemma {:induction false} UptoCount<K, V>(m: Links<K, V>, buckets: seq<Bucket<K, V>>, chains: seq<seq<Item<K, V>>>,
      n: int)
    requires BucketsOk(m, buckets, chains) && 0 <= n <= |chains|
    ensures |Upto(chains, n)| == TotalCount(buckets, n)
    ensures forall x :: x in Upto(chains, n) ==> ToBucket(x.hashv, |chains|) < n
    decreases n
  {
    if n > 0 {
      UptoCount(m, buckets, chains, n - 1);
      assert BucketAt(m, buckets, chains, n - 1);
      ElemsCount(chains[n - 1]);
      assert Upto(chains, n - 1) !! Elems(chains[n - 1]);
    }
  }

  lemma {:induction false} UptoIn<K, V>(chains: seq<seq<Item<K, V>>>, s: set<Item<K, V>>, n: int)
    requires Holds(chains, s) && 0 <= n <= |chains|
    ensures Upto(chains, n) <= s
    ensures forall x :: x in s && ToBucket(x.hashv, |chains|) < n ==> x in Upto(chains, n)
    decreases n
  {
    if n > 0 {
      UptoIn(chains, s, n - 1);
      assert Inside(chains, s, n - 1);
      forall x | x in s && ToBucket(x.hashv, |chains|) < n
        ensures x in Upto(chains, n)
      {
        assert InChain(chains, x);
      }
    }
  }

  // The bucket counts add up to the number of items.
  lemma CountsAddUp<K, V>(head: Item?<K, V>, tail: Item?<K, V>, numItems: nat, numBuckets: nat,
                          buckets: seq<Bucket<K, V>>,
                          order: seq<Item<K, V>>, app: Links<K, V>, chain: Links<K, V>, chains: seq<seq<Item<K, V>>>)
    requires Fsck(head, tail, numItems, numBuckets, buckets, order, app, chain, chains) && head != null
    ensures TotalCount(buckets, numBuckets) == numItems
  {
    UptoCount(chain, buckets, chains, |chains|);
    UptoIn(chains, Elems(order), |chains|);
    ElemsCount(order);
    assert Upto(chains, |chains|) == Elems(order);
  }

  // ---- Steps on the state -------------------------------------------------------

  lemma ElemsAppend<T>(s: seq<T>, x: T)
    ensures Elems(s + [x]) == Elems(s) + {x}
  {
  }

  lemma ElemsWithout<T>(s: seq<T>, p: int)
    requires Distinct(s) && 0 <= p < |s|
    ensures Elems(Without(s, p)) == Elems(s) - {s[p]}
  {
    WithoutDistinct(s, p);
    forall y | y in Elems(s) - {s[p]}
      ensures y in Elems(Without(s, p))
    {
      var i :| 0 <= i < |s| && s[i] == y;
      assert Without(s, p)[if i < p then i else i - 1] == y;
    }
  }

  // The search through the chain of a key's bucket sees every item with that key.
  lemma InItsChain<K, V>(hash: K -> nat, order: seq<Item<K, V>>, chains: seq<seq<Item<K, V>>>, key: K, i: int)
    requires Keyed(hash, order) && Holds(chains, Elems(order)) && 0 <= i < |order| && order[i].key == key
    ensures order[i] in chains[ToBucket(hash(key), |chains|)]
  {
    assert order[i] in Elems(order);
    assert InChain(chains, order[i]);
  }

  // The bucket after one more item has been moved into it.
  function Filled<K, V>(bk: Bucket<K, V>, x: Item<K, V>, ideal: nat): Bucket<K, V> {
    var count := bk.count + 1;
    Bucket(x, count, if count > ideal && count > bk.expandMult * ideal then bk.expandMult + 1 else bk.expandMult)
  }

  // How many items there are beyond the ideal length in the first `k` buckets.
  ghost function Excess<K, V>(buckets: seq<Bucket<K, V>>, k: nat, ideal: nat): nat
    requires k <= |buckets|
  {
    if k == 0 then 0 else
      var c := buckets[k - 1].count;
      Excess(buckets, k - 1, ideal) + if c > ideal then c - ideal else 0
  }

  lemma {:induction false} ExcessAt<K, V>(buckets: seq<Bucket<K, V>>, k: nat, ideal: nat, b: nat, bk: Bucket<K, V>)
    requires k <= |buckets| && b < |buckets| && bk.count == buckets[b].count + 1
    ensures Excess(buckets[b := bk], k, ideal) ==
      Excess(buckets, k, ideal) + if b < k && bk.count > ideal then 1 else 0
  {
    if k > 0 { ExcessAt(buckets, k - 1, ideal, b, bk); }
  }

  lemma {:induction false} ExcessNone<K, V>(buckets: seq<Bucket<K, V>>, k: nat, ideal: nat)
    requires k <= |buckets| && forall b :: 0 <= b < |buckets| ==> buckets[b].count == 0
    ensures Excess(buckets, k, ideal) == 0
  {
    if k > 0 { ExcessNone(buckets, k - 1, ideal); }
  }

  // A bucket within the ideal length may fill up to the threshold, and a longer one to as many times it as
  // its length is times the ideal one.
  ghost predicate Scaled<K, V>(bk: Bucket<K, V>, ideal: nat) {
    if bk.count <= ideal then bk.expandMult == 0
    else ideal > 0 ==> (bk.expandMult - 1) * ideal < bk.count <= bk.expandMult * ideal + 1
  }

  lemma FilledScaled<K, V>(bk: Bucket<K, V>, x: Item<K, V>, ideal: nat)
    requires Scaled(bk, ideal)
    ensures Scaled(Filled(bk, x, ideal), ideal)
  {
    var m := bk.expandMult;
    assert (m + 1) * ideal == m * ideal + ideal && (m - 1) * ideal == m * ideal - ideal;
  }

  // What an expansion finds out about the new buckets.
  ghost predicate Tallied<K, V>(buckets: seq<Bucket<K, V>>, nonideal: nat, ideal: nat) {
    nonideal == Excess(buckets, |buckets|, ideal) && forall b :: 0 <= b < |buckets| ==> Scaled(buckets[b], ideal)
  }

  lemma TalliedOn<K, V>(buckets: seq<Bucket<K, V>>, nonideal: nat, ideal: nat, b: nat, x: Item<K, V>)
    requires Tallied(buckets, nonideal, ideal) && b < |buckets|
    ensures var bk := Filled(buckets[b], x, ideal);
      Tallied(buckets[b := bk], if bk.count > ideal then nonideal + 1 else nonideal, ideal)
  {
    FilledScaled(buckets[b], x, ideal);
    ExcessAt(buckets, |buckets|, ideal, b, Filled(buckets[b], x, ideal));
  }

  lemma EmptyBuckets<K, V>(m: Links<K, V>, buckets: seq<Bucket<K, V>>, chains: seq<seq<Item<K, V>>>)
    requires |buckets| == |chains| > 0
    requires forall b :: 0 <= b < |buckets| ==> buckets[b] == Bucket(null, 0, 0) && chains[b] == []
    ensures BucketsOk(m, buckets, chains) && Holds(chains, {})
  {
    forall b
      ensures BucketAt(m, buckets, chains, b)
    {
      if 0 <= b < |chains| { assert forall k :: Linked(m, chains[b], k); }
    }
    forall b
      ensures Inside(chains, {}, b)
    {
    }
  }

  // A table whose list already has `x` at its end while its buckets do not.
  ghost predicate Enlisted<K, V>(x: Item<K, V>, head: Item?<K, V>, tail: Item?<K, V>, numItems: nat, numBuckets: nat,
                                 buckets: seq<Bucket<K, V>>, order: seq<Item<K, V>>, app: Links<K, V>,
                                 chain: Links<K, V>, chains: seq<seq<Item<K, V>>>, s: set<Item<K, V>>) {
    && DList(app, order) && app.Keys == Elems(order) == s + {x} && x !in s && order != []
    && head == At(order, 0) && tail == At(order, |order| - 1) && numItems == |order| - 1 && numBuckets == |buckets|
    && chain.Keys == s && BucketsOk(chain, buckets, chains) && Holds(chains, s)
  }

  lemma EnlistLast<K, V>(x: Item<K, V>, head: Item?<K, V>, tail: Item<K, V>, numItems: nat, numBuckets: nat,
                         buckets: seq<Bucket<K, V>>, order: seq<Item<K, V>>, app: Links<K, V>, chain: Links<K, V>,
                         chains: seq<seq<Item<K, V>>>)
    requires Fsck(head, tail, numItems, numBuckets, buckets, order, app, chain, chains) && head != null && x !in app
    ensures tail in app && tail != x
    ensures Enlisted(x, head, x, numItems, numBuckets, buckets, order + [x], Appended(app, tail, x), chain, chains,
                     Elems(order))
  {
    Append(app, order, x);
    ElemsAppend(order, x);
  }

  lemma EnlistedHead<K, V>(x: Item<K, V>, head: Item?<K, V>, tail: Item?<K, V>, numItems: nat, numBuckets: nat,
                           buckets: seq<Bucket<K, V>>, order: seq<Item<K, V>>, app: Links<K, V>, chain: Links<K, V>,
                           chains: seq<seq<Item<K, V>>>, s: set<Item<K, V>>, b: int, hd: Item?<K, V>)
    requires Enlisted(x, head, tail, numItems, numBuckets, buckets, order, app, chain, chains, s)
    requires b == ToBucket(x.hashv, |chains|) && hd == buckets[b].hhHead
    ensures hd != x && (hd != null ==> hd in chain && hd in s)
  {
    assert Inside(chains, s, b) && BucketAt(chain, buckets, chains, b);
  }

  lemma EnlistedIn<K, V>(x: Item<K, V>, head: Item?<K, V>, tail: Item?<K, V>, numItems: nat, numBuckets: nat,
                         buckets: seq<Bucket<K, V>>, order: seq<Item<K, V>>, app: Links<K, V>, chain: Links<K, V>,
                         chains: seq<seq<Item<K, V>>>, s: set<Item<K, V>>, b: int, hd: Item?<K, V>, bk: Bucket<K, V>,
                         buckets': seq<Bucket<K, V>>, chain': Links<K, V>, chains': seq<seq<Item<K, V>>>)
    requires Enlisted(x, head, tail, numItems, numBuckets, buckets, order, app, chain, chains, s)
    requires b == ToBucket(x.hashv, |chains|) && hd == buckets[b].hhHead && bk.hhHead == x
    requires bk.count == buckets[b].count + 1
    requires hd != null ==> hd in chain
    requires buckets' == buckets[b := bk] && chain' == Pushed(chain, hd, x) && chains' == chains[b := [x] + chains[b]]
    ensures Fsck(head, tail, numItems + 1, numBuckets, buckets', order, app, chain', chains')
  {
    AddToBucket(chain, buckets, chains, s, x, b, hd, bk);
  }

  lemma DListForget<K, V>(m: Links<K, V>, s: seq<Item<K, V>>, x: Item<K, V>)
    requires DList(m, s) && x !in s
    ensures DList(m - {x}, s)
  {
    DListSame(m, m - {x}, s);
  }

  lemma BucketsForget<K, V>(m: Links<K, V>, buckets: seq<Bucket<K, V>>, chains: seq<seq<Item<K, V>>>,
                            s: set<Item<K, V>>, x: Item<K, V>)
    requires BucketsOk(m, buckets, chains) && Holds(chains, s) && x !in s
    ensures BucketsOk(m - {x}, buckets, chains)
  {
    var m' := m - {x};
    forall b
      ensures BucketAt(m', buckets, chains, b)
    {
      assert BucketAt(m, buckets, chains, b) && Inside(chains, s, b);
      if 0 <= b < |chains| { DListForget(m, chains[b], x); }
    }
  }

  // Where an item is, in the list and in its chain.
  lemma Whereabouts<K, V>(head: Item?<K, V>, tail: Item?<K, V>, numItems: nat, numBuckets: nat,
                          buckets: seq<Bucket<K, V>>,
                          order: seq<Item<K, V>>, app: Links<K, V>, chain: Links<K, V>, chains: seq<seq<Item<K, V>>>,
                          x: Item<K, V>) returns (p: int, q: int)
    requires Fsck(head, tail, numItems, numBuckets, buckets, order, app, chain, chains) && x in order
    ensures 0 <= p < |order| && order[p] == x && head != null
    ensures app[x] == Link(At(order, p + 1), At(order, p - 1))
    ensures Removable(app, x) && Removable(chain, x)
    ensures 0 <= q < |chains[ToBucket(x.hashv, |chains|)]| && chains[ToBucket(x.hashv, |chains|)][q] == x
  {
    p :| 0 <= p < |order| && order[p] == x;
    Remove(app, order, p);
    var b := ToBucket(x.hashv, |chains|);
    assert x in Elems(order);
    assert InChain(chains, x) && BucketAt(chain, buckets, chains, b);
    q :| 0 <= q < |chains[b]| && chains[b][q] == x;
    Remove(chain, chains[b], q);
  }

  // The neighbours of `x` are other recorded items.
  ghost predicate Removable<K, V>(m: Links<K, V>, x: Item<K, V>) {
    && x in m && m[x].prev != x && m[x].next != x
    && (m[x].prev != null ==> m[x].prev in m) && (m[x].next != null ==> m[x].next in m)
  }

  // The bucket after `x` has been taken off its chain.
  function Lessened<K, V>(bk: Bucket<K, V>, x: Item<K, V>): Bucket<K, V>
    requires bk.count > 0
    reads x
  {
    Bucket(if bk.hhHead == x then x.hhNext else bk.hhHead, bk.count - 1, bk.expandMult)
  }

  lemma DeleteStep<K, V>(head: Item?<K, V>, tail: Item?<K, V>, numItems: nat, numBuckets: nat,
                         buckets: seq<Bucket<K, V>>,
                         order: seq<Item<K, V>>, app: Links<K, V>, chain: Links<K, V>, chains: seq<seq<Item<K, V>>>,
                         x: Item<K, V>, p: int, q: int, b: int, bk: Bucket<K, V>)
    requires Fsck(head, tail, numItems, numBuckets, buckets, order, app, chain, chains) && |order| > 1
    requires 0 <= p < |order| && order[p] == x && b == ToBucket(x.hashv, |chains|) && 0 <= q < |chains[b]|
    requires chains[b][q] == x
    requires Removable(app, x) && Removable(chain, x) && app[x] == Link(At(order, p + 1), At(order, p - 1))
    requires bk.count == buckets[b].count - 1
    requires bk.hhHead == if buckets[b].hhHead == x then chain[x].next else buckets[b].hhHead
    ensures Fsck(if app[x].prev == null then app[x].next else head, if x == tail then app[x].prev else tail,
                 numItems - 1, numBuckets,
                 buckets[b := bk], Without(order, p), Unlinked(app, x) - {x}, Unlinked(chain, x) - {x},
                 chains[b := Without(chains[b], q)])
  {
    hide Elems;
    Remove(app, order, p);
    WithoutDistinct(order, p);
    ElemsWithout(order, p);
    WithoutAt(order, p, 0);
    WithoutAt(order, p, |order| - 2);
    DListForget(Unlinked(app, x), Without(order, p), x);
    DelInBucket(chain, buckets, chains, Elems(order), q, x, b, bk);
    BucketsForget(Unlinked(chain, x), buckets[b := bk], chains[b := Without(chains[b], q)], Elems(order) - {x}, x);
  }

  lemma SingleList<K, V>(x: Item<K, V>)
    ensures DList(map[x := Link(null, null)], [x])
  {
    var m: Links<K, V>, s := map[x := Link(null, null)], [x];
    assert forall k :: Linked(m, s, k);
  }

  lemma KeyedAppend<K, V>(hash: K -> nat, order: seq<Item<K, V>>, x: Item<K, V>)
    requires Keyed(hash, order) && x.hashv == hash(x.key) && x.key !in ContentsOf(order)
    ensures Keyed(hash, order + [x])
  {
    ContentsAt(hash, order, x.key);
  }

  ghost predicate DeletedFrom<T>(s: seq<T>, x: T, s': seq<T>) {
    exists p :: 0 <= p < |s| && s[p] == x && s' == Without(s, p)
  }

  lemma OnlyItem<K, V>(order: seq<Item<K, V>>, p: int)
    requires 0 <= p < |order| && At(order, p + 1) == null && At(order, p - 1) == null
    ensures |order| == 1 && Without(order, p) == []
  {
  }

  class HashTable<K(==), V> {
    const hash: K -> nat
    var head: Item?<K, V>
    var tail: Item?<K, V>
    var buckets: seq<Bucket<K, V>>
    var numBuckets: nat
    var log2: nat
    var numItems: nat
    var idealChainMaxlen: nat
    var nonidealItems: nat
    var ineffExpands: nat
    var noexpand: bool
    ghost var order: seq<Item<K, V>>
    ghost var app: Links<K, V>
    ghost var chain: Links<K, V>
    ghost var chains: seq<seq<Item<K, V>>>

    // The linked structures are whole.
    ghost predicate Sound()
      reads this, app.Keys, chain.Keys
    {
      && Fsck(head, tail, numItems, numBuckets, buckets, order, app, chain, chains)
      && MirrorsApp(app) && MirrorsHh(chain) && (head != null ==> numBuckets == Pow2(log2))
    }

    ghost predicate Valid()
      reads this, app.Keys, chain.Keys
    {
      Sound() && Keyed(hash, order)
    }

    ghost function Contents(): map<K, V>
      reads this
    {
      ContentsOf(order)
    }

    constructor (hash: K -> nat)
      ensures Valid() && this.hash == hash && Contents() == map[] && order == []
    {
      this.hash := hash;
      head, tail, buckets, numBuckets, log2, numItems := null, null, [], 0, 0, 0;
      idealChainMaxlen, nonidealItems, ineffExpands, noexpand := 0, 0, 0, false;
      order, app, chain, chains := [], map[], map[], [];
    }

    // HASH_FIND
    method Find(key: K) returns (out: Item?<K, V>)
      requires Valid()
      ensures out == null <==> key !in Contents()
      ensures out != null ==> out in order && out.key == key && key in Contents() && Contents()[key] == out.value
    {
      out := null;
      ContentsAt(hash, order, key);
      if head != null {
        var b := BucketOf(hash(key), numBuckets, log2);
        out := FindInBucket(b, key);
      }
    }

    // HASH_FIND_IN_BKT
    method FindInBucket(b: nat, key: K) returns (out: Item?<K, V>)
      requires Valid() && head != null && b == ToBucket(hash(key), numBuckets)
      ensures out != null ==> out in order && out.key == key
      ensures out == null ==> forall i :: 0 <= i < |order| ==> order[i].key != key
    {
      out := buckets[b].hhHead;
      ghost var c, k := chains[b], 0;
      assert Inside(chains, Elems(order), b) && BucketAt(chain, buckets, chains, b);
      while out != null
        invariant 0 <= k <= |c| && out == At(c, k)
        invariant forall i :: 0 <= i < k ==> c[i].key != key
        decreases |c| - k
      {
        assert Linked(chain, c, k);
        if out.hashv == hash(key) && out.key == key {
          return;
        }
        assert out in Elems(order);
        out := out.hhNext;
        k := k + 1;
      }
      forall i | 0 <= i < |order|
        ensures order[i].key != key
      {
        if order[i].key == key { InItsChain(hash, order, chains, key, i); }
      }
    }

    // Moves one item to its new bucket.
    method MoveOne(x: Item<K, V>, nb: seq<Bucket<K, V>>, nonideal: nat, ghost s: set<Item<K, V>>, ghost i: int,
                   ghost j: int,
                   ghost nc: seq<seq<Item<K, V>>>, ghost moved: set<Item<K, V>>)
      returns (nb': seq<Bucket<K, V>>, nonideal': nat, next: Item?<K, V>, ghost nc': seq<seq<Item<K, V>>>,
               ghost moved': set<Item<K, V>>)
      requires Expanding(chain, chains, s, i, j, nb, nc, moved) && i < |chains| && j < |chains[i]| && x == chains[i][j]
      requires MirrorsHh(chain) && chain.Keys == s && numBuckets == |chains| == Pow2(log2)
      requires Tallied(nb, nonideal, idealChainMaxlen)
      modifies this`chain, s`hhNext, s`hhPrev
      ensures Expanding(chain, chains, s, i, j + 1, nb', nc', moved') && next == At(chains[i], j + 1)
      ensures MirrorsHh(chain) && chain.Keys == s && Tallied(nb', nonideal', idealChainMaxlen)
    {
      var b := BucketOf(x.hashv, 2 * numBuckets, log2 + 1);
      var head := nb[b].hhHead;
      var bk := Filled(nb[b], x, idealChainMaxlen);
      TalliedOn(nb, nonideal, idealChainMaxlen, b, x);
      hide Tallied;
      ExpandStep(chain, chains, s, i, j, nb, nc, moved, x, b, head, bk);
      next := x.hhNext;
      nonideal' := if bk.count > idealChainMaxlen then nonideal + 1 else nonideal;
      nb', nc', moved' := nb[b := bk], nc[b := [x] + nc[b]], moved + {x};
      chain := PushHh(x, head, chain);
    }

    // Empties one old chain.
    method MoveChain(nb: seq<Bucket<K, V>>, nonideal: nat, i: nat, ghost s: set<Item<K, V>>,
                     ghost nc: seq<seq<Item<K, V>>>, ghost moved: set<Item<K, V>>)
      returns (nb': seq<Bucket<K, V>>, nonideal': nat, ghost nc': seq<seq<Item<K, V>>>, ghost moved': set<Item<K, V>>)
      requires Expanding(chain, chains, s, i, 0, nb, nc, moved) && i < |chains| == |buckets|
      requires buckets[i].hhHead == At(chains[i], 0)
      requires MirrorsHh(chain) && chain.Keys == s && numBuckets == |chains| == Pow2(log2)
      requires Tallied(nb, nonideal, idealChainMaxlen)
      modifies this`chain, s`hhNext, s`hhPrev
      ensures Expanding(chain, chains, s, i + 1, 0, nb', nc', moved') && MirrorsHh(chain) && chain.Keys == s
      ensures Tallied(nb', nonideal', idealChainMaxlen)
    {
      hide Tallied;
      nb', nonideal', nc', moved' := nb, nonideal, nc, moved;
      var x := buckets[i].hhHead;
      ghost var j, c := 0, chains[i];
      while x != null
        invariant 0 <= j <= |c| && Moving(s, i, j, nb', nc', moved') && x == At(c, j)
        invariant Tallied(nb', nonideal', idealChainMaxlen)
        decreases |c| - j
      {
        nb', nonideal', x, nc', moved' := MoveOne(x, nb', nonideal', s, i, j, nc', moved');
        j := j + 1;
      }
      ExpandNext(chain, chains, s, i, j, nb', nc', moved');
    }

    ghost predicate Moving(s: set<Item<K, V>>, i: int, j: int, nb: seq<Bucket<K, V>>, nc: seq<seq<Item<K, V>>>,
                           moved: set<Item<K, V>>)
      reads this, chain.Keys
    {
      Expanding(chain, chains, s, i, j, nb, nc, moved) && MirrorsHh(chain) && chain.Keys == s
    }

    // Fills the new buckets from the old ones.
    method MoveAll(nb: seq<Bucket<K, V>>, ghost s: set<Item<K, V>>, ghost nc: seq<seq<Item<K, V>>>)
      returns (nb': seq<Bucket<K, V>>, nonideal: nat, ghost nc': seq<seq<Item<K, V>>>)
      requires BucketsOk(chain, buckets, chains) && Holds(chains, s) && Expanding(chain, chains, s, 0, 0, nb, nc, {})
      requires MirrorsHh(chain) && chain.Keys == s && numBuckets == |chains| == Pow2(log2)
      requires Tallied(nb, 0, idealChainMaxlen)
      modifies this`chain, s`hhNext, s`hhPrev
      ensures BucketsOk(chain, nb', nc') && Holds(nc', s) && |nc'| == 2 * |chains| && MirrorsHh(chain)
      ensures chain.Keys == s && Tallied(nb', nonideal, idealChainMaxlen)
    {
      hide Tallied;
      nb', nonideal, nc' := nb, 0, nc;
      ghost var moved := {};
      OldHeads();
      var i := 0;
      while i < |buckets|
        invariant 0 <= i <= |buckets| && Expanding(chain, chains, s, i, 0, nb', nc', moved)
        invariant MirrorsHh(chain) && chain.Keys == s && HeadsAre() && Tallied(nb', nonideal, idealChainMaxlen)
      {
        nb', nonideal, nc', moved := MoveChain(nb', nonideal, i, s, nc', moved);
        i := i + 1;
      }
      ExpandEnd(chain, chains, s, nb', nc', moved);
    }

    // The heads of the old buckets, which stay as they are.
    ghost predicate HeadsAre()
      reads this
    {
      |buckets| == |chains| && forall b :: 0 <= b < |buckets| ==> buckets[b].hhHead == At(chains[b], 0)
    }

    // Replaces the buckets by twice as many.
    method Rehash(ghost s: set<Item<K, V>>)
      requires BucketsOk(chain, buckets, chains) && Holds(chains, s) && MirrorsHh(chain) && chain.Keys == s
      requires numBuckets == |buckets| == Pow2(log2)
      modifies this`buckets, this`nonidealItems, this`chain, this`chains, s`hhNext, s`hhPrev
      ensures BucketsOk(chain, buckets, chains) && Holds(chains, s) && MirrorsHh(chain) && chain.Keys == s
      ensures |buckets| == 2 * old(|buckets|) && Tallied(buckets, nonidealItems, idealChainMaxlen)
    {
      var nb := seq(2 * numBuckets, _ => Bucket(null, 0, 0));
      ghost var nc: seq<seq<Item<K, V>>> := seq(2 * numBuckets, _ => []);
      ExpandStart(chain, buckets, chains, s, nb, nc);
      ExcessNone(nb, |nb|, idealChainMaxlen);
      assert Tallied(nb, 0, idealChainMaxlen);
      hide Tallied;
      nb, nonidealItems, nc := MoveAll(nb, s, nc);
      buckets, chains := nb, nc;
    }

    lemma OldHeads()
      requires BucketsOk(chain, buckets, chains)
      ensures HeadsAre()
    {
      forall b | 0 <= b < |buckets|
        ensures buckets[b].hhHead == At(chains[b], 0)
      {
        assert BucketAt(chain, buckets, chains, b);
      }
    }

    // HASH_EXPAND_BUCKETS
    method Expand(ghost s: set<Item<K, V>>)
      requires BucketsOk(chain, buckets, chains) && Holds(chains, s) && MirrorsHh(chain) && chain.Keys == s
      requires numBuckets == |buckets| == Pow2(log2)
      modifies this`buckets, this`numBuckets, this`log2, this`idealChainMaxlen, this`nonidealItems, this`ineffExpands
      modifies this`noexpand
      modifies this`chain, this`chains, s`hhNext, s`hhPrev
      ensures BucketsOk(chain, buckets, chains) && Holds(chains, s) && MirrorsHh(chain) && chain.Keys == s
      ensures numBuckets == |buckets| == Pow2(log2) == 2 * old(numBuckets)
      // The ideal length is the number of items for each bucket, rounded up; what lies beyond it is counted,
      // and two expansions in a row that leave more than half of the items there are the last.
      ensures numItems <= idealChainMaxlen * numBuckets < numItems + numBuckets
      ensures Tallied(buckets, nonidealItems, idealChainMaxlen)
      ensures ineffExpands == if nonidealItems > numItems / 2 then old(ineffExpands) + 1 else 0
      ensures noexpand == (old(noexpand) || ineffExpands > 1)
    {
      hide Tallied;
      SetIdeal();
      Rehash(s);
      Judge();
      numBuckets := 2 * numBuckets;
      log2 := log2 + 1;
    }

    method SetIdeal()
      requires numBuckets == Pow2(log2)
      modifies this`idealChainMaxlen
      ensures numItems <= idealChainMaxlen * (2 * numBuckets) < numItems + 2 * numBuckets
    {
      idealChainMaxlen := IdealLength(numItems, 2 * numBuckets, log2 + 1);
    }

    // Two expansions in a row that left more than half of the items out of place end expanding.
    method Judge()
      modifies this`ineffExpands, this`noexpand
      ensures ineffExpands == if nonidealItems > numItems / 2 then old(ineffExpands) + 1 else 0
      ensures noexpand == (old(noexpand) || ineffExpands > 1)
    {
      ineffExpands := if nonidealItems > numItems / 2 then ineffExpands + 1 else 0;
      if ineffExpands > 1 {
        noexpand := true;
      }
    }

    // HASH_MAKE_TABLE
    method MakeTable(x: Item<K, V>)
      modifies this, x`next, x`prev
      ensures Enlisted(x, head, tail, numItems, numBuckets, buckets, order, app, chain, chains, {})
      ensures order == [x] && MirrorsApp(app) && MirrorsHh(chain) && numBuckets == Pow2(log2)
      ensures numBuckets == INITIAL_NUM_BUCKETS && !noexpand && forall b :: 0 <= b < |buckets| ==> buckets[b].count == 0
    {
      hide Holds;
      hide DList;
      x.next, x.prev := null, null;
      tail, numItems, numBuckets, log2 := x, 0, INITIAL_NUM_BUCKETS, INITIAL_LOG2;
      idealChainMaxlen, nonidealItems, ineffExpands, noexpand := 0, 0, 0, false;
      buckets := seq(INITIAL_NUM_BUCKETS, _ => Bucket(null, 0, 0));
      head := x;
      order, app, chain, chains := [x], map[x := Link(null, null)], map[], seq(INITIAL_NUM_BUCKETS, _ => []);
      SingleList(x);
      EmptyBuckets(chain, buckets, chains);
      assert Pow2(2) == 4 && Pow2(4) == 16;
    }

    // HASH_APPEND_LIST
    method AppendList(x: Item<K, V>)
      requires Sound() && head != null && x !in app
      modifies this`app, this`order, this`tail, x`next, x`prev, app.Keys`next
      ensures Enlisted(x, head, tail, numItems, numBuckets, buckets, order, app, chain, chains, Elems(old(order)))
      ensures order == old(order) + [x] && MirrorsApp(app) && MirrorsHh(chain) && numBuckets == Pow2(log2)
    {
      hide DList;
      EnlistLast(x, head, tail, numItems, numBuckets, buckets, order, app, chain, chains);
      app := AppendApp(x, tail, app);
      order, tail := order + [x], x;
    }

    // HASH_ADD_TO_BKT
    method AddToBkt(x: Item<K, V>, ghost s: set<Item<K, V>>)
      requires Enlisted(x, head, tail, numItems, numBuckets, buckets, order, app, chain, chains, s)
      requires MirrorsApp(app) && MirrorsHh(chain) && numBuckets == Pow2(log2)
      modifies this`numItems, this`buckets, this`chain, this`chains, x`hhNext, x`hhPrev, s`hhPrev
      ensures Sound() && head != null && app.Keys == s + {x}
      ensures Joined(old(buckets), buckets, x, numBuckets)
    {
      var b := BucketOf(x.hashv, numBuckets, log2);
      var hd := buckets[b].hhHead;
      var bk := Bucket(x, buckets[b].count + 1, buckets[b].expandMult);
      EnlistedHead(x, head, tail, numItems, numBuckets, buckets, order, app, chain, chains, s, b, hd);
      EnlistedIn(x, head, tail, numItems, numBuckets, buckets, order, app, chain, chains, s, b, hd, bk,
                 buckets[b := bk], Pushed(chain, hd, x), chains[b := [x] + chains[b]]);
      BucketFields(x, b, hd, bk);
    }

    // The bucket of `x` has one more item, and the others are as they were.
    static ghost predicate Joined(bs: seq<Bucket<K, V>>, bs': seq<Bucket<K, V>>, x: Item<K, V>, n: nat) {
      && n == |bs| > 0
      && var b := ToBucket(x.hashv, n); bs' == bs[b := Bucket(x, bs[b].count + 1, bs[b].expandMult)]
    }

    method BucketFields(x: Item<K, V>, b: nat, hd: Item?<K, V>, bk: Bucket<K, V>)
      requires b < |buckets| == |chains| && MirrorsHh(chain) && hd != x && (hd != null ==> hd in chain)
      modifies this`numItems, this`buckets, this`chain, this`chains, x`hhNext, x`hhPrev, chain.Keys`hhPrev
      ensures numItems == old(numItems) + 1 && buckets == old(buckets)[b := bk]
      ensures chains == old(chains)[b := [x] + old(chains)[b]]
      ensures chain == Pushed(old(chain), hd, x) && MirrorsHh(chain)
    {
      numItems := numItems + 1;
      buckets := buckets[b := bk];
      chains := chains[b := [x] + chains[b]];
      chain := PushHh(x, hd, chain);
    }

    // Links `x` into the list and its bucket.
    method Enter(x: Item<K, V>)
      requires Sound() && x !in app
      modifies this, x, app.Keys
      ensures Sound() && head != null && order == old(order) + [x] && app.Keys == old(app.Keys) + {x}
      ensures if old(head) == null then
                && numBuckets == INITIAL_NUM_BUCKETS && !noexpand
                && forall b :: 0 <= b < |buckets| ==> buckets[b].count <= 1
              else
                && numBuckets == old(numBuckets) && noexpand == old(noexpand)
                && Joined(old(buckets), buckets, x, numBuckets)
    {
      hide BucketsOk;
      hide MirrorsHh;
      ghost var s := Elems(order);
      if head == null {
        MakeTable(x);
      } else {
        AppendList(x);
      }
      AddToBkt(x, s);
    }

    // The bucket of `x` has reached the threshold, and expanding has not been given up.
    static ghost predicate Full(bs: seq<Bucket<K, V>>, x: Item<K, V>, n: nat, noexpand: bool)
      requires n == |bs| > 0
    {
      var bk := bs[ToBucket(x.hashv, n)]; !noexpand && bk.count >= (bk.expandMult + 1) * CAPACITY_THRESH
    }

    // The bucket of `x` has become too long.
    method Crowded(x: Item<K, V>) returns (c: bool)
      requires |buckets| == numBuckets == Pow2(log2)
      ensures var bk := buckets[ToBucket(x.hashv, numBuckets)];
        c <==> !noexpand && bk.count >= (bk.expandMult + 1) * CAPACITY_THRESH
    {
      var b := BucketOf(x.hashv, numBuckets, log2);
      var bk := buckets[b];
      c := bk.count >= (bk.expandMult + 1) * CAPACITY_THRESH && !noexpand;
    }

    // Doubles the buckets if that of `x` is crowded.
    method Relieve(x: Item<K, V>)
      requires Sound() && head != null
      modifies this, app.Keys`hhNext, app.Keys`hhPrev
      ensures Sound() && order == old(order) && app.Keys == old(app.Keys)
      ensures |old(buckets)| == old(numBuckets) > 0
      ensures numBuckets == if Full(old(buckets), x, old(numBuckets), old(noexpand)) then 2 * old(numBuckets)
                            else old(numBuckets)
    {
      hide MirrorsApp;
      var c := Crowded(x);
      if c {
        Expand(chain.Keys);
      }
    }

    // HASH_ADD
    method Add(x: Item<K, V>)
      requires Valid() && x !in app && x.hashv == hash(x.key) && x.key !in Contents()
      modifies this, x, app.Keys
      ensures Valid() && order == old(order) + [x] && Contents() == old(Contents())[x.key := x.value]
      ensures app.Keys == old(app.Keys) + {x}
      // The buckets are doubled exactly if the item fills its bucket up to the threshold.
      ensures old(head) == null ==> numBuckets == INITIAL_NUM_BUCKETS
      ensures old(head) != null ==> old(numBuckets) == |old(buckets)| > 0
      ensures old(head) != null ==>
        var bk := old(buckets)[ToBucket(x.hashv, old(numBuckets))];
        var full := !old(noexpand) && bk.count + 1 >= (bk.expandMult + 1) * CAPACITY_THRESH;
        numBuckets == if full then 2 * old(numBuckets) else old(numBuckets)
    {
      hide Sound;
      KeyedAppend(hash, order, x);
      ContentsAppend(order, x);
      Enter(x);
      Relieve(x);
    }

    // The stores of HASH_DELETE to the list.
    method LeaveList(x: Item<K, V>)
      requires MirrorsApp(app) && Removable(app, x)
      modifies this`head, this`tail, this`app, app.Keys`next, app.Keys`prev
      ensures head == (if old(app)[x].prev == null then old(app)[x].next else old(head))
      ensures tail == (if x == old(tail) then old(app)[x].prev else old(tail))
      ensures app == Unlinked(old(app), x) - {x} && MirrorsApp(app)
    {
      if x == tail {
        tail := x.prev;
      }
      if x.prev == null {
        head := x.next;
      }
      app := UnlinkApp(x, app);
      app := app - {x};
    }

    // The stores of HASH_DELETE to the bucket.
    method LeaveBucket(x: Item<K, V>, b: nat, ghost q: int)
      requires MirrorsHh(chain) && Removable(chain, x)
      requires b < |buckets| == |chains| && buckets[b].count > 0 && numItems > 0 && 0 <= q < |chains[b]|
      modifies this`numItems, this`buckets, this`chain, this`chains, chain.Keys`hhNext, chain.Keys`hhPrev
      ensures numItems == old(numItems) - 1 && buckets == old(buckets)[b := old(Lessened(buckets[b], x))]
      ensures chain == Unlinked(old(chain), x) - {x} && MirrorsHh(chain)
      ensures chains == old(chains)[b := Without(old(chains)[b], q)]
    {
      buckets := buckets[b := Lessened(buckets[b], x)];
      chain := UnlinkHh(x, chain);
      chain, chains := chain - {x}, chains[b := Without(chains[b], q)];
      numItems := numItems - 1;
    }

    // Takes one of several items out.
    method Leave(x: Item<K, V>, ghost p: int, ghost q: int)
      requires Sound() && |order| > 1 && 0 <= p < |order| && order[p] == x && |chains| > 0
      requires Removable(app, x) && Removable(chain, x) && app[x] == Link(At(order, p + 1), At(order, p - 1))
      requires 0 <= q < |chains[ToBucket(x.hashv, |chains|)]| && chains[ToBucket(x.hashv, |chains|)][q] == x
      modifies this, app.Keys
      ensures Sound() && order == Without(old(order), p) && app.Keys == old(app.Keys) - {x}
    {
      hide DList;
      hide Elems;
      hide Holds;
      hide Without;
      var b := BucketOf(x.hashv, numBuckets, log2);
      hide Fsck;
      BucketCount(b, q);
      DeleteStep(head, tail, numItems, numBuckets, buckets, order, app, chain, chains, x, p, q, b,
                 Lessened(buckets[b], x));
      LeaveFields(x, b, p, q);
    }

    method LeaveFields(x: Item<K, V>, b: nat, ghost p: int, ghost q: int)
      requires MirrorsApp(app) && MirrorsHh(chain) && Removable(app, x) && Removable(chain, x) && app.Keys == chain.Keys
      requires b < |buckets| == |chains| && buckets[b].count > 0 && numItems > 0 && 0 <= q < |chains[b]|
      requires 0 <= p < |order|
      modifies this`head, this`tail, this`numItems, this`buckets, this`order, this`app, this`chain, this`chains
      modifies app.Keys`next, app.Keys`prev, app.Keys`hhNext, app.Keys`hhPrev
      ensures head == (if old(app)[x].prev == null then old(app)[x].next else old(head))
      ensures tail == (if x == old(tail) then old(app)[x].prev else old(tail)) && numItems == old(numItems) - 1
      ensures buckets == old(buckets)[b := old(Lessened(buckets[b], x))] && order == Without(old(order), p)
      ensures app == Unlinked(old(app), x) - {x} && chain == Unlinked(old(chain), x) - {x}
      ensures chains == old(chains)[b := Without(old(chains)[b], q)] && MirrorsApp(app) && MirrorsHh(chain)
    {
      order := Without(order, p);
      LeaveBucket(x, b, q);
      LeaveList(x);
    }

    // The last item: the table is freed.
    method LeaveEmpty(x: Item<K, V>)
      requires Sound()
      modifies this`head, this`order, this`app, this`chain
      ensures Sound() && order == [] && app.Keys == {}
    {
      head := null;
      order, app, chain := [], map[], map[];
    }

    // HASH_DELETE
    method Delete(x: Item<K, V>)
      requires Valid() && x in order
      modifies this, app.Keys
      ensures Valid() && DeletedFrom(old(order), x, order) && app.Keys <= old(app.Keys)
      ensures x.key in old(Contents()) && Contents() == old(Contents()) - {x.key}
    {
      ghost var p, q := Whereabouts(head, tail, numItems, numBuckets, buckets, order, app, chain, chains, x);
      ContentsAt(hash, order, x.key);
      ContentsWithout(hash, order, p);
      if x.prev == null && x.next == null {
        OnlyItem(order, p);
        LeaveEmpty(x);
      } else {
        Leave(x, p, q);
      }
    }

    lemma BucketCount(b: nat, q: int)
      requires Sound() && head != null && b < |chains| && 0 <= q < |chains[b]|
      ensures b < |buckets| && buckets[b].count > 0
    {
      assert BucketAt(chain, buckets, chains, b);
    }
  }
}
