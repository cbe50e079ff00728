/**
 Doubling the buckets of a `uthash.h` table: every item is taken off its old chain
 and put in front of its new one, while the rest of the old chains is still in use.
 */
module HashExpand {
  import opened HashLinks
  import opened HashBuckets

  ghost predicate ChainsOk<K, V>(chains: seq<seq<Item<K, V>>>) {
    |chains| > 0 && forall b {:trigger ChainOk(chains, b)} :: ChainOk(chains, b)
  }

  ghost predicate ChainOk<K, V>(chains: seq<seq<Item<K, V>>>, b: int) {
    0 <= b < |chains| ==> Distinct(chains[b]) && Belongs(chains[b], b, |chains|)
  }

  // Whether the item at position `k` of old chain `b` has been moved,
  // when chain `i` has been emptied up to position `j`.
  ghost predicate Passed(i: int, j: int, b: int, k: int) {
    b < i || (b == i && k < j)
  }

  // An item that is still to be moved leads to the next one of its old chain.
  ghost predicate OnwardAt<K, V>(m: Links<K, V>, chains: seq<seq<Item<K, V>>>, i: int, j: int, moved: set<Item<K, V>>,
                                 b: int, k: int) {
    0 <= b < |chains| && 0 <= k < |chains[b]| ==>
      && (chains[b][k] in moved <==> Passed(i, j, b, k))
      && (!Passed(i, j, b, k) ==> chains[b][k] in m && m[chains[b][k]].next == At(chains[b], k + 1))
  }

  ghost predicate Onward<K, V>(m: Links<K, V>, chains: seq<seq<Item<K, V>>>, i: int, j: int, moved: set<Item<K, V>>) {
    forall b, k :: OnwardAt(m, chains, i, j, moved, b, k)
  }

  // The new buckets hold what has been moved.
  ghost predicate Expanding<K, V>(m: Links<K, V>, chains: seq<seq<Item<K, V>>>, s: set<Item<K, V>>, i: int, j: int,
                                  nb: seq<Bucket<K, V>>, nc: seq<seq<Item<K, V>>>, moved: set<Item<K, V>>) {
    && ChainsOk(chains) && Holds(chains, s) && |nc| == 2 * |chains|
    && BucketsOk(m, nb, nc) && Holds(nc, moved) && moved <= s
    && 0 <= i <= |chains| && 0 <= j && (i < |chains| ==> j <= |chains[i]|) && (i == |chains| ==> j == 0)
    && Onward(m, chains, i, j, moved)
  }

  lemma ExpandStart<K, V>(m: Links<K, V>, buckets: seq<Bucket<K, V>>, chains: seq<seq<Item<K, V>>>, s: set<Item<K, V>>,
                          nb: seq<Bucket<K, V>>, nc: seq<seq<Item<K, V>>>)
    requires BucketsOk(m, buckets, chains) && Holds(chains, s) && |nb| == |nc| == 2 * |chains|
    requires forall b :: 0 <= b < |nb| ==> nb[b] == Bucket(null, 0, 0) && nc[b] == []
    ensures Expanding(m, chains, s, 0, 0, nb, nc, {})
  {
    forall b, k
      ensures OnwardAt(m, chains, 0, 0, {}, b, k)
    {
      assert BucketAt(m, buckets, chains, b);
      if 0 <= b < |chains| {
        assert Linked(m, chains[b], k);
      }
    }
    forall b
      ensures ChainOk(chains, b)
    {
      assert BucketAt(m, buckets, chains, b);
    }
    forall b
      ensures BucketAt(m, nb, nc, b)
    {
      if 0 <= b < |nc| { assert forall k :: Linked(m, nc[b], k); }
    }
    forall b
      ensures Inside(nc, {}, b)
    {
    }
  }

  // Two positions of the old chains never hold the same item.
  lemma OnePlace<K, V>(chains: seq<seq<Item<K, V>>>, b: int, k: int, c: int, l: int)
    requires ChainsOk(chains) && 0 <= b < |chains| && 0 <= k < |chains[b]| && 0 <= c < |chains| && 0 <= l < |chains[c]|
    ensures chains[b][k] == chains[c][l] <==> b == c && k == l
  {
    assert ChainOk(chains, b) && ChainOk(chains, c);
  }

  lemma OnwardStep<K, V>(m: Links<K, V>, chains: seq<seq<Item<K, V>>>, i: int, j: int, moved: set<Item<K, V>>,
                         x: Item<K, V>, head: Item?<K, V>, b: int, k: int)
    requires ChainsOk(chains) && Onward(m, chains, i, j, moved) && (head != null ==> head in m && head in moved)
    requires 0 <= i < |chains| && 0 <= j < |chains[i]| && x == chains[i][j]
    ensures OnwardAt(Pushed(m, head, x), chains, i, j + 1, moved + {x}, b, k)
  {
    assert OnwardAt(m, chains, i, j, moved, b, k);
    if 0 <= b < |chains| && 0 <= k < |chains[b]| { OnePlace(chains, b, k, i, j); }
  }

  // The item at position `j` of chain `i` moves.
  lemma ExpandStep<K, V>(m: Links<K, V>, chains: seq<seq<Item<K, V>>>, s: set<Item<K, V>>, i: int, j: int,
                         nb: seq<Bucket<K, V>>, nc: seq<seq<Item<K, V>>>, moved: set<Item<K, V>>,
                         x: Item<K, V>, b: int, head: Item?<K, V>, bk: Bucket<K, V>)
    requires Expanding(m, chains, s, i, j, nb, nc, moved) && i < |chains| && j < |chains[i]| && x == chains[i][j]
    requires b == ToBucket(x.hashv, |nc|) && head == nb[b].hhHead && bk.hhHead == x && bk.count == nb[b].count + 1
    ensures x in m && m[x].next == At(chains[i], j + 1) && x !in moved && head != x && (head != null ==> head in m)
    ensures Expanding(Pushed(m, head, x), chains, s, i, j + 1, nb[b := bk], nc[b := [x] + nc[b]], moved + {x})
  {
    assert OnwardAt(m, chains, i, j, moved, i, j);
    assert Inside(chains, s, i);
    AddToBucket(m, nb, nc, moved, x, b, head, bk);
    var m', j', moved' := Pushed(m, head, x), j + 1, moved + {x};
    forall c, k
      ensures OnwardAt(m', chains, i, j', moved', c, k)
    {
      OnwardStep(m, chains, i, j, moved, x, head, c, k);
    }
  }

  // Chain `i` is empty: on to the next one.
  lemma ExpandNext<K, V>(m: Links<K, V>, chains: seq<seq<Item<K, V>>>, s: set<Item<K, V>>, i: int, j: int,
                         nb: seq<Bucket<K, V>>, nc: seq<seq<Item<K, V>>>, moved: set<Item<K, V>>)
    requires Expanding(m, chains, s, i, j, nb, nc, moved) && i < |chains| && j == |chains[i]|
    ensures Expanding(m, chains, s, i + 1, 0, nb, nc, moved)
  {
    var i' := i + 1;
    forall b, k
      ensures OnwardAt(m, chains, i', 0, moved, b, k)
    {
      assert OnwardAt(m, chains, i, j, moved, b, k);
    }
  }

  // All chains are empty: everything has been moved.
  lemma ExpandEnd<K, V>(m: Links<K, V>, chains: seq<seq<Item<K, V>>>, s: set<Item<K, V>>,
                        nb: seq<Bucket<K, V>>, nc: seq<seq<Item<K, V>>>, moved: set<Item<K, V>>)
    requires Expanding(m, chains, s, |chains|, 0, nb, nc, moved)
    ensures moved == s && BucketsOk(m, nb, nc) && Holds(nc, s)
  {
    forall x | x in s
      ensures x in moved
    {
      var b := ToBucket(x.hashv, |chains|);
      assert InChain(chains, x);
      var k :| 0 <= k < |chains[b]| && chains[b][k] == x;
      assert OnwardAt(m, chains, |chains|, 0, moved, b, k);
    }
  }
}
