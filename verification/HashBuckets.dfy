/**
 The buckets of a `uthash.h` table: each is the head of a chain of the items whose
 hash falls into it.
 */
module HashBuckets {
  import opened Common
  import opened HashLinks

  datatype Bucket<K, V> = Bucket(hhHead: Item?<K, V>, count: nat, expandMult: nat)

  // The bucket of a hash value: its remainder.
  function ToBucket(hashv: nat, n: nat): (b: nat)
    requires n > 0
    ensures b < n
  {
    if hashv < n then hashv else ToBucket(hashv - n, n)
  }

  lemma {:induction false} ToBucketIsMod(hashv: nat, n: nat, q: nat, r: nat)
    requires n > 0 && hashv == q * n + r && r < n
    ensures ToBucket(hashv, n) == r
    decreases q
  {
    if q > 0 {
      assert hashv - n == (q - 1) * n + r;
      ToBucketIsMod(hashv - n, n, q - 1, r);
    }
  }

  ghost predicate BucketOk<K, V>(m: Links<K, V>, b: Bucket<K, V>, c: seq<Item<K, V>>) {
    DList(m, c) && b.hhHead == At(c, 0) && b.count == |c|
  }

  // Every item of the chain belongs into bucket `b` of `n`.
  ghost predicate Belongs<K, V>(c: seq<Item<K, V>>, b: int, n: int)
    requires n > 0
  {
    forall k :: 0 <= k < |c| ==> ToBucket(c[k].hashv, n) == b
  }

  ghost predicate BucketAt<K, V>(m: Links<K, V>, buckets: seq<Bucket<K, V>>, chains: seq<seq<Item<K, V>>>, b: int) {
    0 <= b < |chains| == |buckets| ==> BucketOk(m, buckets[b], chains[b]) && Belongs(chains[b], b, |chains|)
  }

  ghost predicate BucketsOk<K, V>(m: Links<K, V>, buckets: seq<Bucket<K, V>>, chains: seq<seq<Item<K, V>>>) {
    && |buckets| == |chains| > 0
    && forall b {:trigger BucketAt(m, buckets, chains, b)} :: BucketAt(m, buckets, chains, b)
  }

  // `x` is in the chain of its bucket.
  ghost predicate InChain<K, V>(chains: seq<seq<Item<K, V>>>, x: Item<K, V>)
    requires |chains| > 0
  {
    x in chains[ToBucket(x.hashv, |chains|)]
  }

  ghost predicate Inside<K, V>(chains: seq<seq<Item<K, V>>>, s: set<Item<K, V>>, b: int) {
    0 <= b < |chains| ==> forall k :: 0 <= k < |chains[b]| ==> chains[b][k] in s
  }

  // The chains hold exactly the items `s`.
  ghost predicate Holds<K, V>(chains: seq<seq<Item<K, V>>>, s: set<Item<K, V>>) {
    && |chains| > 0
    && (forall x {:trigger InChain(chains, x)} :: x in s ==> InChain(chains, x))
    && (forall b {:trigger Inside(chains, s, b)} :: Inside(chains, s, b))
  }

  // A bucket whose chain has not been touched.
  lemma BucketSame<K, V>(m: Links<K, V>, m': Links<K, V>, bk: Bucket<K, V>, c: seq<Item<K, V>>,
                         changed: set<Item<K, V>>)
    requires BucketOk(m, bk, c)
    requires forall x :: x in m && x !in changed ==> x in m' && m'[x] == m[x]
    requires forall k :: 0 <= k < |c| ==> c[k] !in changed
    ensures BucketOk(m', bk, c)
  {
    DListSame(m, m', c);
  }

  // One chain has been replaced, and its links are the only ones that changed.
  lemma BucketsSet<K, V>(m: Links<K, V>, m': Links<K, V>, buckets: seq<Bucket<K, V>>, chains: seq<seq<Item<K, V>>>,
                         b: int, bk: Bucket<K, V>, c: seq<Item<K, V>>, changed: set<Item<K, V>>)
    requires BucketsOk(m, buckets, chains) && 0 <= b < |chains| && BucketOk(m', bk, c) && Belongs(c, b, |chains|)
    requires forall x :: x in m && x !in changed ==> x in m' && m'[x] == m[x]
    requires forall x :: x in changed ==> ToBucket(x.hashv, |chains|) == b
    ensures BucketsOk(m', buckets[b := bk], chains[b := c])
  {
    var n, buckets', chains' := |chains|, buckets[b := bk], chains[b := c];
    forall d
      ensures BucketAt(m', buckets', chains', d)
    {
      assert BucketAt(m, buckets, chains, d);
      if 0 <= d < n && d != b {
        BucketSame(m, m', buckets[d], chains[d], changed);
      }
    }
  }

  // ---- HASH_ADD_TO_BKT ----------------------------------------------------------

  lemma AddToBucket<K, V>(m: Links<K, V>, buckets: seq<Bucket<K, V>>, chains: seq<seq<Item<K, V>>>,
                          s: set<Item<K, V>>, x: Item<K, V>,
                          b: int, head: Item?<K, V>, bk: Bucket<K, V>)
    requires BucketsOk(m, buckets, chains) && Holds(chains, s) && x !in s
    requires b == ToBucket(x.hashv, |chains|) && head == buckets[b].hhHead && bk.hhHead == x
    requires bk.count == buckets[b].count + 1
    ensures head != null ==> head in m && head in s
    ensures BucketsOk(Pushed(m, head, x), buckets[b := bk], chains[b := [x] + chains[b]])
    ensures Holds(chains[b := [x] + chains[b]], s + {x})
  {
    var c := chains[b];
    assert Inside(chains, s, b) && BucketAt(m, buckets, chains, b);
    PushFront(m, c, x);
    BucketsSet(m, Pushed(m, head, x), buckets, chains, b, bk, [x] + c, if head == null then {x} else {x, head});
    AddHolds(chains, s, x, b, chains[b := [x] + c], s + {x});
  }

  lemma AddHolds<K, V>(chains: seq<seq<Item<K, V>>>, s: set<Item<K, V>>, x: Item<K, V>, b: int,
                       chains': seq<seq<Item<K, V>>>, s': set<Item<K, V>>)
    requires Holds(chains, s) && b == ToBucket(x.hashv, |chains|) && chains' == chains[b := [x] + chains[b]]
    requires s' == s + {x}
    ensures Holds(chains', s')
  {
    forall y | y in s'
      ensures InChain(chains', y)
    {
      assert y != x ==> InChain(chains, y);
    }
    forall d
      ensures Inside(chains', s', d)
    {
      assert Inside(chains, s, d);
    }
  }

  // ---- HASH_DEL_IN_BKT ----------------------------------------------------------

  lemma DelStays<K, V>(c: seq<Item<K, V>>, p: int, y: Item<K, V>)
    requires 0 <= p < |c| && y in c && y != c[p]
    ensures y in Without(c, p)
  {
    var i :| 0 <= i < |c| && c[i] == y;
    assert Without(c, p)[if i < p then i else i - 1] == y;
  }

  ghost predicate BelongsAt<K, V>(chains: seq<seq<Item<K, V>>>, d: int) {
    0 <= d < |chains| ==> Belongs(chains[d], d, |chains|)
  }

  lemma DelHolds<K, V>(chains: seq<seq<Item<K, V>>>, s: set<Item<K, V>>, x: Item<K, V>, b: int, c: seq<Item<K, V>>,
                       p: int,
                       chains': seq<seq<Item<K, V>>>)
    requires Holds(chains, s) && b == ToBucket(x.hashv, |chains|) && c == chains[b] && 0 <= p < |c| && c[p] == x
    requires Distinct(c)
    requires forall d {:trigger BelongsAt(chains, d)} :: BelongsAt(chains, d)
    requires chains' == chains[b := Without(c, p)]
    ensures Holds(chains', s - {x})
  {
    var s' := s - {x};
    forall y | y in s'
      ensures InChain(chains', y)
    {
      assert InChain(chains, y);
      if ToBucket(y.hashv, |chains|) == b { DelStays(c, p, y); }
    }
    forall d
      ensures Inside(chains', s', d)
    {
      assert Inside(chains, s, d);
      if d == b {
        DelLeaves(c, p, s);
      } else if 0 <= d < |chains| {
        assert BelongsAt(chains, d);
      }
    }
  }

  lemma DelLeaves<K, V>(c: seq<Item<K, V>>, p: int, s: set<Item<K, V>>)
    requires 0 <= p < |c| && Distinct(c) && forall k :: 0 <= k < |c| ==> c[k] in s
    ensures forall k :: 0 <= k < |Without(c, p)| ==> Without(c, p)[k] in s - {c[p]}
  {
    forall k | 0 <= k < |Without(c, p)|
      ensures Without(c, p)[k] in s - {c[p]}
    {
      assert Without(c, p)[k] == c[if k < p then k else k + 1];
    }
  }

  lemma DelInBucket<K, V>(m: Links<K, V>, buckets: seq<Bucket<K, V>>, chains: seq<seq<Item<K, V>>>,
                          s: set<Item<K, V>>, p: int,
                          x: Item<K, V>, b: int, bk: Bucket<K, V>)
    requires BucketsOk(m, buckets, chains) && Holds(chains, s)
    requires b == ToBucket(x.hashv, |chains|) && 0 <= p < |chains[b]| && chains[b][p] == x
    requires x in m && bk.count == buckets[b].count - 1
    requires bk.hhHead == if buckets[b].hhHead == x then m[x].next else buckets[b].hhHead
    ensures (m[x].prev != null ==> m[x].prev in m && m[x].prev in s)
    ensures (m[x].next != null ==> m[x].next in m && m[x].next in s)
    ensures BucketsOk(Unlinked(m, x), buckets[b := bk], chains[b := Without(chains[b], p)])
    ensures Holds(chains[b := Without(chains[b], p)], s - {x})
  {
    var c := chains[b];
    assert Inside(chains, s, b) && BucketAt(m, buckets, chains, b);
    forall d
      ensures BelongsAt(chains, d)
    {
      assert BucketAt(m, buckets, chains, d);
    }
    Remove(m, c, p);
    WithoutAt(c, p, 0);
    DelHolds(chains, s, x, b, c, p, chains[b := Without(c, p)]);
    var near := set k | p - 1 <= k <= p + 1 && 0 <= k < |c| :: c[k];
    assert m[x].prev != null ==> m[x].prev == c[p - 1] && c[p - 1] in near;
    assert m[x].next != null ==> m[x].next == c[p + 1] && c[p + 1] in near;
    DelBelongs(c, b, |chains|, p);
    BucketsSet(m, Unlinked(m, x), buckets, chains, b, bk, Without(c, p), near);
  }

  lemma DelBelongs<K, V>(c: seq<Item<K, V>>, b: int, n: int, p: int)
    requires n > 0 && Belongs(c, b, n) && 0 <= p < |c|
    ensures Belongs(Without(c, p), b, n)
  {
    forall k | 0 <= k < |Without(c, p)|
      ensures ToBucket(Without(c, p)[k].hashv, n) == b
    {
      assert Without(c, p)[k] == c[if k < p then k else k + 1];
    }
  }
}
