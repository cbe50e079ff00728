/**
 The doubly linked lists that run through the items of a `uthash.h` table.

 Each item is in two of them: the list of all items in the order of their addition
 (`next`, `prev`) and the chain of its bucket (`hh_next`, `hh_prev`).  `Links` records
 one pair of link fields of a set of items.
 */
module HashLinks {
  import opened Common

  class Item<K, V> {
    const key: K
    const hashv: nat
    const value: V
    var next: Item?<K, V>
    var prev: Item?<K, V>
    var hhNext: Item?<K, V>
    var hhPrev: Item?<K, V>

    // A record that is about to be added; `hashv` is the hash of its key.
    constructor (key: K, hashv: nat, value: V)
      ensures this.key == key && this.hashv == hashv && this.value == value
    {
      this.key, this.hashv, this.value := key, hashv, value;
      next, prev, hhNext, hhPrev := null, null, null, null;
    }
  }

  datatype Link<K, V> = Link(next: Item?<K, V>, prev: Item?<K, V>)

  type Links<K, V> = map<Item<K, V>, Link<K, V>>

  ghost function At<K, V>(s: seq<Item<K, V>>, k: int): Item?<K, V> {
    if 0 <= k < |s| then s[k] else null
  }

  ghost predicate Distinct<T>(s: seq<T>) {
    forall i, j :: 0 <= i < j < |s| ==> s[i] != s[j]
  }

  // The links of the item at position `k`.
  ghost predicate Linked<K, V>(m: Links<K, V>, s: seq<Item<K, V>>, k: int) {
    0 <= k < |s| ==> s[k] in m && m[s[k]] == Link(At(s, k + 1), At(s, k - 1))
  }

  ghost predicate DList<K, V>(m: Links<K, V>, s: seq<Item<K, V>>) {
    Distinct(s) && forall k :: Linked(m, s, k)
  }

  lemma DListSame<K, V>(m: Links<K, V>, m': Links<K, V>, s: seq<Item<K, V>>)
    requires DList(m, s) && forall k :: 0 <= k < |s| && s[k] in m ==> s[k] in m' && m'[s[k]] == m[s[k]]
    ensures DList(m', s)
  {
    forall k
      ensures Linked(m', s, k)
    {
      assert Linked(m, s, k);
    }
  }

  // ---- At the front -------------------------------------------------------------

  ghost function Pushed<K, V>(m: Links<K, V>, head: Item?<K, V>, x: Item<K, V>): Links<K, V>
    requires head != null ==> head in m
  {
    (if head == null then m else m[head := m[head].(prev := x)])[x := Link(head, null)]
  }

  lemma PushFront<K, V>(m: Links<K, V>, s: seq<Item<K, V>>, x: Item<K, V>)
    requires DList(m, s) && x !in s
    ensures At(s, 0) != null ==> At(s, 0) in m
    ensures DList(Pushed(m, At(s, 0), x), [x] + s)
  {
    assert Linked(m, s, 0);
    var m', s' := Pushed(m, At(s, 0), x), [x] + s;
    forall k
      ensures Linked(m', s', k)
    {
      if 0 < k < |s'| {
        assert Linked(m, s, k - 1);
        assert s'[k] == s[k - 1];
      }
    }
  }

  // ---- At the end ---------------------------------------------------------------

  ghost function Appended<K, V>(m: Links<K, V>, tail: Item<K, V>, x: Item<K, V>): Links<K, V>
    requires tail in m
  {
    m[x := Link(null, tail)][tail := m[tail].(next := x)]
  }

  lemma Append<K, V>(m: Links<K, V>, s: seq<Item<K, V>>, x: Item<K, V>)
    requires DList(m, s) && x !in s && s != []
    ensures s[|s| - 1] in m && DList(Appended(m, s[|s| - 1], x), s + [x])
  {
    var n := |s| - 1;
    assert Linked(m, s, n);
    var m', s' := Appended(m, s[n], x), s + [x];
    forall k
      ensures Linked(m', s', k)
    {
      if 0 <= k < |s| {
        assert Linked(m, s, k);
        assert s'[k] == s[k];
      }
    }
  }

  // ---- Removal ------------------------------------------------------------------

  ghost function Unlinked<K, V>(m: Links<K, V>, x: Item<K, V>): Links<K, V>
    requires x in m && (m[x].prev != null ==> m[x].prev in m) && (m[x].next != null ==> m[x].next in m)
  {
    var a := if m[x].prev != null then m[m[x].prev := m[m[x].prev].(next := m[x].next)] else m;
    if m[x].next != null then a[m[x].next := a[m[x].next].(prev := m[x].prev)] else a
  }

  lemma WithoutAt<K, V>(s: seq<Item<K, V>>, p: int, k: int)
    requires 0 <= p < |s|
    ensures At(Without(s, p), k) == if k < p then At(s, k) else At(s, k + 1)
  {
  }

  lemma WithoutDistinct<T>(s: seq<T>, p: int)
    requires Distinct(s) && 0 <= p < |s|
    ensures Distinct(Without(s, p)) && s[p] !in Without(s, p)
  {
    var t := Without(s, p);
    forall k | 0 <= k < |t|
      ensures t[k] == s[if k < p then k else k + 1]
    {
    }
  }

  lemma RemoveOne<K, V>(m: Links<K, V>, s: seq<Item<K, V>>, p: int, k: int)
    requires DList(m, s) && 0 <= p < |s| && 0 <= k < |s| - 1
    ensures s[p] in m && (m[s[p]].prev != null ==> m[s[p]].prev in m) && (m[s[p]].next != null ==> m[s[p]].next in m)
    ensures Linked(Unlinked(m, s[p]), Without(s, p), k)
  {
    var i := if k < p then k else k + 1;
    assert Linked(m, s, p) && Linked(m, s, p - 1) && Linked(m, s, p + 1) && Linked(m, s, i);
    WithoutAt(s, p, k);
    WithoutAt(s, p, k - 1);
    WithoutAt(s, p, k + 1);
  }

  lemma Remove<K, V>(m: Links<K, V>, s: seq<Item<K, V>>, p: int)
    requires DList(m, s) && 0 <= p < |s|
    ensures s[p] in m && (m[s[p]].prev != null ==> m[s[p]].prev in m) && (m[s[p]].next != null ==> m[s[p]].next in m)
    ensures m[s[p]] == Link(At(s, p + 1), At(s, p - 1))
    ensures DList(Unlinked(m, s[p]), Without(s, p))
  {
    assert Linked(m, s, p) && Linked(m, s, p - 1) && Linked(m, s, p + 1);
    WithoutDistinct(s, p);
    var m', s' := Unlinked(m, s[p]), Without(s, p);
    forall k
      ensures Linked(m', s', k)
    {
      if 0 <= k < |s'| { RemoveOne(m, s, p, k); }
    }
  }
}
