/**
 The memory pool of `mpool.c`: an AVL tree of keys with one comparator.

 Keys are held as words (`KeyOrder`); the bytes and the byte-level comparators are
 in `KeyCompare`.
 */
module Mpool {
  import opened Common
  import opened KeyOrder
  import opened PoolKeys
  import opened KavlShape
  import opened KavlBalance
  import opened KavlSearch
  import opened KavlInsert
  import opened KavlErase

  type Elem = Node<Word>

  function Scmp(kind: Kind): (Word, Word) -> int {
    (a: Word, b: Word) => Compare(kind, a, b)
  }

  // ---- The order of the elements ------------------------------------------------

  ghost predicate Sorted(s: seq<Elem>) {
    forall i, j {:trigger Ordered(s, i, j)} :: Ordered(s, i, j)
  }

  ghost predicate Ordered(s: seq<Elem>, i: int, j: int) {
    0 <= i < j < |s| ==> Lex(s[i].key, s[j].key) < 0
  }

  ghost function KeysOf(s: seq<Elem>): set<Word> {
    set i | 0 <= i < |s| :: s[i].key
  }

  // A search that ends in a gap places `w` in the lexicographic order, whatever the comparator.
  lemma GapPlaces(kind: Kind, w: Word, s: seq<Elem>, cnt: int, i: nat)
    requires Sorted(s) && Searched(Scmp(kind), w, s, null, cnt) && i < |s|
    ensures if i < cnt then Lex(s[i].key, w) < 0 else Lex(w, s[i].key) < 0
  {
    assert Ordered(s, i, cnt - 1) && Ordered(s, cnt, i);
    if i < cnt {
      CompareSign(kind, w, s[cnt - 1].key);
      LexFlip(s[cnt - 1].key, w);
      if i < cnt - 1 { LexTrans(s[i].key, s[cnt - 1].key, w); }
    } else {
      CompareSign(kind, w, s[cnt].key);
      if cnt < i { LexTrans(w, s[cnt].key, s[i].key); }
    }
  }

  ghost predicate Placed(s: seq<Elem>, w: Word, cnt: int) {
    0 <= cnt <= |s| && forall i :: 0 <= i < |s| ==> if i < cnt then Lex(s[i].key, w) < 0 else Lex(w, s[i].key) < 0
  }

  lemma PlacedSorted(s: seq<Elem>, x: Elem, cnt: int, s': seq<Elem>)
    requires Sorted(s) && Placed(s, x.key, cnt) && s' == s[..cnt] + [x] + s[cnt..]
    ensures Sorted(s')
  {
    hide Lex;
    forall i, j
      ensures Ordered(s', i, j)
    {
      if 0 <= i < j < |s'| {
        var a, b := if i < cnt then i else i - 1, if j < cnt then j else j - 1;
        assert Ordered(s, a, b);
        assert (i != cnt ==> s'[i] == s[a]) && (j != cnt ==> s'[j] == s[b]);
      }
    }
  }

  lemma PlacedKeys(s: seq<Elem>, x: Elem, cnt: int, s': seq<Elem>)
    requires 0 <= cnt <= |s| && s' == s[..cnt] + [x] + s[cnt..]
    ensures KeysOf(s') == KeysOf(s) + {x.key}
  {
    forall i | 0 <= i < |s|
      ensures s[i].key in KeysOf(s')
    {
      assert s'[if i < cnt then i else i + 1] == s[i];
    }
    assert s'[cnt] == x;
    forall i | 0 <= i < |s'|
      ensures s'[i].key in KeysOf(s) + {x.key}
    {
      assert i != cnt ==> s'[i] == s[if i < cnt then i else i - 1];
    }
  }

  lemma InsertSorted(kind: Kind, s: seq<Elem>, x: Elem, cnt: int, s': seq<Elem>)
    requires Sorted(s) && Searched(Scmp(kind), x.key, s, null, cnt) && s' == s[..cnt] + [x] + s[cnt..]
    ensures Sorted(s') && KeysOf(s') == KeysOf(s) + {x.key}
  {
    forall i | 0 <= i < |s|
      ensures if i < cnt then Lex(s[i].key, x.key) < 0 else Lex(x.key, s[i].key) < 0
    {
      GapPlaces(kind, x.key, s, cnt, i);
    }
    PlacedSorted(s, x, cnt, s');
    PlacedKeys(s, x, cnt, s');
  }

  lemma WithoutSorted(s: seq<Elem>, k: nat)
    requires Sorted(s) && k < |s|
    ensures Sorted(Without(s, k))
  {
    forall i, j
      ensures Ordered(Without(s, k), i, j)
    {
      assert Ordered(s, if i < k then i else i + 1, if j < k then j else j + 1);
    }
  }

  lemma WithoutKeys(s: seq<Elem>, k: nat)
    requires Sorted(s) && k < |s|
    ensures KeysOf(Without(s, k)) == KeysOf(s) - {s[k].key}
  {
    var s' := Without(s, k);
    LexEqual(s[k].key, s[k].key);
    forall i | 0 <= i < |s| && i != k
      ensures s[i].key in KeysOf(s')
    {
      assert s'[if i < k then i else i - 1] == s[i];
    }
    forall i | 0 <= i < |s'|
      ensures s'[i].key in KeysOf(s) && s'[i].key != s[k].key
    {
      var a := if i < k then i else i + 1;
      assert s[a] == s'[i] && Ordered(s, a, k) && Ordered(s, k, a);
    }
  }

  lemma EraseSorted(s: seq<Elem>, k: nat, s': seq<Elem>)
    requires Sorted(s) && k < |s| && s' == s[..k] + s[k + 1..]
    ensures Sorted(s') && KeysOf(s') == KeysOf(s) - {s[k].key}
  {
    WithoutSorted(s, k);
    WithoutKeys(s, k);
  }

  // A search for a key that is stored finds something.
  lemma StoredFound(kind: Kind, s: seq<Elem>, w: Word, p: Node?<Word>, cnt: int)
    requires Sorted(s) && Searched(Scmp(kind), w, s, p, cnt) && w in KeysOf(s)
    ensures p != null
  {
    if p == null {
      var i :| 0 <= i < |s| && s[i].key == w;
      GapPlaces(kind, w, s, cnt, i);
      LexEqual(w, w);
    }
  }

  lemma HitMeans(kind: Kind, s: seq<Elem>, w: Word, p: Elem, cnt: int)
    requires Searched(Scmp(kind), w, s, p, cnt)
    ensures p.key in KeysOf(s) && Same(kind, w, p.key)
  {
    CompareSign(kind, w, p.key);
    assert s[cnt - 1] == p;
  }

  lemma SmoothMonotone(kind: Kind, s: seq<Elem>, w: Word)
    requires Sorted(s) && Smooth(kind, KeysOf(s), w)
    ensures Monotone(Scmp(kind), w, s)
  {
    forall i, j | 0 <= i < j < |s|
      ensures Compare(kind, w, s[j].key) > 0 ==> Compare(kind, w, s[i].key) > 0
      ensures Compare(kind, w, s[i].key) < 0 ==> Compare(kind, w, s[j].key) < 0
    {
      assert Ordered(s, i, j) && s[i].key in KeysOf(s) && s[j].key in KeysOf(s);
    }
  }

  // Where the comparator is smooth, a search that ends in a gap has missed nothing.
  lemma MissMeans(kind: Kind, s: seq<Elem>, w: Word, cnt: int)
    requires Sorted(s) && Searched(Scmp(kind), w, s, null, cnt) && Smooth(kind, KeysOf(s), w)
    ensures forall k :: k in KeysOf(s) ==> !Same(kind, w, k)
  {
    SmoothMonotone(kind, s, w);
    SearchedAll(Scmp(kind), w, s, cnt);
    forall k | k in KeysOf(s)
      ensures !Same(kind, w, k)
    {
      var i :| 0 <= i < |s| && s[i].key == k;
      CompareSign(kind, w, k);
      assert if i < cnt then s[i] == s[..cnt][i] else s[i] == s[cnt..][i - cnt];
    }
  }

  // The loop of mem_add: of `keys` it has left `left`, and the last insertion of `w`
  // ended at `v`, which is `w` itself or (`kept`) a key that was there.
  ghost predicate Adding(kind: Kind, keys: set<Word>, left: set<Word>, w: Word, v: Word, kept: bool) {
    && left <= keys
    && (if kept then v in left && Same(kind, w, v) else v == w)
    && (Antichain(kind, keys) && Smooth(kind, keys, w) ==>
          && (forall k :: k in keys - left ==> Merges(kind, w, k))
          && (!kept ==> forall k :: k in left ==> !Same(kind, w, k)))
  }

  // One turn: something that compares equal to `v` is deleted, and `w` is tried again.
  lemma AddTurn(kind: Kind, keys: set<Word>, left: set<Word>, w: Word, v: Word, gone: Word, v': Word, kept: bool)
    requires Adding(kind, keys, left, w, v, true) && |w| < |v| && gone in left && Same(kind, v, gone)
    requires if kept then v' in left - {gone} && Same(kind, w, v') else v' == w
    requires !kept && Smooth(kind, left - {gone}, w) ==> forall k :: k in left - {gone} ==> !Same(kind, w, k)
    ensures Adding(kind, keys, left - {gone}, w, v', kept)
  {
    if Antichain(kind, keys) && Smooth(kind, keys, w) {
      assert gone == v && Merges(kind, w, v);
      assert Smooth(kind, left - {gone}, w);
      forall k | k in keys - (left - {gone})
        ensures Merges(kind, w, k)
      {
        assert k == gone || k in keys - left;
      }
    }
  }

  lemma AddDone(kind: Kind, keys: set<Word>, left: set<Word>, w: Word, v: Word, kept: bool)
    requires Adding(kind, keys, left, w, v, kept) && (kept ==> |v| <= |w|)
    ensures Covers(kind, v, w)
    ensures Antichain(kind, keys) && Smooth(kind, keys, w) ==>
      (if kept then left else left + {w}) == Absorb(kind, keys, w)
  {
    if Antichain(kind, keys) && Smooth(kind, keys, w) {
      if kept {
        AddKept(kind, keys, left, w, v);
      } else {
        AddFresh(kind, keys, left, w);
      }
    }
  }

  lemma AddKept(kind: Kind, keys: set<Word>, left: set<Word>, w: Word, v: Word)
    requires Antichain(kind, keys) && left <= keys && (forall k :: k in keys - left ==> Merges(kind, w, k))
    requires v in left && Covers(kind, v, w)
    ensures left == Absorb(kind, keys, w)
  {
    forall k | k in keys
      ensures k in left
    {
      if k !in left {
        assert k in keys - left;
        MergesTrans(kind, v, w, k);
      }
    }
  }

  lemma AddFresh(kind: Kind, keys: set<Word>, left: set<Word>, w: Word)
    requires left <= keys && (forall k :: k in keys - left ==> Merges(kind, w, k)) && forall k :: k in left ==>
      !Same(kind, w, k)
    ensures left + {w} == Absorb(kind, keys, w)
  {
    forall k | k in keys
      ensures !Covers(kind, k, w) && (k in left <==> !Merges(kind, w, k))
    {
      if k in left {
        assert !Same(kind, w, k);
      } else {
        assert k in keys - left;
      }
    }
  }

  // What kavl_erase does to a sorted tree.
  lemma EraseMeans(kind: Kind, m: Mem<Word>, t: Tree<Word>, w: Word, p: Node?<Word>, pos: int, m': Mem<Word>,
                   t': Tree<Word>)
    requires Sorted(InOrder(t)) && Distinct(t) && m.Keys == Nodes(t)
    requires Searched(Scmp(kind), w, InOrder(t), p, pos) && Erased(m, t, p, pos, m', t')
    ensures Sorted(InOrder(t')) && m'.Keys == Nodes(t') && m'.Keys <= m.Keys
    ensures p == null ==> t' == t && w !in KeysOf(InOrder(t))
    ensures p == null && Smooth(kind, KeysOf(InOrder(t)), w) ==> forall k :: k in KeysOf(InOrder(t)) ==>
      !Same(kind, w, k)
    ensures p != null ==>
      && p.key in KeysOf(InOrder(t)) && Same(kind, w, p.key)
      && KeysOf(InOrder(t')) == KeysOf(InOrder(t)) - {p.key} && |InOrder(t')| == |InOrder(t)| - 1
  {
    if p != null {
      HitMeans(kind, InOrder(t), w, p, pos);
      EraseSorted(InOrder(t), pos - 1, InOrder(t'));
      NodesLess(t, t', pos - 1);
    } else {
      if w in KeysOf(InOrder(t)) { StoredFound(kind, InOrder(t), w, p, pos); }
      if Smooth(kind, KeysOf(InOrder(t)), w) { MissMeans(kind, InOrder(t), w, pos); }
    }
  }

  // What kavl_insert does to a sorted tree.
  lemma InsertMeans(kind: Kind, m: Mem<Word>, t: Tree<Word>, x: Elem, r: Elem, cnt: int, m': Mem<Word>, t': Tree<Word>)
    requires Sorted(InOrder(t)) && m.Keys == Nodes(t) && x !in m
    requires Searched(Scmp(kind), x.key, InOrder(t), if r == x then null else r, cnt)
    requires Inserted(m, t, x, r, cnt, m', t')
    ensures Sorted(InOrder(t')) && m'.Keys == Nodes(t')
    ensures r != x ==> t' == t && r.key in KeysOf(InOrder(t)) && Same(kind, x.key, r.key)
    ensures r == x ==>
      && KeysOf(InOrder(t')) == KeysOf(InOrder(t)) + {x.key} && |InOrder(t')| == |InOrder(t)| + 1
      && (Smooth(kind, KeysOf(InOrder(t)), x.key) ==> forall k :: k in KeysOf(InOrder(t)) ==> !Same(kind, x.key, k))
  {
    if r != x {
      HitMeans(kind, InOrder(t), x.key, r, cnt);
    } else {
      InsertSorted(kind, InOrder(t), x, cnt, InOrder(t'));
      NodesMore(t, t', x, cnt);
      if Smooth(kind, KeysOf(InOrder(t)), x.key) { MissMeans(kind, InOrder(t), x.key, cnt); }
    }
  }

  lemma NodesMore<K>(t: Tree<K>, t': Tree<K>, x: Node<K>, cnt: int)
    requires 0 <= cnt <= |InOrder(t)| && InOrder(t') == InOrder(t)[..cnt] + [x] + InOrder(t)[cnt..]
    ensures Nodes(t') == Nodes(t) + {x}
  {
    var a, b := InOrder(t), InOrder(t');
    NodesInOrder(t);
    NodesInOrder(t');
    assert a == a[..cnt] + a[cnt..];
    assert Elems(b) == Elems(a) + {x};
  }

  // ---- The pool -----------------------------------------------------------------

  class Pool {
    const kind: Kind
    var root: Node?<Word>
    var count: int
    ghost var mem: Mem<Word>
    ghost var shape: Tree<Word>

    ghost function Order(): seq<Elem>
      reads this
    {
      InOrder(shape)
    }

    ghost function Keys(): set<Word>
      reads this
    {
      KeysOf(Order())
    }

    // The tree is well formed and sorted, and `count` is `n` less than its size.
    ghost predicate Holds(n: int)
      reads this, mem.Keys
    {
      && Mirrors(mem) && KavlShape.Valid(mem, root, shape) && mem.Keys == Nodes(shape)
      && Sorted(Order()) && count == |Order()| - n
    }

    ghost predicate Valid()
      reads this, mem.Keys
    {
      Holds(0)
    }

    constructor (kind: Kind)
      ensures Valid() && this.kind == kind && Keys() == {} && Order() == [] && fresh(mem.Keys)
    {
      this.kind := kind;
      root, count := null, 0;
      mem, shape := map[], Nil;
    }

    // The fields after the tree has been changed.
    method Update(root': Node?<Word>, count': int, ghost m': Mem<Word>, ghost t': Tree<Word>)
      requires Mirrors(m') && KavlShape.Valid(m', root', t') && m'.Keys == Nodes(t') && Sorted(InOrder(t'))
      modifies this
      ensures mem == m' && shape == t' && count == count' && Holds(|InOrder(t')| - count')
    {
      root, count, mem, shape := root', count', m', t';
    }

    // mem_get
    method Get(w: Word) returns (p: Node?<Word>, ghost cnt: int)
      requires Valid()
      ensures Searched(Scmp(kind), w, Order(), p, cnt) && p == Lookup(shape, Scmp(kind), w)
      ensures p != null ==> p.key in Keys() && Same(kind, w, p.key)
      ensures p == null && Smooth(kind, Keys(), w) ==> forall k :: k in Keys() ==> !Same(kind, w, k)
      ensures w in Keys() ==> p != null
    {
      var n;
      p, n := Find(root, mem, shape, Scmp(kind), w);
      cnt := n;
      if p != null {
        HitMeans(kind, Order(), w, p, cnt);
      } else if Smooth(kind, Keys(), w) {
        MissMeans(kind, Order(), w, cnt);
      }
      if w in Keys() { StoredFound(kind, Order(), w, p, cnt); }
    }

    // mem_delete
    method Delete(w: Word) returns (ghost gone: Node?<Word>)
      requires Valid() && |Order()| < SIZE_LIMIT
      modifies this, mem.Keys
      ensures Valid() && mem.Keys <= old(mem.Keys)
      ensures gone == null ==> Order() == old(Order()) && w !in Keys()
      ensures gone == null && Smooth(kind, Keys(), w) ==> forall k :: k in Keys() ==> !Same(kind, w, k)
      ensures gone != null ==>
        && gone.key in old(Keys()) && Same(kind, w, gone.key)
        && Keys() == old(Keys()) - {gone.key} && |Order()| == |old(Order())| - 1
    {
      ghost var pos, m', t';
      var root', p, cnt;
      root', p, cnt, pos, m', t' := Erase(root, Scmp(kind), w, mem, shape);
      EraseMeans(kind, mem, shape, w, p, pos, m', t');
      gone := p;
      Update(root', if p != null then count - 1 else count, m', t');
    }

    // One kavl_insert of `e`; `count` is left to the caller.
    method Attach(e: Elem) returns (v: Elem)
      requires Valid() && e !in mem && |Order()| + 1 < SIZE_LIMIT
      modifies this, mem.Keys, e
      ensures Holds(if v == e then 1 else 0)
      ensures v != e ==>
        && mem.Keys == old(mem.Keys) && shape == old(shape)
        && v.key in Keys() && Same(kind, e.key, v.key)
      ensures v == e ==>
        && mem.Keys == old(mem.Keys) + {e} && Keys() == old(Keys()) + {e.key} && |Order()| == |old(Order())| + 1
        && (Smooth(kind, old(Keys()), e.key) ==> forall k :: k in old(Keys()) ==> !Same(kind, e.key, k))
        && KeepsRoot(old(shape), shape)
    {
      ghost var m', t';
      var root', cnt;
      root', v, cnt, m', t' := Insert(root, e, Scmp(kind), mem, shape);
      InsertMeans(kind, mem, shape, e, v, cnt, m', t');
      Update(root', count, m', t');
    }

    // The state in the loop of mem_add, after inserting `e` has ended at `v`.
    ghost predicate Tried(e: Elem, v: Elem, keys: set<Word>, left: set<Word>)
      reads this, mem.Keys
    {
      && Holds(if v == e then 1 else 0) && Keys() == (if v == e then left + {e.key} else left)
      && (v != e ==> e !in mem) && Adding(kind, keys, left, e.key, v.key, v != e)
    }

    // One turn of that loop.
    method Retry(e: Elem, v: Elem, ghost keys: set<Word>, ghost left: set<Word>) returns (v': Elem,
                 ghost left': set<Word>)
      requires Tried(e, v, keys, left) && v != e && |e.key| < |v.key| && |Order()| + 1 < SIZE_LIMIT
      modifies this, mem.Keys, e
      ensures Tried(e, v', keys, left') && left' < left && mem.Keys <= old(mem.Keys) + {e}
      ensures |Order()| <= |old(Order())| - if v' == e then 0 else 1
    {
      ghost var gone := Delete(v.key);
      v' := Attach(e);
      AddTurn(kind, keys, left, e.key, v.key, gone.key, v'.key, v' != e);
      left' := left - {gone.key};
    }

    // Counts the element that was attached.
    method CountOne()
      requires Holds(1)
      modifies this`count
      ensures Valid()
    {
      count := count + 1;
    }

    // mem_add
    method Add(w: Word) returns (v: Elem)
      requires Valid() && |Order()| + 1 < SIZE_LIMIT
      modifies this, mem.Keys
      ensures Valid() && fresh(mem.Keys - old(mem.Keys)) && |Order()| <= |old(Order())| + 1
      ensures v.key in Keys() && Covers(kind, v.key, w) && Keys() <= old(Keys()) + {w}
      ensures Antichain(kind, old(Keys())) && Smooth(kind, old(Keys()), w) ==> Keys() == Absorb(kind, old(Keys()), w)
      ensures (forall k :: k in old(Keys()) ==> !Same(kind, w, k)) ==>
        && Keys() == old(Keys()) + {w} && |Order()| == |old(Order())| + 1
        && KeepsRoot(old(shape), shape)
    {
      hide InOrder;
      var e := new Node(w);
      ghost var keys, left := Keys(), Keys();
      v := Attach(e);
      ghost var atOnce, shape1 := v == e, shape;
      while v != e && |w| < |v.key|
        invariant Tried(e, v, keys, left) && mem.Keys <= old(mem.Keys) + {e}
        invariant |Order()| <= |old(Order())| + if v == e then 1 else 0
        invariant atOnce ==> v == e && shape == shape1 && left == keys
        decreases left
      {
        v, left := Retry(e, v, keys, left);
      }
      AddDone(kind, keys, left, w, v.key, v != e);
      if v == e {
        CountOne();
      }
    }

    // Takes the first element out of the tree; `count` stays.
    method DropFirst(ghost n: int) returns (p: Elem)
      requires Holds(n) && root != null && |Order()| < SIZE_LIMIT
      modifies this, mem.Keys
      ensures Holds(n - 1) && mem.Keys <= old(mem.Keys)
      ensures old(Order()) == [p] + Order()
    {
      hide InOrder;
      ghost var m', t';
      var root', cnt;
      hide Sorted;
      root', p, cnt, m', t' := EraseFirst(root, mem, shape);
      EraseSorted(Order(), 0, InOrder(t'));
      NodesLess(shape, t', 0);
      Update(root', count, m', t');
    }

    // mem_destroy: every element is freed once, in order.
    method Destroy() returns (freed: seq<Elem>)
      requires Valid() && |Order()| < SIZE_LIMIT
      modifies this, mem.Keys
      ensures freed == old(Order()) && root == null
    {
      hide Mirrors;
      hide Nodes;
      hide Sorted;
      freed := [];
      while root != null
        invariant Holds(-|freed|) && mem.Keys <= old(mem.Keys)
        invariant freed + Order() == old(Order())
        decreases |Order()|
      {
        var e := DropFirst(-|freed|);
        freed := freed + [e];
      }
    }
  }
}
