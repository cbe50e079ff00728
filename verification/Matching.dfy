/**
 Lists of hosts and addresses: loading them into a pool and looking a
 destination up, as `check_host` and `check_ip` of `extend.c` do.
 */
module Matching {
  import opened Common
  import opened KeyOrder
  import opened PoolKeys
  import opened KavlShape
  import opened KavlBalance
  import opened KavlSearch
  import opened Mpool

  // A list keeps all it promises: exactly the keys that no other key of it covers.
  ghost predicate Loaded(pool: Pool, names: set<Word>)
    reads pool, pool.mem.Keys
  {
    pool.Valid() && pool.Keys() == Minimal(pool.kind, names)
  }

  // The comparator is good for these keys, however they are ordered in a file.
  ghost predicate Sound(kind: Kind, names: set<Word>) {
    kind.Bits? || NoGap(names)
  }

  lemma LoadStep(kind: Kind, names: set<Word>, added: set<Word>, w: Word)
    requires Sound(kind, names) && added <= names && w in names
    ensures var keys := Minimal(kind, added);
      && Antichain(kind, keys) && Smooth(kind, keys, w)
      && Absorb(kind, keys, w) == Minimal(kind, added + {w})
  {
    MinimalAntichain(kind, added);
    AbsorbMinimal(kind, added, w);
    if kind.Bits? {
      BitsSmooth(Minimal(kind, added), w);
    } else {
      HostsSmooth(Minimal(kind, added), w);
    }
  }

  // The pool while a list is being added.
  ghost predicate Filling(pool: Pool, names: set<Word>, added: set<Word>)
    reads pool, pool.mem.Keys
  {
    && pool.Valid() && pool.Keys() <= added
    && (Sound(pool.kind, names) ==> pool.Keys() == Minimal(pool.kind, added))
  }

  method LoadOne(pool: Pool, w: Word, ghost names: set<Word>, ghost added: set<Word>)
    requires Filling(pool, names, added) && added <= names && w in names && |pool.Order()| + 1 < SIZE_LIMIT
    modifies pool, pool.mem.Keys
    ensures Filling(pool, names, added + {w}) && fresh(pool.mem.Keys - old(pool.mem.Keys))
    ensures |pool.Order()| <= |old(pool.Order())| + 1
  {
    if Sound(pool.kind, names) { LoadStep(pool.kind, names, added, w); }
    var v := pool.Add(w);
  }

  // Adds the keys of a list one by one.
  method Load(kind: Kind, names: seq<Word>) returns (pool: Pool)
    requires |names| + 1 < SIZE_LIMIT
    ensures fresh(pool) && fresh(pool.mem.Keys) && pool.kind == kind && pool.Valid() && pool.Keys() <= Elems(names)
    ensures Sound(kind, Elems(names)) ==> Loaded(pool, Elems(names))
  {
    pool := new Pool(kind);
    ghost var added: set<Word> := {};
    var i := 0;
    while i < |names|
      invariant 0 <= i <= |names| && added == Elems(names[..i])
      invariant fresh(pool) && fresh(pool.mem.Keys) && pool.kind == kind && |pool.Order()| <= i
      invariant Filling(pool, Elems(names), added)
    {
      LoadOne(pool, names[i], Elems(names), added);
      TakenUpTo(names, i);
      added := added + {names[i]};
      i := i + 1;
    }
    assert names[..|names|] == names;
  }

  lemma TakenUpTo<T>(s: seq<T>, i: nat)
    requires i < |s|
    ensures Elems(s[..i + 1]) == Elems(s[..i]) + {s[i]}
  {
    assert s[..i + 1] == s[..i] + [s[i]];
  }

  // ---- Runs of additions and deletions ------------------------------------------

  datatype Op = Put(w: Word) | Del(w: Word)

  // One operation on a pool of bit strings: prefix-free before, prefix-free after. A deletion that
  // finds nothing leaves no key that compares equal, and one that finds something removes only it.
  method Operate(pool: Pool, op: Op)
    requires pool.kind == Bits && pool.Valid() && Antichain(Bits, pool.Keys()) && |pool.Order()| + 1 < SIZE_LIMIT
    modifies pool, pool.mem.Keys
    ensures pool.Valid() && Antichain(Bits, pool.Keys()) && fresh(pool.mem.Keys - old(pool.mem.Keys))
    ensures |pool.Order()| <= |old(pool.Order())| + 1
    ensures op.Put? ==> pool.Keys() == Absorb(Bits, old(pool.Keys()), op.w)
    ensures op.Del? ==> pool.Keys() <= old(pool.Keys()) && |old(pool.Keys()) - pool.Keys()| <= 1
    ensures op.Del? ==> forall k :: k in old(pool.Keys()) - pool.Keys() ==> Same(Bits, op.w, k)
    ensures op.Del? && (exists k :: k in old(pool.Keys()) && Same(Bits, op.w, k)) ==> pool.Keys() != old(pool.Keys())
  {
    ghost var keys := pool.Keys();
    BitsSmooth(keys, op.w);
    if op.Put? {
      AbsorbAntichain(Bits, keys, op.w);
      var v := pool.Add(op.w);
    } else {
      ghost var gone := pool.Delete(op.w);
      assert keys - pool.Keys() == if gone == null then {} else {gone.key};
    }
  }

  // Every run keeps the keys prefix-free, the tree well formed and the count equal to its size.
  method Operations(pool: Pool, ops: seq<Op>)
    requires pool.kind == Bits && pool.Valid() && Antichain(Bits, pool.Keys())
    requires |pool.Order()| + |ops| + 1 < SIZE_LIMIT
    modifies pool, pool.mem.Keys
    ensures pool.Valid() && Antichain(Bits, pool.Keys()) && pool.count == |pool.Order()|
  {
    for i := 0 to |ops|
      invariant pool.Valid() && Antichain(Bits, pool.Keys()) && fresh(pool.mem.Keys - old(pool.mem.Keys))
      invariant |pool.Order()| <= |old(pool.Order())| + i
    {
      Operate(pool, ops[i]);
    }
  }

  // ---- Lookup -------------------------------------------------------------------

  // check_ip: the address lies in one of the networks that were added.
  method CheckIp(pool: Pool, addr: Word, ghost names: set<Word>) returns (b: bool)
    requires pool.kind == Bits && Loaded(pool, names)
    ensures b <==> exists a :: a in names && Same(Bits, a, addr)
  {
    ghost var cnt;
    var p;
    p, cnt := pool.Get(addr);
    MinimalAntichain(Bits, names);
    BitsSmooth(pool.Keys(), addr);
    MinimalMatches(names, addr);
    if p != null { assert Same(Bits, p.key, addr); }
    b := p != null;
  }

  // A search for a host that ends in a gap has passed by no name that covers it.
  lemma NoneCovers(s: seq<Elem>, q: Word, cnt: int, k: Word)
    requires Sorted(s) && Searched(Scmp(Host), q, s, null, cnt) && k in KeysOf(s)
    requires Antichain(Host, KeysOf(s)) && NoGap(KeysOf(s))
    ensures !Covers(Host, k, q)
  {
    var i :| 0 <= i < |s| && s[i].key == k;
    GapPlaces(Host, q, s, cnt, i);
    LexEqual(q, q);
    if Merges(Host, k, q) {
      MergesLess(Host, k, q);
      LexFlip(k, q);
      CompareSign(Host, q, k);
      if i < cnt - 1 {
        assert Ordered(s, i, cnt - 1);
        var b := s[cnt - 1].key;
        CompareSign(Host, q, b);
        LexFlip(b, q);
        LexEqual(k, b);
        assert b in KeysOf(s);
        Between(Host, k, b, q);
      }
    }
  }

  // The lookup of check_host, on any pool.
  method LookHost(pool: Pool, host: Word) returns (b: bool, ghost v: Node?<Word>, ghost cnt: int)
    requires pool.kind == Host && pool.Valid()
    ensures Searched(Scmp(Host), host, pool.Order(), v, cnt) && v == Lookup(pool.shape, Scmp(Host), host)
    ensures v != null ==> v.key in pool.Keys() && Same(Host, host, v.key)
    ensures b <==> v != null && Covers(Host, v.key, host)
  {
    var p;
    p, cnt := pool.Get(host);
    v := p;
    b := p != null && |p.key| <= |host|;
  }

  // check_host on a list: a host that is recognised is a name that was added or belongs to one, and
  // where no name opens a gap every such host is.
  method CheckHost(pool: Pool, host: Word, ghost names: set<Word>) returns (b: bool)
    requires pool.kind == Host && pool.Valid() && pool.Keys() <= names && (NoGap(names) ==> Loaded(pool, names))
    ensures b ==> exists a :: a in names && Covers(Host, a, host)
    ensures NoGap(names) ==> (b <==> exists a :: a in names && Covers(Host, a, host))
  {
    ghost var v, cnt;
    b, v, cnt := LookHost(pool, host);
    if NoGap(names) {
      MinimalAntichain(Host, names);
      MinimalCovered(Host, names, host);
      forall k | k in pool.Keys() && Covers(Host, k, host)
        ensures b
      {
        if v == null {
          NoneCovers(pool.Order(), host, cnt, k);
        } else if |host| < |v.key| {
          MergesTrans(Host, k, host, v.key);
        }
      }
    }
  }

  // ---- Names that open a gap ----------------------------------------------------

  lemma GapApart(s: Word, l: Word, q: Word)
    requires Gap(s, l) && |s| < |q| && Extends(s, q) && q[|s|] == DOT
    ensures !Same(Host, s, l) && Lex(s, l) < 0 && Compare(Host, q, l) > 0 && Covers(Host, s, q)
  {
    ExtendsDiff(s, l);
    assert q[..|s|] == l[..|s|];
    DiffIs(q, l, |s|);
    DiffIs(l, q, |s|);
    ExtendsDiff(q, l);
    ExtendsDiff(l, q);
  }

  // The keys on the way from the root to `k`.
  ghost function Above(t: Tree<Word>, k: Word): set<Word> {
    match t
    case Nil => {}
    case Bin(l, n, _, _, r) =>
      if n.key == k then {} else {n.key} + Above(if Lex(k, n.key) < 0 then l else r, k)
  }

  // A key `l` turns the search for `host` away from `k`: it is below the host, or it opens a gap after
  // `k`, or it is a name of `k` that sorts before the host.
  predicate Diverts(l: Word, k: Word, host: Word) {
    Merges(Host, host, l) || (k != host && (Gap(k, l) || (Merges(Host, k, l) && Lex(l, host) < 0)))
  }

  ghost predicate Reached(t: Tree<Word>, k: Word, host: Word) {
    forall l :: l in Above(t, k) ==> !Diverts(l, k, host)
  }

  // A stretch of a sorted sequence is sorted.
  lemma StretchSorted(s: seq<Elem>, lo: nat, t: seq<Elem>)
    requires Sorted(s) && lo + |t| <= |s| && s[lo..lo + |t|] == t
    ensures Sorted(t)
  {
    forall i, j
      ensures Ordered(t, i, j)
    {
      assert Ordered(s, lo + i, lo + j);
      if 0 <= i < j < |t| {
        assert t[i] == s[lo..lo + |t|][i] && t[j] == s[lo..lo + |t|][j];
      }
    }
  }

  lemma PartsSorted(t: Tree<Word>)
    requires t.Bin? && Sorted(InOrder(t))
    ensures Sorted(InOrder(t.l)) && Sorted(InOrder(t.r))
  {
    var all, a, b := InOrder(t), InOrder(t.l), InOrder(t.r);
    assert all[0..|a|] == a && all[|a| + 1..|a| + 1 + |b|] == b;
    StretchSorted(all, 0, a);
    StretchSorted(all, |a| + 1, b);
  }

  // The keys to the left of the root are less, those to the right greater.
  lemma PartsKeys(t: Tree<Word>)
    requires t.Bin? && Sorted(InOrder(t))
    ensures forall k :: k in KeysOf(InOrder(t.l)) ==> Lex(k, t.n.key) < 0
    ensures forall k :: k in KeysOf(InOrder(t.r)) ==> Lex(t.n.key, k) < 0
    ensures KeysOf(InOrder(t)) == KeysOf(InOrder(t.l)) + {t.n.key} + KeysOf(InOrder(t.r))
  {
    hide Diff;
    var all, a, b := InOrder(t), InOrder(t.l), InOrder(t.r);
    var m := |a|;
    assert all[m] == t.n;
    forall i | 0 <= i < |a|
      ensures a[i] == all[i] && Lex(a[i].key, t.n.key) < 0
    {
      assert Ordered(all, i, m);
    }
    forall i | 0 <= i < |b|
      ensures b[i] == all[m + 1 + i] && Lex(t.n.key, b[i].key) < 0
    {
      assert Ordered(all, m, m + 1 + i);
    }
    forall i | 0 <= i < |all|
      ensures all[i].key in KeysOf(a) + {t.n.key} + KeysOf(b)
    {
      assert i < m ==> all[i] == a[i];
      assert i > m ==> all[i] == b[i - m - 1];
    }
  }

  // One step of the search, at `l`: it ends at a name that covers the host, or goes where `k` is,
  // exactly if `l` does not divert it.
  lemma StepTo(l: Word, k: Word, host: Word)
    requires Covers(Host, k, host) && l != k
    ensures var c := Compare(Host, host, l);
      && (c == 0 <==> Covers(Host, l, host) || Merges(Host, host, l))
      && (!Diverts(l, k, host) && c != 0 ==> (c < 0 <==> Lex(k, l) < 0))
      && (c != 0 && (c < 0 <==> Lex(k, l) < 0) ==> !Diverts(l, k, host))
  {
    CompareSign(Host, host, l);
    LexFlip(host, l);
    LexFlip(k, l);
    LexEqual(host, l);
    LexEqual(k, l);
    if k != host {
      MergesLess(Host, k, host);
      if Gap(k, l) { GapApart(k, l, host); }
      if Merges(Host, k, l) { MergesLess(Host, k, l); }
      if Lex(k, l) < 0 && Lex(l, host) < 0 { Between(Host, k, l, host); }
      if Lex(l, k) < 0 { LexTrans(l, k, host); }
    }
  }

  // A key that nothing diverts from leads to a name that covers the host.
  lemma {:induction false} LookupReaches(t: Tree<Word>, k: Word, host: Word)
    requires Sorted(InOrder(t)) && k in KeysOf(InOrder(t)) && Covers(Host, k, host) && Reached(t, k, host)
    ensures var p := Lookup(t, Scmp(Host), host); p != null && Covers(Host, p.key, host)
  {
    hide Lex;
    PartsSorted(t);
    PartsKeys(t);
    var n := t.n.key;
    LexEqual(k, n);
    LexFlip(k, n);
    if k == n {
      CompareSign(Host, host, k);
    } else {
      StepTo(n, k, host);
      if Compare(Host, host, n) != 0 {
        LookupReaches(if Lex(k, n) < 0 then t.l else t.r, k, host);
      } else {
        assert n in Above(t, k) && !Merges(Host, host, n);
      }
    }
  }

  // Nothing on the way diverts from the name that a search ends at.
  lemma {:induction false} LookupReached(t: Tree<Word>, host: Word)
    requires Sorted(InOrder(t))
    ensures var p := Lookup(t, Scmp(Host), host);
      p != null && Covers(Host, p.key, host) ==> p.key in KeysOf(InOrder(t)) && Reached(t, p.key, host)
  {
    var p := Lookup(t, Scmp(Host), host);
    if t.Bin? && p != null && Covers(Host, p.key, host) {
      PartsSorted(t);
      PartsKeys(t);
      var n, k := t.n.key, p.key;
      if Compare(Host, host, n) != 0 {
        var c := if Compare(Host, host, n) < 0 then t.l else t.r;
        LookupReached(c, host);
        LexEqual(k, n);
        LexFlip(k, n);
        StepTo(n, k, host);
      }
    }
  }

  // check_host on any pool: a host is recognised if and only if a name covers it from which no name
  // on its way from the root diverts.
  method LookHostExact(pool: Pool, host: Word) returns (b: bool)
    requires pool.kind == Host && pool.Valid()
    ensures b <==> exists k :: k in pool.Keys() && Covers(Host, k, host) && Reached(pool.shape, k, host)
  {
    ghost var v, cnt;
    b, v, cnt := LookHost(pool, host);
    LookupReached(pool.shape, host);
    forall k | k in pool.Keys() && Covers(Host, k, host) && Reached(pool.shape, k, host)
      ensures b
    {
      LookupReaches(pool.shape, k, host);
    }
  }

  // A tree of one key.
  ghost predicate Single(t: Tree<Word>, k: Word) {
    t.Bin? && t.l.Nil? && t.r.Nil? && t.n.key == k
  }

  // A tree of two keys, `first` at the top.
  ghost predicate Double(t: Tree<Word>, first: Word, second: Word) {
    t.Bin? && t.n.key == first &&
    if Lex(first, second) < 0 then t.l.Nil? && Single(t.r, second) else Single(t.l, second) && t.r.Nil?
  }

  lemma OneElem(t: Tree<Word>, k: Word)
    requires |InOrder(t)| == 1 && KeysOf(InOrder(t)) == {k}
    ensures Single(t, k)
  {
    assert InOrder(t)[0].key in KeysOf(InOrder(t));
  }

  lemma TwoElems(t: Tree<Word>, first: Word, second: Word)
    requires |InOrder(t)| == 2 && Sorted(InOrder(t)) && KeysOf(InOrder(t)) == {first, second} && first != second
    requires t.Bin? && t.n.key == first
    ensures Double(t, first, second)
  {
    var all := InOrder(t);
    assert Ordered(all, 0, 1);
    LexFlip(first, second);
    LexEqual(first, second);
    LexEqual(first, first);
    LexEqual(second, second);
    assert all[0].key in KeysOf(all) && all[1].key in KeysOf(all);
    assert all[|InOrder(t.l)|] == t.n;
    var c := if Lex(first, second) < 0 then t.r else t.l;
    assert InOrder(c) == [all[if Lex(first, second) < 0 then 1 else 0]];
    OneElem(c, second);
  }

  // A list of two names: whichever covers the other is kept alone, otherwise the first is at the top.
  method AddTwo(first: Word, second: Word) returns (pool: Pool)
    ensures fresh(pool) && pool.kind == Host && pool.Valid()
    ensures if Same(Host, first, second) then Single(pool.shape, if Covers(Host, first, second) then first else second)
            else Double(pool.shape, first, second)
  {
    hide Antichain;
    hide Compare;
    hide Distinct;
    hide Rep;
    hide Single;
    pool := new Pool(Host);
    var v := pool.Add(first);
    OneElem(pool.shape, first);
    LexEqual(first, second);
    SmoothForOne(first, second);
    v := pool.Add(second);
    if Same(Host, first, second) {
      OneKey(pool.Order(), if Covers(Host, first, second) then first else second);
      OneElem(pool.shape, if Covers(Host, first, second) then first else second);
    } else {
      TwoElems(pool.shape, first, second);
    }
  }

  lemma SmoothForOne(k: Word, x: Word)
    ensures Smooth(Host, {k}, x) && Antichain(Host, {k})
    ensures Same(Host, k, x) ==> Absorb(Host, {k}, x) == {if Covers(Host, k, x) then k else x}
  {
    LexEqual(k, k);
  }

  // Keys are not stored twice.
  lemma OneKey(s: seq<Elem>, k: Word)
    requires Sorted(s) && KeysOf(s) == {k}
    ensures |s| == 1
  {
    LexEqual(k, k);
    assert Ordered(s, 0, 1);
    forall i | 0 <= i < |s|
      ensures s[i].key == k
    {
      assert s[i].key in KeysOf(s);
    }
    assert s != [] by { assert k in KeysOf(s); }
  }

  // Which of two names, the first at the top, a search for `host` ends at.
  ghost function TwoFound(first: Word, second: Word, host: Word): set<Word> {
    var c := Compare(Host, host, first);
    if c == 0 then {first}
    else if (c > 0 <==> Lex(first, second) < 0) && Compare(Host, host, second) == 0 then {second}
    else {}
  }

  lemma TwoLookup(t: Tree<Word>, first: Word, second: Word, host: Word)
    requires Double(t, first, second)
    ensures var p := Lookup(t, Scmp(Host), host);
      TwoFound(first, second, host) == if p == null then {} else {p.key}
  {
    var c := if Lex(first, second) < 0 then t.r else t.l;
    assert Lookup(c, Scmp(Host), host) == if Compare(Host, host, second) == 0 then c.n else null;
  }

  // The first name opens a gap into which the host, a subdomain of the second, falls.
  predicate Lost(first: Word, second: Word, host: Word) {
    Gap(second, first) && |second| < |host|
  }

  // A search ends at a name that covers the host exactly if there is one, but for the gap.
  lemma TwoAnswers(first: Word, second: Word, host: Word)
    requires !Same(Host, first, second)
    ensures (exists k :: k in TwoFound(first, second, host) && Covers(Host, k, host)) <==>
      Covers(Host, first, host) || (Covers(Host, second, host) && !Lost(first, second, host))
  {
    CompareSign(Host, host, first);
    CompareSign(Host, host, second);
    LexFlip(first, second);
    LexEqual(first, second);
    LexFlip(host, first);
    LexFlip(host, second);
    if Covers(Host, second, host) {
      if Merges(Host, host, first) { MergesTrans(Host, second, host, first); }
      if |second| < |host| {
        MergesLess(Host, second, host);
        if Gap(second, first) { GapApart(second, first, host); }
        if Lex(second, first) < 0 && Lex(first, host) < 0 { Between(Host, second, first, host); }
        if Lex(host, first) < 0 { LexTrans(second, host, first); }
      }
    }
  }

  lemma OneAnswers(first: Word, second: Word, host: Word)
    requires Same(Host, first, second)
    ensures var k := if Covers(Host, first, second) then first else second;
      Covers(Host, k, host) <==> Covers(Host, first, host) || Covers(Host, second, host)
    ensures !Lost(first, second, host)
  {
    if Merges(Host, first, second) && Merges(Host, second, host) { MergesTrans(Host, first, second, host); }
    if Merges(Host, second, first) && Merges(Host, first, host) { MergesTrans(Host, second, first, host); }
  }

  // check_host on a list of two names, exactly: a host is missed if and only if it belongs to the
  // second name only and falls into the gap that the first one opens.
  method TwoNames(first: Word, second: Word, host: Word) returns (b: bool)
    ensures b <==> Covers(Host, first, host) || (Covers(Host, second, host) && !Lost(first, second, host))
  {
    var pool := AddTwo(first, second);
    ghost var p, cnt;
    b, p, cnt := LookHost(pool, host);
    if Same(Host, first, second) {
      OneAnswers(first, second, host);
      CompareSign(Host, host, pool.shape.n.key);
    } else {
      TwoLookup(pool.shape, first, second, host);
      TwoAnswers(first, second, host);
    }
  }

  // Every gap loses some host of the shorter name.
  lemma GapLoses(first: Word, second: Word) returns (host: Word)
    requires Gap(second, first)
    ensures Covers(Host, second, host) && !Covers(Host, first, host) && Lost(first, second, host)
  {
    host := second + [DOT];
    assert host[..|second|] == second;
    assert first[|second|] != host[|second|];
  }
}
