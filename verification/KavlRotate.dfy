/**
 The two rotations of `kavl.h`, as field writes and as what they do to a tree.
 */
module KavlRotate {
  import opened KavlShape
  import opened KavlBalance

  // kavl_size_child
  function SizeChild<K>(p: Node<K>, dir: bool): int
    reads p, p.Child(dir)
  {
    if p.Child(dir) == null then 0 else p.Child(dir).size
  }

  ghost function SizeAt<K>(m: Mem<K>, p: Node?<K>): int
    requires p != null ==> p in m
  {
    if p == null then 0 else m[p].size
  }

  // ---- Field writes, with the mirror --------------------------------------

  method StoreSize<K>(n: Node<K>, s: int, ghost m: Mem<K>) returns (ghost m': Mem<K>)
    requires Mirrors(m) && n in m
    modifies n
    ensures m' == m[n := m[n].(size := s)] && Mirrors(m')
  {
    n.size := s;
    m' := m[n := m[n].(size := s)];
  }

  method StoreBalance<K>(n: Node<K>, b: int, ghost m: Mem<K>) returns (ghost m': Mem<K>)
    requires Mirrors(m) && n in m
    modifies n
    ensures m' == m[n := m[n].(balance := b)] && Mirrors(m')
  {
    n.balance := b;
    m' := m[n := m[n].(balance := b)];
  }

  method StoreChild<K>(n: Node<K>, dir: bool, c: Node?<K>, ghost m: Mem<K>) returns (ghost m': Mem<K>)
    requires Mirrors(m) && n in m
    modifies n
    ensures m' == m[n := m[n].Relinked(dir, c)] && Mirrors(m')
  {
    n.SetChild(dir, c);
    m' := m[n := m[n].Relinked(dir, c)];
  }

  method StoreCell<K>(n: Node<K>, l: Node?<K>, r: Node?<K>, b: int, s: int, ghost m: Mem<K>) returns (ghost m': Mem<K>)
    requires Mirrors(m) && n in m
    modifies n
    ensures m' == m[n := Cell(l, r, b, s)] && Mirrors(m')
  {
    n.left, n.right, n.balance, n.size := l, r, b, s;
    m' := m[n := Cell(l, r, b, s)];
  }

  // The memory after `kavl_rotate1`.
  ghost function Rewired1<K>(m: Mem<K>, p: Node<K>, dir: bool): Mem<K>
    requires p in m && m[p].Child(!dir) != null && m[p].Child(!dir) in m
    requires m[m[p].Child(!dir)].Child(dir) != null ==> m[m[p].Child(!dir)].Child(dir) in m
  {
    var q := m[p].Child(!dir);
    var b := m[q].Child(dir);
    m[p := m[p].(size := m[p].size - (m[q].size - SizeAt(m, b))).Relinked(!dir, b)]
     [q := m[q].(size := m[p].size).Relinked(dir, p)]
  }

  method Rotate1<K>(p: Node<K>, dir: bool, ghost m: Mem<K>) returns (q: Node<K>, ghost m': Mem<K>)
    requires Mirrors(m) && p in m && m[p].Child(!dir) != null && m[p].Child(!dir) in m && m[p].Child(!dir) != p
    requires m[m[p].Child(!dir)].Child(dir) != null ==> m[m[p].Child(!dir)].Child(dir) in m
    requires m[m[p].Child(!dir)].Child(dir) != p
    modifies p, p.Child(!dir)
    ensures q == m[p].Child(!dir) && m' == Rewired1(m, p, dir) && Mirrors(m')
  {
    var opp := !dir;
    q := p.Child(opp);
    m' := Rewired1(m, p, dir);
    var sizeP := p.size;
    p.size := p.size - (q.size - SizeChild(q, dir));
    q.size := sizeP;
    p.SetChild(opp, q.Child(dir));
    q.SetChild(dir, p);
  }

  // The memory after `kavl_rotate2`.
  ghost function Rewired2<K>(m: Mem<K>, p: Node<K>, q: Node<K>, r: Node<K>, dir: bool): Mem<K>
    requires p in m && q in m && r in m && (m[r].Child(dir) != null ==> m[r].Child(dir) in m)
  {
    var s := SizeAt(m, m[r].Child(dir));
    var b1 := if dir then -1 else 1;
    var pb := if m[r].balance == b1 then -b1 else 0;
    var qb := if m[r].balance == b1 || m[r].balance == 0 then 0 else b1;
    m[p := m[p].(size := m[p].size - (m[q].size - s), balance := pb).Relinked(!dir, m[r].Child(dir))]
     [q := m[q].(size := m[q].size - (s + 1), balance := qb).Relinked(dir, m[r].Child(!dir))]
     [r := m[r].(size := m[p].size, balance := 0).Relinked(dir, p).Relinked(!dir, q)]
  }

  // The field writes of `kavl_rotate2`, for any three linked nodes.
  method Rewire2<K>(p: Node<K>, q: Node<K>, r: Node<K>, dir: bool)
    requires p != q && p != r && q != r && q == p.Child(!dir) && r == q.Child(dir)
    modifies p, q, r
    ensures p.Child(dir) == old(p.Child(dir)) && p.Child(!dir) == old(r.Child(dir))
    ensures q.Child(dir) == old(r.Child(!dir)) && q.Child(!dir) == old(q.Child(!dir))
    ensures r.Child(dir) == p && r.Child(!dir) == q
    ensures r.size == old(p.size)
    ensures p.size == old(p.size - (q.size - SizeChild(r, dir)))
    ensures q.size == old(q.size - (SizeChild(r, dir) + 1))
    ensures r.balance == 0
    ensures var b1 := if dir then -1 else 1;
      && p.balance == (if old(r.balance) == b1 then -b1 else 0)
      && q.balance == (if old(r.balance) == b1 || old(r.balance) == 0 then 0 else b1)
  {
    var opp := !dir;
    var sizeX := SizeChild(r, dir);
    r.size := p.size;
    p.size := p.size - (q.size - sizeX);
    q.size := q.size - (sizeX + 1);
    p.SetChild(opp, r.Child(dir));
    r.SetChild(dir, p);
    q.SetChild(dir, r.Child(opp));
    r.SetChild(opp, q);
    var b1 := if dir then -1 else 1;
    if r.balance == b1 {
      q.balance, p.balance := 0, -b1;
    } else if r.balance == 0 {
      q.balance, p.balance := 0, 0;
    } else {
      q.balance, p.balance := b1, 0;
    }
    r.balance := 0;
  }

  method Rotate2<K>(p: Node<K>, dir: bool, ghost m: Mem<K>) returns (r: Node<K>, ghost m': Mem<K>)
    requires Mirrors(m) && p in m && m[p].Child(!dir) != null && m[p].Child(!dir) in m && m[p].Child(!dir) != p
    requires var q := m[p].Child(!dir);
      && m[q].Child(dir) != null && m[q].Child(dir) in m && m[q].Child(dir) != p && m[q].Child(dir) != q
    requires var r := m[m[p].Child(!dir)].Child(dir);
      && (m[r].Child(dir) != null ==> m[r].Child(dir) in m)
    modifies p, p.Child(!dir), p.Child(!dir).Child(dir)
    ensures r == m[m[p].Child(!dir)].Child(dir)
    ensures m' == Rewired2(m, p, m[p].Child(!dir), r, dir) && Mirrors(m')
  {
    var q := p.Child(!dir);
    r := q.Child(dir);
    m' := Rewired2(m, p, q, r, dir);
    assert SizeChild(r, dir) == SizeAt(m, m[r].Child(dir));
    Rewire2(p, q, r, dir);
    assert p.Fields() == m'[p] && q.Fields() == m'[q] && r.Fields() == m'[r];
  }

  // What a node and its two subtrees are in memory.
  lemma OpenRep<K>(m: Mem<K>, p: Node?<K>, dir: bool, t: Tree<K>)
    requires Rep(m, p, t) && t.Bin?
    ensures p == t.n && p in m && m[p].balance == t.bal && m[p].size == t.sz
    ensures Rep(m, m[p].Child(dir), Sub(t, dir)) && Rep(m, m[p].Child(!dir), Sub(t, !dir))
    ensures Nodes(t) == Nodes(Sub(t, dir)) + {p} + Nodes(Sub(t, !dir))
    ensures Distinct(t) ==>
      && Distinct(Sub(t, dir)) && Distinct(Sub(t, !dir))
      && p !in Nodes(Sub(t, dir)) && p !in Nodes(Sub(t, !dir)) && Nodes(Sub(t, dir)) !! Nodes(Sub(t, !dir))
  {
  }

  lemma RepTop<K>(m: Mem<K>, p: Node?<K>, t: Tree<K>)
    requires Rep(m, p, t)
    ensures p == Top(t) && (p == null <==> t.Nil?)
    ensures p != null ==> p in m && p in Nodes(t)
    ensures SizeAt(m, p) == SizeOf(t)
  {
  }

  lemma MkRep<K>(m: Mem<K>, p: Node?<K>, dir: bool, a: Tree<K>, n: Node<K>, bal: int, sz: int, b: Tree<K>)
    ensures Rep(m, p, Mk(dir, a, n, bal, sz, b)) <==>
      && p == n && n in m && m[n].balance == bal && m[n].size == sz
      && Rep(m, m[n].Child(dir), a) && Rep(m, m[n].Child(!dir), b)
  {
  }

  lemma Rotate1Ready<K>(m: Mem<K>, p: Node<K>, dir: bool, t: Tree<K>)
    requires Rep(m, p, t) && Distinct(t) && t.Bin? && Sub(t, !dir).Bin?
    ensures var q := m[p].Child(!dir);
      && q != null && q in m && q != p && q == Sub(t, !dir).n
      && m[q].Child(dir) != p && m[q].Child(dir) != q
      && (m[q].Child(dir) != null ==> m[q].Child(dir) in m)
      && p in Nodes(t) && q in Nodes(t)
  {
    OpenRep(m, p, dir, t);
    OpenRep(m, m[p].Child(!dir), dir, Sub(t, !dir));
    RepTop(m, m[m[p].Child(!dir)].Child(dir), Sub(Sub(t, !dir), dir));
  }

  lemma Rotate1Rep<K>(m: Mem<K>, p: Node<K>, dir: bool, t: Tree<K>)
    requires Rep(m, p, t) && Distinct(t) && t.Bin? && Sub(t, !dir).Bin?
    ensures (Rotate1Ready(m, p, dir, t); Rep(Rewired1(m, p, dir), m[p].Child(!dir), Rotated1(t, dir)))
  {
    Rotate1Ready(m, p, dir, t);
    var q, tq := m[p].Child(!dir), Sub(t, !dir);
    var a, b, c := Sub(t, dir), Sub(tq, dir), Sub(tq, !dir);
    OpenRep(m, p, dir, t);
    OpenRep(m, q, dir, tq);
    RepTop(m, m[q].Child(dir), b);
    var m' := Rewired1(m, p, dir);
    RepSame(m, m', m[p].Child(dir), a);
    RepSame(m, m', m[q].Child(dir), b);
    RepSame(m, m', m[q].Child(!dir), c);
    var u := Rotated1(t, dir);
    var low := Sub(u, dir);
    MkRep(m', p, dir, a, low.n, low.bal, low.sz, b);
    MkRep(m', q, dir, low, u.n, u.bal, u.sz, c);
  }

  lemma Rotate2Ready<K>(m: Mem<K>, p: Node<K>, dir: bool, t: Tree<K>)
    requires Rep(m, p, t) && Distinct(t) && t.Bin? && Sub(t, !dir).Bin? && Sub(Sub(t, !dir), dir).Bin?
    ensures p in m && m[p].Child(!dir) != null && m[p].Child(!dir) in m && m[p].Child(!dir) != p
    ensures m[p].Child(!dir) in Nodes(t)
    ensures var q := m[p].Child(!dir);
      && m[q].Child(dir) != null && m[q].Child(dir) in m && m[q].Child(dir) != p && m[q].Child(dir) != q
      && m[q].Child(dir) in Nodes(t)
    ensures var r := m[m[p].Child(!dir)].Child(dir);
      && (m[r].Child(dir) != null ==> m[r].Child(dir) in m)
  {
    var tq := Sub(t, !dir);
    OpenRep(m, p, dir, t);
    OpenRep(m, m[p].Child(!dir), dir, tq);
    OpenRep(m, m[m[p].Child(!dir)].Child(dir), dir, Sub(tq, dir));
    RepTop(m, m[m[m[p].Child(!dir)].Child(dir)].Child(dir), Sub(Sub(tq, dir), dir));
  }

  // The four subtrees a double rotation hands around are themselves untouched.
  lemma Rotate2Leaves<K>(m: Mem<K>, p: Node<K>, q: Node<K>, r: Node<K>, dir: bool, t: Tree<K>)
    requires Rep(m, p, t) && Distinct(t) && t.Bin? && Sub(t, !dir).Bin? && Sub(Sub(t, !dir), dir).Bin?
    requires q == Sub(t, !dir).n && r == Sub(Sub(t, !dir), dir).n
    ensures p == t.n && p != q && p != r && q != r
    ensures p in m && q in m && r in m && (m[r].Child(dir) != null ==> m[r].Child(dir) in m)
    ensures m[p].size == t.sz && m[q].size == Sub(t, !dir).sz && m[r].balance == Sub(Sub(t, !dir), dir).bal
    ensures SizeAt(m, m[r].Child(dir)) == SizeOf(Sub(Sub(Sub(t, !dir), dir), dir))
    ensures Rep(Rewired2(m, p, q, r, dir), m[p].Child(dir), Sub(t, dir))
    ensures Rep(Rewired2(m, p, q, r, dir), m[r].Child(dir), Sub(Sub(Sub(t, !dir), dir), dir))
    ensures Rep(Rewired2(m, p, q, r, dir), m[r].Child(!dir), Sub(Sub(Sub(t, !dir), dir), !dir))
    ensures Rep(Rewired2(m, p, q, r, dir), m[q].Child(!dir), Sub(Sub(t, !dir), !dir))
  {
    var tq := Sub(t, !dir);
    var tr := Sub(tq, dir);
    OpenRep(m, p, dir, t);
    OpenRep(m, q, dir, tq);
    OpenRep(m, r, dir, tr);
    RepTop(m, m[r].Child(dir), Sub(tr, dir));
    var m' := Rewired2(m, p, q, r, dir);
    RepSame(m, m', m[p].Child(dir), Sub(t, dir));
    RepSame(m, m', m[r].Child(dir), Sub(tr, dir));
    RepSame(m, m', m[r].Child(!dir), Sub(tr, !dir));
    RepSame(m, m', m[q].Child(!dir), Sub(tq, !dir));
  }

  lemma Rotate2Rep<K>(m: Mem<K>, p: Node<K>, q: Node<K>, r: Node<K>, dir: bool, t: Tree<K>)
    requires Rep(m, p, t) && Distinct(t) && t.Bin? && Sub(t, !dir).Bin? && Sub(Sub(t, !dir), dir).Bin?
    requires q == Sub(t, !dir).n && r == Sub(Sub(t, !dir), dir).n
    ensures p in m && q in m && r in m && (m[r].Child(dir) != null ==> m[r].Child(dir) in m)
    ensures Rep(Rewired2(m, p, q, r, dir), r, Rotated2(t, dir))
  {
    Rotate2Leaves(m, p, q, r, dir, t);
    var m', u := Rewired2(m, p, q, r, dir), Rotated2(t, dir);
    var low, high := Sub(u, dir), Sub(u, !dir);
    MkRep(m', p, dir, Sub(low, dir), low.n, low.bal, low.sz, Sub(low, !dir));
    MkRep(m', q, dir, Sub(high, dir), high.n, high.bal, high.sz, Sub(high, !dir));
    MkRep(m', r, dir, low, u.n, u.bal, u.sz, high);
  }

  // ---- Rotations on a well-formed tree --------------------------------------

  // `R` stands in for `S`: same nodes in the same order, well formed.
  ghost predicate StandsIn<K>(R: Tree<K>, S: Tree<K>) {
    InOrder(R) == InOrder(S) && Nodes(R) == Nodes(S) && Distinct(R) && Sized(R)
  }

  // The memory has changed at most at the nodes `s`.
  ghost predicate ChangedWithin<K>(m: Mem<K>, m': Mem<K>, s: set<Node<K>>) {
    m'.Keys == m.Keys && forall n :: n in m && n !in s ==> m'[n] == m[n]
  }

  // A single rotation followed by stores to both balance fields.
  method RotateSingle<K>(p: Node<K>, q: Node<K>, which: bool, low: int, top: int, ghost m: Mem<K>, ghost S: Tree<K>)
    returns (ghost m': Mem<K>)
    requires Mirrors(m) && Rep(m, p, S) && Distinct(S) && Sized(S) && S.Bin? && Sub(S, !which).Bin?
    requires q == Sub(S, !which).n
    modifies m.Keys
    ensures Mirrors(m') && ChangedWithin(m, m', Nodes(S))
    ensures Rep(m', q, Single(S, which, low, top)) && StandsIn(Single(S, which, low, top), S)
  {
    hide ChangedWithin;
    Rotate1Ready(m, p, which, S);
    Rotate1Rep(m, p, which, S);
    SingleKeeps(S, which, low, top);
    Rotate1Distinct(S, which);
    Rotate1Within(m, p, which, S);
    var q', m1 := Rotate1(p, which, m);
    m' := StoreBalance(q, top, m1);
    ChangedStore(m, m1, q, top, Nodes(S));
    ChangedStore(m, m', p, low, Nodes(S));
    m' := StoreBalance(p, low, m');
    SingleRep(m1, p, q, which, S, low, top);
  }

  // A rotation changes the two nodes that turn and no other.
  lemma Rotate1Within<K>(m: Mem<K>, p: Node<K>, dir: bool, t: Tree<K>)
    requires Rep(m, p, t) && Distinct(t) && t.Bin? && Sub(t, !dir).Bin?
    ensures (Rotate1Ready(m, p, dir, t); ChangedWithin(m, Rewired1(m, p, dir), Nodes(t)))
  {
    Rotate1Ready(m, p, dir, t);
    assert p in Nodes(t) && m[p].Child(!dir) in Nodes(t);
  }

  lemma ChangedStore<K>(m: Mem<K>, m': Mem<K>, n: Node<K>, b: int, s: set<Node<K>>)
    requires ChangedWithin(m, m', s) && n in m' && n in s
    ensures ChangedWithin(m, m'[n := m'[n].(balance := b)], s)
  {
  }

  lemma SingleRep<K>(m: Mem<K>, p: Node<K>, q: Node<K>, dir: bool, S: Tree<K>, low: int, top: int)
    requires S.Bin? && Sub(S, !dir).Bin? && Distinct(S) && p == S.n && q == Sub(S, !dir).n
    requires Rep(m, q, Rotated1(S, dir))
    ensures p in m && q in m && p != q
    ensures Rep(m[q := m[q].(balance := top)][p := m[p].(balance := low)], q, Single(S, dir, low, top))
  {
    var u := Rotated1(S, dir);
    var v := Sub(u, dir);
    Rotate1Distinct(S, dir);
    OpenRep(m, q, dir, u);
    OpenRep(m, p, dir, v);
    var m' := m[q := m[q].(balance := top)][p := m[p].(balance := low)];
    RepSame(m, m', m[p].Child(dir), Sub(v, dir));
    RepSame(m, m', m[p].Child(!dir), Sub(v, !dir));
    RepSame(m, m', m[q].Child(!dir), Sub(u, !dir));
    MkRep(m', p, dir, Sub(v, dir), v.n, low, v.sz, Sub(v, !dir));
    MkRep(m', q, dir, WithBalance(v, low), u.n, top, u.sz, Sub(u, !dir));
  }

  method RotateDouble<K>(p: Node<K>, which: bool, ghost m: Mem<K>, ghost S: Tree<K>)
    returns (r: Node<K>, ghost m': Mem<K>)
    requires Mirrors(m) && Rep(m, p, S) && Distinct(S) && Sized(S)
    requires S.Bin? && Sub(S, !which).Bin? && Sub(Sub(S, !which), which).Bin?
    modifies m.Keys
    ensures Mirrors(m') && ChangedWithin(m, m', Nodes(S))
    ensures Rep(m', r, Rotated2(S, which)) && StandsIn(Rotated2(S, which), S)
  {
    Rotate2Ready(m, p, which, S);
    ghost var q := m[p].Child(!which);
    OpenRep(m, p, which, S);
    OpenRep(m, q, which, Sub(S, !which));
    Rotate2Rep(m, p, q, m[q].Child(which), which, S);
    Rotate2Order(S, which);
    Rotate2Distinct(S, which);
    Rotate2Sized(S, which);
    r, m' := Rotate2(p, which, m);
  }

  // A subtree may be exchanged for one that stands in for it.
  lemma StandInPlug<K>(up: seq<Frame<K>>, S: Tree<K>, R: Tree<K>)
    requires StandsIn(R, S) && Sized(Plug(up, S)) && Distinct(Plug(up, S))
    ensures StandsIn(Plug(up, R), Plug(up, S))
  {
    InOrderPlug(up, S);
    InOrderPlug(up, R);
    NodesPlug(up, S);
    NodesPlug(up, R);
    SizedPlug(up, S);
    SizedPlug(up, R);
    UnplugDistinct(up, S);
    DistinctPlug(up, R);
  }
}
