/**
 Deletion from the AVL tree of `kavl.h`.

 The source records the path from a stack-allocated `fake` node above the root
 down to the element, splices the element (or its successor) out, and walks the
 path back up, rebalancing while the subtree below keeps getting shorter.
 */
module KavlErase {
  import opened Common
  import opened KavlShape
  import opened KavlBalance
  import opened KavlRotate
  import opened KavlSearch
  import opened KavlInsert

  // ---- Going back up --------------------------------------------------------

  // The path `fs` over the subtree `cur`, which is one level shorter than the
  // balance factors above it say.
  ghost predicate Short<K>(fs: seq<Frame<K>>, cur: Tree<K>) {
    && Balanced(cur) && Sized(cur) && Distinct(cur) && Apart(fs, Nodes(cur))
    && PathBalanced(fs, Height(cur) + 1) && PathSized(fs, |InOrder(cur)|)
  }

  // The node of frame `f` over `cur`, with a new balance.
  ghost function Rejoined<K>(f: Frame<K>, cur: Tree<K>, bal: int): Tree<K> {
    Join(f.(bal := bal), cur)
  }

  // What the balance of a node decides once its subtree on side `f.dir` is shorter.
  lemma ShrinkCases<K>(f: Frame<K>, cur: Tree<K>, h: int)
    requires Balanced(cur) && Balanced(f.sib)
    requires f.bal == Lean(f.dir, Height(cur) + 1, Height(f.sib)) && -1 <= f.bal <= 1
    requires h == 1 + Max(Height(cur) + 1, Height(f.sib))
    ensures var b := f.bal - Tilt(f.dir); var T := Rejoined(f, cur, b);
      && (f.bal == 0 ==> Balanced(T) && Height(T) == h)
      && (f.bal == Tilt(f.dir) ==> b == 0 && Balanced(T) && Height(T) == h - 1)
      && (f.bal == -Tilt(f.dir) ==> Leaning(T, f.dir) && Sub(T, !f.dir) == f.sib && Height(T) == h)
  {
    MkBalanced(f.dir, cur, f.n, f.bal - Tilt(f.dir), f.sz, f.sib);
  }

  lemma RejoinKeeps<K>(fs: seq<Frame<K>>, cur: Tree<K>, bal: int)
    requires fs != [] && Short(fs, cur)
    ensures var k := |fs| - 1; var T := Rejoined(fs[k], cur, bal);
      && Sized(T) && Distinct(T) && Apart(fs[..k], Nodes(T)) && PathSized(fs[..k], |InOrder(T)|)
      && InOrder(Plug(fs[..k], T)) == InOrder(Plug(fs, cur))
  {
    var k := |fs| - 1;
    var f := fs[k].(bal := bal);
    MkSized(f.dir, cur, f.n, f.bal, f.sz, f.sib);
    MkDistinct(f.dir, cur, f.n, f.bal, f.sz, f.sib);
    ApartPop(fs, Nodes(cur));
    assert FrameNodes(fs[k]) !! Nodes(cur);
    InOrderPlug(fs[..k], Join(f, cur));
    InOrderPlug(fs[..k], Join(fs[k], cur));
    assert InOrder(Join(f, cur)) == InOrder(Join(fs[k], cur));
  }

  // Rotates a node that leans by two over a child that may be even.
  // `done` says that the height is back to what it was.
  method LevelShort<K>(q: Node<K>, which: bool, ghost m: Mem<K>, ghost T: Tree<K>)
    returns (r: Node<K>, done: bool, ghost m': Mem<K>, ghost R: Tree<K>)
    requires Mirrors(m) && Rep(m, q, T) && Distinct(T) && Sized(T) && T.Bin? && Leaning(T, which)
    modifies m.Keys
    ensures Mirrors(m') && ChangedWithin(m, m', Nodes(T))
    ensures Rep(m', r, R) && StandsIn(R, T) && Balanced(R)
    ensures Height(R) == if done then Height(T) else Height(T) - 1
  {
    var b1 := if which then -1 else 1;
    SingleBalances(T, which);
    DoubleBalances(T, which);
    OpenRep(m, q, which, T);
    assert q.Fields() == m[q];
    r := q.Child(!which);
    OpenRep(m, r, which, Sub(T, !which));
    assert r.Fields() == m[r];
    if r.balance == -b1 {
      r, m' := RotateDouble(q, which, m, T);
      done, R := false, Rotated2(T, which);
    } else if r.balance == 0 {
      m' := RotateSingle(q, r, which, b1, -b1, m, T);
      done, R := true, Single(T, which, b1, -b1);
    } else {
      m' := RotateSingle(q, r, which, 0, 0, m, T);
      done, R := false, Single(T, which, 0, 0);
    }
  }

  // The tree whose node `f.n` sits above the shorter `cur`.
  ghost predicate Sinking<K>(m: Mem<K>, f: Frame<K>, cur: Tree<K>) {
    && Linked(m, f, Top(cur)) && Rep(m, Top(cur), cur)
    && Balanced(cur) && Balanced(f.sib)
    && f.bal == Lean(f.dir, Height(cur) + 1, Height(f.sib)) && -1 <= f.bal <= 1
    && Sized(Join(f, cur)) && Distinct(Join(f, cur))
  }

  lemma SinkStore<K>(m: Mem<K>, f: Frame<K>, cur: Tree<K>, bal: int)
    requires Sinking(m, f, cur)
    ensures f.n in m
    ensures var T := Rejoined(f, cur, bal);
      && Rep(m[f.n := m[f.n].(balance := bal)], f.n, T) && Sized(T) && Distinct(T) && StandsIn(T, Join(f, cur))
  {
    var m', T := m[f.n := m[f.n].(balance := bal)], Rejoined(f, cur, bal);
    MkDistinct(f.dir, cur, f.n, f.bal, f.sz, f.sib);
    MkDistinct(f.dir, cur, f.n, bal, f.sz, f.sib);
    MkSized(f.dir, cur, f.n, f.bal, f.sz, f.sib);
    MkSized(f.dir, cur, f.n, bal, f.sz, f.sib);
    RepSame(m, m', Top(cur), cur);
    RepSame(m, m', m[f.n].Child(!f.dir), f.sib);
    MkRep(m', f.n, f.dir, cur, f.n, bal, f.sz, f.sib);
    assert InOrder(T) == InOrder(Join(f, cur));
  }

  // The subtree `T` after its top balance moved by one, when it used to have height `h`.
  ghost predicate Moved<K>(T: Tree<K>, which: bool, h: int) {
    && Sized(T) && Distinct(T) && T.Bin?
    && (|| (T.bal == -Tilt(which) && Balanced(T) && Height(T) == h)
        || (T.bal == 0 && Balanced(T) && Height(T) == h - 1)
        || (T.bal == -2 * Tilt(which) && Leaning(T, which) && Height(T) == h))
  }

  method Resolve<K>(q: Node<K>, which: bool, ghost m: Mem<K>, ghost T: Tree<K>, ghost h: int)
    returns (r: Node<K>, done: bool, ghost m': Mem<K>, ghost R: Tree<K>)
    requires Mirrors(m) && Rep(m, q, T) && Moved(T, which, h)
    modifies m.Keys
    ensures Mirrors(m') && ChangedWithin(m, m', Nodes(T))
    ensures Rep(m', r, R) && StandsIn(R, T) && Balanced(R) && Height(R) == if done then h else h - 1
  {
    var b1 := if which then -1 else 1;
    OpenRep(m, q, which, T);
    assert q.Fields() == m[q];
    if q.balance == b1 {
      r, done, m', R := q, true, m, T;
    } else if q.balance == 2 * b1 {
      r, done, m', R := LevelShort(q, which, m, T);
    } else {
      r, done, m', R := q, false, m, T;
    }
  }

  lemma SinkMoved<K>(m: Mem<K>, f: Frame<K>, cur: Tree<K>)
    requires Sinking(m, f, cur)
    ensures var T := Rejoined(f, cur, f.bal - Tilt(f.dir));
      Moved(T, f.dir, 1 + Max(Height(cur) + 1, Height(f.sib))) && Nodes(T) == Nodes(Join(f, cur)) && f.n in Nodes(T)
  {
    SinkStore(m, f, cur, f.bal - Tilt(f.dir));
    ShrinkCases(f, cur, 1 + Max(Height(cur) + 1, Height(f.sib)));
  }

  // One turn of the loop that goes back up, at a node whose subtree had height `h`.
  method ShrinkNode<K>(q: Node<K>, which: bool, ghost m: Mem<K>, ghost f: Frame<K>, ghost cur: Tree<K>, ghost h: int)
    returns (r: Node<K>, done: bool, ghost m': Mem<K>, ghost R: Tree<K>)
    requires Mirrors(m) && Sinking(m, f, cur) && q == f.n && which == f.dir
    requires h == 1 + Max(Height(cur) + 1, Height(f.sib))
    modifies m.Keys
    ensures Mirrors(m') && ChangedWithin(m, m', Nodes(Join(f, cur)))
    ensures Rep(m', r, R) && StandsIn(R, Join(f, cur)) && Balanced(R) && Height(R) == if done then h else h - 1
  {
    hide ChangedWithin;
    hide Rep;
    hide Moved;
    ghost var T := Rejoined(f, cur, f.bal - Tilt(f.dir));
    SinkMoved(m, f, cur);
    SinkStore(m, f, cur, f.bal - Tilt(f.dir));
    assert q.Fields() == m[q];
    ghost var m0;
    m0 := StoreBalance(q, if which then q.balance - 1 else q.balance + 1, m);
    r, done, m', R := Resolve(q, which, m0, T, h);
    ChangedThen(m, q, f.bal - Tilt(f.dir), m', Nodes(T));
  }

  lemma ChangedThen<K>(m: Mem<K>, n: Node<K>, b: int, m': Mem<K>, s: set<Node<K>>)
    requires n in m && n in s && ChangedWithin(m[n := m[n].(balance := b)], m', s)
    ensures ChangedWithin(m, m', s)
  {
  }

  // ---- The loop back up -----------------------------------------------------

  // The frame of the node above the root.
  ghost function FakeFrame<K>(fake: Node<K>, m: Mem<K>): Frame<K>
    requires fake in m
  {
    Frame(fake, false, m[fake].balance, m[fake].size, Nil)
  }

  // Under `ff`, the path `fs` leads to `cur`, which is one level too short.
  ghost predicate Rising<K>(m: Mem<K>, ff: Frame<K>, fs: seq<Frame<K>>, cur: Tree<K>) {
    && PathRep(m, ff.n, [ff] + fs, Top(cur)) && Rep(m, Top(cur), cur)
    && Apart([ff] + fs, Nodes(cur)) && Short(fs, cur)
  }

  lemma RisingSinks<K>(m: Mem<K>, ff: Frame<K>, fs: seq<Frame<K>>, cur: Tree<K>)
    requires Rising(m, ff, fs, cur) && fs != []
    ensures Sinking(m, fs[|fs| - 1], cur)
    ensures PathRep(m, ff.n, [ff] + fs[..|fs| - 1], fs[|fs| - 1].n)
    ensures Apart([ff] + fs[..|fs| - 1], Nodes(Join(fs[|fs| - 1], cur)))
    ensures PathBalanced(fs[..|fs| - 1], 1 + Max(Height(cur) + 1, Height(fs[|fs| - 1].sib)))
  {
    hide Plug;
    hide Rep;
    hide Sized;
    hide Distinct;
    var k := |fs| - 1;
    var f, gs := fs[k], [ff] + fs;
    assert gs[..|gs| - 1] == [ff] + fs[..k];
    RejoinKeeps(fs, cur, f.bal);
    assert Rejoined(f, cur, f.bal) == Join(f, cur);
    ApartPop(gs, Nodes(cur));
    assert Nodes(cur) + FrameNodes(f) == Nodes(Join(f, cur));
  }

  // A path over a subtree that used to have height `h`, up to its balance.
  ghost predicate Owed<K>(up: seq<Frame<K>>, T: Tree<K>, h: int) {
    Sized(T) && Distinct(T) && Apart(up, Nodes(T)) && PathSized(up, |InOrder(T)|) && PathBalanced(up, h)
  }

  lemma OwedBy<K>(fs: seq<Frame<K>>, cur: Tree<K>)
    requires Short(fs, cur) && fs != []
    ensures var k := |fs| - 1;
      && Owed(fs[..k], Join(fs[k], cur), 1 + Max(Height(cur) + 1, Height(fs[k].sib)))
      && InOrder(Plug(fs[..k], Join(fs[k], cur))) == InOrder(Plug(fs, cur))
  {
    var k := |fs| - 1;
    RejoinKeeps(fs, cur, fs[k].bal);
    assert Rejoined(fs[k], cur, fs[k].bal) == Join(fs[k], cur);
  }

  // Exchanging a subtree for a balanced one that stands in for it: either the
  // shortfall moves up the path, or the whole tree is well formed again.
  lemma ExchangeOrder<K>(up: seq<Frame<K>>, T: Tree<K>, R: Tree<K>)
    requires StandsIn(R, T)
    ensures InOrder(Plug(up, R)) == InOrder(Plug(up, T))
  {
    InOrderPlug(up, R);
    InOrderPlug(up, T);
  }

  lemma ExchangeWhole<K>(up: seq<Frame<K>>, T: Tree<K>, h: int, R: Tree<K>)
    requires Owed(up, T, h) && StandsIn(R, T) && Balanced(R) && Height(R) == h
    ensures Balanced(Plug(up, R)) && Sized(Plug(up, R)) && Distinct(Plug(up, R))
  {
    BalancedPlug(up, R);
    SizedPlug(up, R);
    DistinctPlug(up, R);
  }

  lemma ExchangeShort<K>(up: seq<Frame<K>>, T: Tree<K>, h: int, R: Tree<K>)
    requires Owed(up, T, h) && StandsIn(R, T) && Balanced(R) && Height(R) == h - 1
    ensures Short(up, R)
  {
  }

  lemma Exchange<K>(up: seq<Frame<K>>, T: Tree<K>, h: int, R: Tree<K>)
    requires Owed(up, T, h) && StandsIn(R, T) && Balanced(R)
    ensures InOrder(Plug(up, R)) == InOrder(Plug(up, T))
    ensures Height(R) == h - 1 ==> Short(up, R)
    ensures Height(R) == h ==> Balanced(Plug(up, R)) && Sized(Plug(up, R)) && Distinct(Plug(up, R))
  {
    ExchangeOrder(up, T, R);
    if Height(R) == h {
      ExchangeWhole(up, T, h, R);
    } else if Height(R) == h - 1 {
      ExchangeShort(up, T, h, R);
    }
  }

  // Stores `r` over `q` in the last link of a path.
  method Hook<K>(parent: Node<K>, side: bool, q: Node<K>, r: Node<K>, ghost m: Mem<K>, ghost root: Node<K>,
                 ghost gs: seq<Frame<K>>, ghost R: Tree<K>)
    returns (ghost m': Mem<K>)
    requires Mirrors(m) && gs != [] && PathRep(m, root, gs, q) && Apart(gs, Nodes(R)) && Rep(m, r, R)
    requires parent == gs[|gs| - 1].n && side == gs[|gs| - 1].dir
    modifies m.Keys
    ensures Mirrors(m') && m'.Keys == m.Keys && PathRep(m', root, gs, r) && Rep(m', r, R)
  {
    m' := m;
    if r != q {
      ApartLess(gs, Nodes(R));
      PathRepRelink(m, root, gs, q, r);
      m' := StoreChild(parent, side, r, m);
      assert parent in FrameNodes(gs[|gs| - 1]);
      RepSame(m, m', r, R);
    }
  }

  // One turn of the loop, with the store to the parent's link.
  method ClimbOne<K>(q: Node<K>, which: bool, parent: Node<K>, side: bool,
                     ghost m: Mem<K>, ghost ff: Frame<K>, ghost fs: seq<Frame<K>>, ghost cur: Tree<K>, ghost h: int)
    returns (done: bool, ghost m': Mem<K>, ghost R: Tree<K>)
    requires Mirrors(m) && Rising(m, ff, fs, cur) && fs != []
    requires q == fs[|fs| - 1].n && which == fs[|fs| - 1].dir
    requires parent == ([ff] + fs)[|fs| - 1].n && side == ([ff] + fs)[|fs| - 1].dir
    requires h == 1 + Max(Height(cur) + 1, Height(fs[|fs| - 1].sib))
    modifies m.Keys
    ensures Mirrors(m') && m'.Keys == m.Keys
    ensures PathRep(m', ff.n, [ff] + fs[..|fs| - 1], Top(R)) && Rep(m', Top(R), R)
    ensures Apart([ff] + fs[..|fs| - 1], Nodes(R))
    ensures StandsIn(R, Join(fs[|fs| - 1], cur)) && Balanced(R) && Height(R) == if done then h else h - 1
  {
    ghost var k := |fs| - 1;
    ghost var f, gs := fs[k], [ff] + fs[..k];
    RisingSinks(m, ff, fs, cur);
    var r;
    r, done, m', R := ShrinkNode(q, which, m, f, cur, h);
    RepTop(m', r, R);
    ApartPathNodes(gs, Nodes(Join(f, cur)));
    PathRepSame(m, m', ff.n, gs, q);
    m' := Hook(parent, side, q, r, m', ff.n, gs, R);
  }

  // The tree hanging off the left link of the fake node.
  lemma Rooted<K>(m: Mem<K>, ff: Frame<K>, fs: seq<Frame<K>>, R: Tree<K>)
    requires PathRep(m, ff.n, [ff] + fs, Top(R)) && Rep(m, Top(R), R) && !ff.dir
    ensures ff.n in m && Rep(m, m[ff.n].left, Plug(fs, R))
  {
    var gs := [ff] + fs;
    PathRepAt(m, ff.n, gs, 0, Top(R));
    PathRepSplit(m, ff.n, gs, 1, Top(R));
    assert gs[1..] == fs;
    RepPlug(m, m[ff.n].left, fs, Top(R), R);
  }

  // The arrays `path` and `dir` hold the frames.
  ghost predicate Stored<K>(ps: seq<Node?<K>>, ds: seq<bool>, gs: seq<Frame<K>>) {
    |ps| == |gs| == |ds| && forall i :: 0 <= i < |gs| ==> ps[i] == gs[i].n && ds[i] == gs[i].dir
  }

  lemma StoredAt<K>(ps: seq<Node?<K>>, ds: seq<bool>, ff: Frame<K>, fs: seq<Frame<K>>, d: nat)
    requires Stored(ps, ds, [ff] + fs) && 0 < d <= |fs|
    ensures var gs := fs[..d];
      && ps[d] == gs[d - 1].n && ds[d] == gs[d - 1].dir
      && ps[d - 1] == ([ff] + gs)[d - 1].n && ds[d - 1] == ([ff] + gs)[d - 1].dir
      && gs[..d - 1] == fs[..d - 1]
  {
  }

  lemma ClimbNext<K>(m: Mem<K>, ff: Frame<K>, fs: seq<Frame<K>>, cur: Tree<K>, R: Tree<K>, h: int)
    requires Short(fs, cur) && fs != [] && h == 1 + Max(Height(cur) + 1, Height(fs[|fs| - 1].sib))
    requires PathRep(m, ff.n, [ff] + fs[..|fs| - 1], Top(R)) && Rep(m, Top(R), R)
    requires Apart([ff] + fs[..|fs| - 1], Nodes(R)) && !ff.dir
    requires StandsIn(R, Join(fs[|fs| - 1], cur)) && Balanced(R)
    ensures InOrder(Plug(fs[..|fs| - 1], R)) == InOrder(Plug(fs, cur))
    ensures Height(R) == h - 1 ==> Rising(m, ff, fs[..|fs| - 1], R)
    ensures Height(R) == h ==> ff.n in m && Valid(m, m[ff.n].left, Plug(fs[..|fs| - 1], R))
  {
    hide Max;
    OwedBy(fs, cur);
    Exchange(fs[..|fs| - 1], Join(fs[|fs| - 1], cur), h, R);
    Rooted(m, ff, fs[..|fs| - 1], R);
  }

  // One turn of the loop, reading the arrays.
  method ClimbAt<K>(path: array<Node?<K>>, dir: array<bool>, d: nat, ghost ps: seq<Node?<K>>, ghost ds: seq<bool>,
                    ghost m: Mem<K>, ghost ff: Frame<K>, ghost fs: seq<Frame<K>>, ghost cur: Tree<K>)
    returns (done: bool, ghost m': Mem<K>, ghost R: Tree<K>)
    requires Mirrors(m) && Stored(ps, ds, [ff] + fs) && 0 < d <= |fs| && !ff.dir
    requires ps <= path[..] && ds <= dir[..]
    requires Rising(m, ff, fs[..d], cur)
    modifies m.Keys
    ensures Mirrors(m') && m'.Keys == m.Keys
    ensures InOrder(Plug(fs[..d - 1], R)) == InOrder(Plug(fs[..d], cur))
    ensures !done ==> Rising(m', ff, fs[..d - 1], R)
    ensures done ==> ff.n in m' && Valid(m', m'[ff.n].left, Plug(fs[..d - 1], R))
  {
    ghost var gs := fs[..d];
    ghost var h := 1 + Max(Height(cur) + 1, Height(gs[d - 1].sib));
    StoredAt(ps, ds, ff, fs, d);
    assert path[d] == ps[d] && path[d - 1] == ps[d - 1] && dir[d] == ds[d] && dir[d - 1] == ds[d - 1];
    done, m', R := ClimbOne(path[d], dir[d], path[d - 1], dir[d - 1], m, ff, gs, cur, h);
    ClimbNext(m', ff, gs, cur, R, h);
  }

  method Climb<K>(path: array<Node?<K>>, dir: array<bool>, d0: nat, ghost ps: seq<Node?<K>>, ghost ds: seq<bool>,
                  ghost m: Mem<K>, ghost ff: Frame<K>, ghost fs: seq<Frame<K>>, ghost cur0: Tree<K>)
    returns (ghost m': Mem<K>, ghost t': Tree<K>)
    requires Mirrors(m) && Rising(m, ff, fs, cur0) && !ff.dir && d0 == |fs| + 1
    requires ps <= path[..] && ds <= dir[..] && Stored(ps, ds, [ff] + fs)
    modifies m.Keys
    ensures Mirrors(m') && m'.Keys == m.Keys && ff.n in m'
    ensures Valid(m', m'[ff.n].left, t') && InOrder(t') == InOrder(Plug(fs, cur0))
  {
    hide Mirrors;
    var d := d0 - 1;
    ghost var cur := cur0;
    m' := m;
    assert fs[..d] == fs;
    while d > 0
      invariant 0 <= d <= |fs| && Mirrors(m') && m'.Keys == m.Keys
      invariant Rising(m', ff, fs[..d], cur) && InOrder(Plug(fs[..d], cur)) == InOrder(Plug(fs, cur0))
    {
      var done;
      done, m', cur := ClimbAt(path, dir, d, ps, ds, m', ff, fs, cur);
      d := d - 1;
      if done {
        t' := Plug(fs[..d], cur);
        return;
      }
    }
    Rooted(m', ff, fs[..0], cur);
    t' := Plug(fs[..0], cur);
  }

  // ---- Splicing the successor in --------------------------------------------

  ghost predicate AllLeft<K>(cs: seq<Frame<K>>) {
    forall i :: 0 <= i < |cs| ==> !cs[i].dir
  }

  lemma {:induction false} AllLeftBefore<K>(cs: seq<Frame<K>>)
    requires AllLeft(cs)
    ensures Before(cs) == []
    decreases |cs|
  {
    if cs != [] { AllLeftBefore(cs[..|cs| - 1]); }
  }

  // The frame of the successor `rn` once it has taken the place of `cur`'s top.
  ghost function HeirFrame<K>(cur: Tree<K>, rn: Node<K>): Frame<K>
    requires cur.Bin?
  {
    Frame(rn, true, cur.bal, cur.sz - 1, cur.l)
  }

  // `cs` leads left through `cur.r` to its first node, the top of `rt`.
  ghost predicate Heir<K>(cur: Tree<K>, cs: seq<Frame<K>>, rt: Tree<K>) {
    cur.Bin? && rt.Bin? && rt.l.Nil? && AllLeft(cs) && cur.r == Plug(cs, rt)
  }

  lemma HeirBalanced<K>(cur: Tree<K>, cs: seq<Frame<K>>, rt: Tree<K>, cs': seq<Frame<K>>)
    requires Heir(cur, cs, rt) && Balanced(cur) && SameBalance(cs, cs')
    ensures Balanced(rt.r) && Height(rt) == Height(rt.r) + 1
    ensures Balanced(Join(HeirFrame(cur, rt.n), Plug(cs', rt)))
    ensures Height(Join(HeirFrame(cur, rt.n), Plug(cs', rt))) == Height(cur)
  {
    BalancedPlug(cs, rt);
    PathBalancedSame(cs, cs', Height(rt));
    BalancedPlug(cs', rt);
    HeightPlug(cs, cs', rt, rt);
  }

  lemma {:induction false} HeightPlug<K>(fs: seq<Frame<K>>, gs: seq<Frame<K>>, t: Tree<K>, u: Tree<K>)
    requires Alike(fs, gs) && Height(t) == Height(u)
    ensures Height(Plug(fs, t)) == Height(Plug(gs, u))
    decreases |fs|
  {
    if fs != [] {
      var k := |fs| - 1;
      HeightPlug(fs[..k], gs[..k], Join(fs[k], t), Join(gs[k], u));
    }
  }

  lemma HeirSized<K>(cur: Tree<K>, cs: seq<Frame<K>>, rt: Tree<K>, cs': seq<Frame<K>>)
    requires Heir(cur, cs, rt) && Sized(cur) && SizedBy(cs, cs', -1)
    ensures Sized(rt.r)
    ensures Sized(Join(HeirFrame(cur, rt.n), Plug(cs', rt.r)))
    ensures |InOrder(Join(HeirFrame(cur, rt.n), Plug(cs', rt.r)))| == |InOrder(cur)| - 1
  {
    SizedPlug(cs, rt);
    PathSizedBy(cs, cs', |InOrder(rt)|, -1);
    SizedPlug(cs', rt.r);
    HeirOrder(cur, cs, rt, cs');
    assert InOrder(rt) == [rt.n] + InOrder(rt.r);
  }

  lemma HeirOrder<K>(cur: Tree<K>, cs: seq<Frame<K>>, rt: Tree<K>, cs': seq<Frame<K>>)
    requires Heir(cur, cs, rt) && Alike(cs, cs')
    ensures InOrder(Join(HeirFrame(cur, rt.n), Plug(cs', rt.r))) == InOrder(cur.l) + InOrder(cur.r)
  {
    hide After;
    AllLeftBefore(cs);
    AlikeSides(cs, cs');
    InOrderPlug(cs, rt);
    InOrderPlug(cs', rt.r);
    assert InOrder(rt) == [rt.n] + InOrder(rt.r);
    assert InOrder(cur.r) == [rt.n] + InOrder(Plug(cs', rt.r));
  }

  lemma HeirDistinct<K>(cur: Tree<K>, cs: seq<Frame<K>>, rt: Tree<K>, cs': seq<Frame<K>>)
    requires Heir(cur, cs, rt) && Distinct(cur) && Alike(cs, cs')
    ensures Distinct(Join(HeirFrame(cur, rt.n), Plug(cs', rt.r)))
    ensures Nodes(Join(HeirFrame(cur, rt.n), Plug(cs', rt.r))) <= Nodes(cur) - {cur.n}
  {
    UnplugDistinct(cs, rt);
    NodesPlug(cs, rt);
    NodesPlug(cs', rt.r);
    PathNodesAlike(cs, cs');
    ApartPathNodes(cs, Nodes(rt));
    ApartAlike(cs, cs', Nodes(rt));
    ApartMore(cs', Nodes(rt), Nodes(rt.r));
    DistinctPlug(cs', rt.r);
  }

  lemma PlugSplice<K>(fs: seq<Frame<K>>, f: Frame<K>, cs: seq<Frame<K>>, t: Tree<K>)
    ensures Plug(fs + [f] + cs, t) == Plug(fs, Join(f, Plug(cs, t)))
  {
    var gs := fs + [f] + cs;
    PlugSplit(gs, |fs| + 1, t);
    assert gs[..|fs| + 1] == fs + [f] && gs[|fs| + 1..] == cs;
    PlugSnoc(fs, f, Plug(cs, t));
  }

  lemma SpliceBalanced<K>(fs: seq<Frame<K>>, cur: Tree<K>, cs: seq<Frame<K>>, rt: Tree<K>, cs': seq<Frame<K>>)
    requires Heir(cur, cs, rt) && Balanced(cur) && SameBalance(cs, cs') && PathBalanced(fs, Height(cur))
    ensures Balanced(rt.r) && PathBalanced(fs + [HeirFrame(cur, rt.n)] + cs', Height(rt.r) + 1)
  {
    var f := HeirFrame(cur, rt.n);
    HeirBalanced(cur, cs, rt, cs');
    BalancedPlug(fs, Join(f, Plug(cs', rt)));
    PlugSplice(fs, f, cs', rt);
    BalancedPlug(fs + [f] + cs', rt);
  }

  lemma SpliceSized<K>(fs: seq<Frame<K>>, cur: Tree<K>, cs: seq<Frame<K>>, rt: Tree<K>, cs': seq<Frame<K>>)
    requires Heir(cur, cs, rt) && Sized(cur) && SizedBy(cs, cs', -1) && PathSized(fs, |InOrder(cur)| - 1)
    ensures Sized(rt.r) && PathSized(fs + [HeirFrame(cur, rt.n)] + cs', |InOrder(rt.r)|)
  {
    var f := HeirFrame(cur, rt.n);
    HeirSized(cur, cs, rt, cs');
    SizedPlug(fs, Join(f, Plug(cs', rt.r)));
    PlugSplice(fs, f, cs', rt.r);
    SizedPlug(fs + [f] + cs', rt.r);
  }

  lemma SpliceApart<K>(fs: seq<Frame<K>>, cur: Tree<K>, cs: seq<Frame<K>>, rt: Tree<K>, cs': seq<Frame<K>>)
    requires Heir(cur, cs, rt) && Distinct(cur) && Alike(cs, cs') && Apart(fs, Nodes(cur))
    ensures Distinct(rt.r) && Apart(fs + [HeirFrame(cur, rt.n)] + cs', Nodes(rt.r))
  {
    var f := HeirFrame(cur, rt.n);
    var T := Join(f, Plug(cs', rt.r));
    HeirDistinct(cur, cs, rt, cs');
    ApartPathNodes(fs, Nodes(cur));
    ApartMore(fs, Nodes(cur), Nodes(T));
    DistinctPlug(fs, T);
    PlugSplice(fs, f, cs', rt.r);
    UnplugDistinct(fs + [f] + cs', rt.r);
  }

  lemma {:induction false} ApartTail<K>(ff: Frame<K>, fs: seq<Frame<K>>, s: set<Node<K>>)
    requires Apart([ff] + fs, s)
    ensures Apart(fs, s)
  {
    ApartSplit([ff] + fs, 1, s);
    assert ([ff] + fs)[1..] == fs;
  }

  lemma SpliceApartFake<K>(ff: Frame<K>, fs: seq<Frame<K>>, cur: Tree<K>, cs: seq<Frame<K>>, rt: Tree<K>,
                           cs': seq<Frame<K>>)
    requires Heir(cur, cs, rt) && Distinct(cur) && Alike(cs, cs') && Apart([ff] + fs, Nodes(cur))
    ensures var gs := fs + [HeirFrame(cur, rt.n)] + cs';
      Distinct(rt.r) && Apart([ff] + gs, Nodes(rt.r)) && Apart(gs, Nodes(rt.r))
  {
    var f := HeirFrame(cur, rt.n);
    var gs := fs + [f] + cs';
    SpliceApart([ff] + fs, cur, cs, rt, cs');
    assert [ff] + fs + [f] + cs' == [ff] + gs;
    ApartTail(ff, gs, Nodes(rt.r));
  }

  lemma SpliceOrder<K>(fs: seq<Frame<K>>, cur: Tree<K>, cs: seq<Frame<K>>, rt: Tree<K>, cs': seq<Frame<K>>)
    requires Heir(cur, cs, rt) && Alike(cs, cs')
    ensures InOrder(Plug(fs + [HeirFrame(cur, rt.n)] + cs', rt.r)) ==
      Before(fs) + (InOrder(cur.l) + InOrder(cur.r)) + After(fs)
  {
    var f := HeirFrame(cur, rt.n);
    HeirOrder(cur, cs, rt, cs');
    PlugSplice(fs, f, cs', rt.r);
    InOrderPlug(fs, Join(f, Plug(cs', rt.r)));
  }

  lemma SpliceShort<K>(ff: Frame<K>, fs: seq<Frame<K>>, cur: Tree<K>, cs: seq<Frame<K>>, rt: Tree<K>,
                       cs': seq<Frame<K>>)
    requires Heir(cur, cs, rt) && Balanced(cur) && Sized(cur) && Distinct(cur) && Apart([ff] + fs, Nodes(cur))
    requires PathBalanced(fs, Height(cur)) && PathSized(fs, |InOrder(cur)| - 1)
    requires SameBalance(cs, cs') && SizedBy(cs, cs', -1)
    ensures Short(fs + [HeirFrame(cur, rt.n)] + cs', rt.r)
    ensures Apart([ff] + (fs + [HeirFrame(cur, rt.n)] + cs'), Nodes(rt.r))
  {
    hide PathBalanced;
    SpliceBalanced(fs, cur, cs, rt, cs');
    SpliceSized(fs, cur, cs, rt, cs');
    SpliceApartFake(ff, fs, cur, cs, rt, cs');
  }

  // The memory once `rn` has taken over the links, balance and size of `p`.
  ghost function SplicedMem<K>(m: Mem<K>, p: Node<K>, rn: Node<K>, q: Node?<K>, parent: Node<K>, side: bool): Mem<K>
    requires p in m && rn in m && parent in m && (q != null ==> q in m)
  {
    var right := if q == null then m[rn].right else m[p].right;
    var m1 := if q == null then m else m[q := m[q].(left := m[rn].right)];
    var m2 := m1[rn := Cell(m[p].left, right, m[p].balance, m[p].size - 1)];
    m2[parent := m2[parent].Relinked(side, rn)]
  }

  // The stores of both splicing cases; `q` is null when `rn` is the right child of `p`.
  method StoreSplice<K>(p: Node<K>, rn: Node<K>, q: Node?<K>, parent: Node<K>, side: bool, ghost m: Mem<K>)
    returns (ghost m': Mem<K>)
    requires Mirrors(m) && p in m && rn in m && parent in m
    requires (q != null ==> q in m && q != rn && q != p && q != parent)
    requires p != rn && p != parent && rn != parent
    modifies m.Keys
    ensures Mirrors(m') && m' == SplicedMem(m, p, rn, q, parent, side)
  {
    assert p.Fields() == m[p] && rn.Fields() == m[rn];
    var right := if q == null then rn.right else p.right;
    m' := m;
    if q != null {
      m' := StoreChild(q, false, rn.right, m);
    }
    m' := StoreCell(rn, p.left, right, p.balance, p.size - 1, m');
    m' := StoreChild(parent, side, rn, m');
  }

  ghost function LastNode<K>(cs: seq<Frame<K>>): Node?<K> {
    if cs == [] then null else cs[|cs| - 1].n
  }

  // Where the pieces of `cur` lie in memory.
  lemma HeirParts<K>(m: Mem<K>, p: Node<K>, cur: Tree<K>, cs: seq<Frame<K>>, rt: Tree<K>)
    requires Rep(m, p, cur) && Distinct(cur) && Heir(cur, cs, rt)
    ensures p == cur.n && p in m && rt.n in m && p != rt.n && p !in Nodes(cur.l)
    ensures m[p].balance == cur.bal && m[p].size == cur.sz && Rep(m, m[p].left, cur.l)
    ensures m[p].right == Next(cs, 0, rt.n) && PathRep(m, m[p].right, cs, rt.n)
    ensures m[rt.n].right == Top(rt.r) && Rep(m, m[rt.n].right, rt.r)
    ensures rt.n !in PathNodes(cs) && rt.n !in Nodes(cur.l) && rt.n !in Nodes(rt.r) && Apart(cs, Nodes(rt))
    ensures PathNodes(cs) + Nodes(rt) == Nodes(cur.r)
    ensures PathNodes(cs) !! Nodes(cur.l) && p !in PathNodes(cs) && PathNodes(cs) !! Nodes(rt)
  {
    OpenRep(m, p, false, cur);
    UnplugRep(m, m[p].right, cs, rt);
    PathRepRoot(m, m[p].right, cs, rt.n);
    UnplugDistinct(cs, rt);
    NodesPlug(cs, rt);
    ApartPathNodes(cs, Nodes(rt));
    OpenRep(m, rt.n, false, rt);
    RepTop(m, m[rt.n].right, rt.r);
  }

  lemma LastInPath<K>(cs: seq<Frame<K>>)
    requires cs != []
    ensures cs[|cs| - 1].n in PathNodes(cs)
  {
    assert cs[|cs| - 1].n in FrameNodes(cs[|cs| - 1]);
  }

  lemma SpliceReady<K>(m: Mem<K>, root: Node?<K>, gs: seq<Frame<K>>, p: Node<K>, cur: Tree<K>, cs: seq<Frame<K>>,
                       rt: Tree<K>)
    requires gs != [] && PathRep(m, root, gs, p) && Apart(gs, Nodes(cur))
    requires Rep(m, p, cur) && Distinct(cur) && Heir(cur, cs, rt)
    ensures var rn, q, parent := rt.n, LastNode(cs), LastNode(gs);
      && p in m && rn in m && parent != null && parent in m
      && (q != null ==> q in m && q != rn && q != p && q != parent)
      && p != rn && p != parent && rn != parent
  {
    HeirParts(m, p, cur, cs, rt);
    PathRepAt(m, root, gs, |gs| - 1, p);
    ApartPathNodes(gs, Nodes(cur));
    LastInPath(gs);
    if cs != [] {
      LastInPath(cs);
      PathRepAt(m, m[p].right, cs, |cs| - 1, rt.n);
    }
  }

  // The chain of left children after the splice: its hole now holds `rt.r`.
  lemma SpliceChain<K>(m: Mem<K>, p: Node<K>, cur: Tree<K>, cs: seq<Frame<K>>, rt: Tree<K>, m': Mem<K>)
    requires Rep(m, p, cur) && Distinct(cur) && Heir(cur, cs, rt)
    requires forall n :: n in m && n in PathNodes(cs) && n != LastNode(cs) ==> n in m' && m'[n] == m[n]
    requires cs != [] ==>
      && cs[|cs| - 1].n in m && cs[|cs| - 1].n in m' && rt.n in m
      && m'[cs[|cs| - 1].n] == m[cs[|cs| - 1].n].Relinked(false, m[rt.n].right)
    ensures PathRep(m', Next(cs, 0, Top(rt.r)), cs, Top(rt.r))
  {
    HeirParts(m, p, cur, cs, rt);
    if cs != [] {
      ApartLess(cs, Nodes(rt));
      PathRepRelink(m, m[p].right, cs, rt.n, Top(rt.r));
      var last := cs[|cs| - 1];
      assert !last.dir;
      var mm := m[last.n := m[last.n].Relinked(false, Top(rt.r))];
      PathRepSame(mm, m', m[p].right, cs, Top(rt.r));
    }
  }

  lemma {:induction false} PathRepJoin<K>(m: Mem<K>, root: Node?<K>, fs: seq<Frame<K>>, c: Node?<K>,
      gs: seq<Frame<K>>, q: Node?<K>)
    requires PathRep(m, root, fs, c) && PathRep(m, c, gs, q)
    ensures PathRep(m, root, fs + gs, q)
    decreases |gs|
  {
    if gs == [] {
      assert fs + gs == fs;
    } else {
      var k := |gs| - 1;
      PathRepJoin(m, root, fs, c, gs[..k], gs[k].n);
      PathRepPush(m, root, fs + gs[..k], gs[k], q);
      assert fs + gs[..k] + [gs[k]] == fs + gs;
    }
  }

  // The frame `f` between the path `gs` and the chain `cs`, whose hole holds `t`.
  ghost predicate Spliced<K>(m: Mem<K>, root: Node?<K>, gs: seq<Frame<K>>, f: Frame<K>, cs: seq<Frame<K>>, t: Tree<K>) {
    && PathRep(m, root, gs, f.n) && Linked(m, f, Next(cs, 0, Top(t)))
    && PathRep(m, Next(cs, 0, Top(t)), cs, Top(t)) && Rep(m, Top(t), t)
  }

  lemma SplicedWhole<K>(m: Mem<K>, root: Node?<K>, gs: seq<Frame<K>>, f: Frame<K>, cs: seq<Frame<K>>, t: Tree<K>)
    requires Spliced(m, root, gs, f, cs, t)
    ensures PathRep(m, root, gs + [f] + cs, Top(t)) && Rep(m, Top(t), t)
  {
    PathRepPush(m, root, gs, f, Next(cs, 0, Top(t)));
    PathRepJoin(m, root, gs + [f], Next(cs, 0, Top(t)), cs, Top(t));
  }

  // The path above the splice.
  lemma SpliceAbove<K>(m: Mem<K>, root: Node?<K>, gs: seq<Frame<K>>, p: Node<K>, rn: Node<K>, m': Mem<K>)
    requires gs != [] && PathRep(m, root, gs, p) && Apart(gs, {})
    requires gs[|gs| - 1].n in m && gs[|gs| - 1].n in m'
    requires m'[gs[|gs| - 1].n] == m[gs[|gs| - 1].n].Relinked(gs[|gs| - 1].dir, rn)
    requires forall n :: n in m && n in PathNodes(gs) && n != gs[|gs| - 1].n ==> n in m' && m'[n] == m[n]
    ensures PathRep(m', root, gs, rn)
  {
    var last := gs[|gs| - 1];
    PathRepRelink(m, root, gs, p, rn);
    PathRepSame(m[last.n := m[last.n].Relinked(last.dir, rn)], m', root, gs, rn);
  }

  // What the splice leaves in each node.
  ghost predicate SplicedCells<K>(m: Mem<K>, m': Mem<K>, p: Node<K>, rn: Node<K>, q: Node?<K>, parent: Node<K>,
                                  side: bool) {
    && p in m && rn in m && rn in m' && parent in m && parent in m'
    && m'[parent] == m[parent].Relinked(side, rn)
    && m'[rn] == Cell(m[p].left, if q == null then m[rn].right else m[p].right, m[p].balance, m[p].size - 1)
    && (q != null ==> q in m && q in m' && m'[q] == m[q].Relinked(false, m[rn].right))
    && (forall n :: n in m && n != parent && n != rn && n != q ==> n in m' && m'[n] == m[n])
  }

  lemma SpliceStores<K>(m: Mem<K>, p: Node<K>, rn: Node<K>, q: Node?<K>, parent: Node<K>, side: bool)
    requires p in m && rn in m && parent in m && (q != null ==> q in m && q != rn && q != parent) && rn != parent
    ensures SplicedCells(m, SplicedMem(m, p, rn, q, parent, side), p, rn, q, parent, side)
  {
  }

  lemma SpliceBelow<K>(m: Mem<K>, p: Node<K>, cur: Tree<K>, cs: seq<Frame<K>>, rt: Tree<K>, parent: Node<K>,
                       side: bool, m': Mem<K>)
    requires Rep(m, p, cur) && Distinct(cur) && Heir(cur, cs, rt)
    requires SplicedCells(m, m', p, rt.n, LastNode(cs), parent, side) && parent !in Nodes(cur)
    ensures Linked(m', HeirFrame(cur, rt.n), Next(cs, 0, Top(rt.r)))
    ensures PathRep(m', Next(cs, 0, Top(rt.r)), cs, Top(rt.r)) && Rep(m', Top(rt.r), rt.r)
  {
    hide FrameNodes;
    hide PathNodes;
    hide PathRep;
    HeirParts(m, p, cur, cs, rt);
    if cs != [] { LastInPath(cs); }
    SpliceChain(m, p, cur, cs, rt, m');
    RepSame(m, m', m[p].left, cur.l);
    RepSame(m, m', Top(rt.r), rt.r);
  }

  lemma SpliceMem<K>(m: Mem<K>, root: Node?<K>, gs: seq<Frame<K>>, p: Node<K>, cur: Tree<K>, cs: seq<Frame<K>>,
                     rt: Tree<K>,
                     parent: Node<K>, m': Mem<K>)
    requires gs != [] && PathRep(m, root, gs, p) && Apart(gs, Nodes(cur))
    requires Rep(m, p, cur) && Distinct(cur) && Heir(cur, cs, rt) && parent == LastNode(gs)
    requires SplicedCells(m, m', p, rt.n, LastNode(cs), parent, gs[|gs| - 1].dir)
    ensures Spliced(m', root, gs, HeirFrame(cur, rt.n), cs, rt.r)
  {
    hide FrameNodes;
    HeirParts(m, p, cur, cs, rt);
    ApartPathNodes(gs, Nodes(cur));
    ApartLess(gs, Nodes(cur));
    LastInPath(gs);
    if cs != [] { LastInPath(cs); }
    SpliceAbove(m, root, gs, p, rt.n, m');
    SpliceBelow(m, p, cur, cs, rt, parent, gs[|gs| - 1].dir, m');
  }

  lemma CountedAll<K>(fs: seq<Frame<K>>, gs: seq<Frame<K>>, d: int)
    requires Counted(fs, gs, d, |fs|)
    ensures Alike(fs, gs) && SizedBy(fs, gs, d) && SameBalance(fs, gs)
  {
  }

  // Counting along the chain leaves the rest of the splice alone.
  lemma SplicedCount<K>(m: Mem<K>, m': Mem<K>, root: Node?<K>, gs: seq<Frame<K>>, f: Frame<K>,
                        cs: seq<Frame<K>>, cs': seq<Frame<K>>, t: Tree<K>)
    requires Spliced(m, root, gs, f, cs, t) && Apart(gs + [f] + cs, Nodes(t))
    requires ChangedWithin(m, m', PathNodes(cs)) && Alike(cs, cs')
    requires PathRep(m', Next(cs, 0, Top(t)), cs', Top(t))
    ensures Spliced(m', root, gs, f, cs', t)
  {
    var all := gs + [f] + cs;
    ApartSplit(all, |gs| + 1, Nodes(t));
    assert all[..|gs| + 1] == gs + [f] && all[|gs| + 1..] == cs;
    ApartPathNodes(cs, Nodes(t));
    PathNodesSplit(gs + [f]);
    assert (gs + [f])[..|gs|] == gs;
    PathRepSame(m, m', root, gs, f.n);
    RepSame(m, m', m[f.n].Child(!f.dir), f.sib);
    RepSame(m, m', Top(t), t);
  }

  // The walk to the first node of `cur.r` has come to `r`, below `q`.
  ghost predicate Leading<K>(m: Mem<K>, cur: Tree<K>, cs: seq<Frame<K>>, rt: Tree<K>, q: Node?<K>, r: Node<K>) {
    && cur.Bin? && rt.Bin? && cur.r == Plug(cs, rt) && AllLeft(cs)
    && Rep(m, r, rt) && q == LastNode(cs)
  }

  lemma LeadingStep<K>(m: Mem<K>, cur: Tree<K>, cs: seq<Frame<K>>, rt: Tree<K>, q: Node?<K>, r: Node<K>)
    requires Leading(m, cur, cs, rt, q, r)
    ensures r == rt.n && r in m && m[r].left == Top(rt.l)
    ensures |cs| + 2 <= Height(cur)
    ensures m[r].left != null ==> Leading(m, cur, cs + [FrameOf(rt, false)], rt.l, r, m[r].left)
  {
    OpenRep(m, r, false, rt);
    RepTop(m, m[r].left, rt.l);
    PathFits(cs, rt);
    PlugSnoc(cs, FrameOf(rt, false), rt.l);
  }

  // Puts a node on the path with the side it is left to.
  method Record<K>(path: array<Node?<K>>, dir: array<bool>, d: nat, n: Node<K>, which: bool)
    requires d < path.Length && d < dir.Length && path.Length == dir.Length
    modifies path, dir
    ensures path[..d + 1] == old(path[..d]) + [n] && dir[..d + 1] == old(dir[..d]) + [which]
  {
    dir[d] := which;
    path[d] := n;
  }

  lemma StoredPush<K>(ps: seq<Node?<K>>, ds: seq<bool>, gs: seq<Frame<K>>, f: Frame<K>)
    requires Stored(ps, ds, gs)
    ensures Stored(ps + [f.n], ds + [f.dir], gs + [f])
  {
  }

  // One turn of that walk.
  method StepLeft<K>(path: array<Node?<K>>, dir: array<bool>, d: nat, ghost m: Mem<K>, ghost cur: Tree<K>,
                     q: Node?<K>, r: Node<K>, ghost cs: seq<Frame<K>>, ghost rt: Tree<K>,
                     ghost pc: seq<Node?<K>>, ghost dc: seq<bool>, ghost p0: seq<Node?<K>>, ghost d0: seq<bool>)
    returns (q': Node?<K>, r': Node<K>, ghost cs': seq<Frame<K>>, ghost rt': Tree<K>,
             ghost pc': seq<Node?<K>>, ghost dc': seq<bool>)
    requires Mirrors(m) && Leading(m, cur, cs, rt, q, r) && r in m && r.left != null
    requires d < path.Length == dir.Length && path[..d] == p0 + pc && dir[..d] == d0 + dc && Stored(pc, dc, cs)
    modifies path, dir
    ensures Mirrors(m) && Leading(m, cur, cs', rt', q', r') && rt.Bin? && rt' == rt.l && |cs'| == |cs| + 1
    ensures |cs'| + 2 <= Height(cur) && r' in m && r' == rt'.n && r'.left == m[r'].left == Top(rt'.l)
    ensures path[..d + 1] == p0 + pc' && dir[..d + 1] == d0 + dc' && Stored(pc', dc', cs')
  {
    LeadingStep(m, cur, cs, rt, q, r);
    assert r.Fields() == m[r];
    Record(path, dir, d, r, false);
    StoredPush(pc, dc, cs, FrameOf(rt, false));
    pc', dc' := pc + [r], dc + [false];
    assert p0 + pc + [r] == p0 + pc' && d0 + dc + [false] == d0 + dc';
    cs', rt' := cs + [FrameOf(rt, false)], rt.l;
    q', r' := r, r.left;
    LeadingStep(m, cur, cs', rt', q', r');
    assert r'.Fields() == m[r'];
  }

  // Records the chain of left children below the right child of `p`.
  method Leftmost<K>(p: Node<K>, path: array<Node?<K>>, dir: array<bool>, e: nat, ghost m: Mem<K>, ghost cur: Tree<K>)
    returns (q: Node?<K>, r: Node<K>, d: nat, ghost cs: seq<Frame<K>>, ghost rt: Tree<K>,
             ghost pc: seq<Node?<K>>, ghost dc: seq<bool>)
    requires Mirrors(m) && Rep(m, p, cur) && p.right != null
    requires path.Length == dir.Length == MAX_DEPTH && e + Height(cur) <= 51
    modifies path, dir
    ensures Heir(cur, cs, rt) && r == rt.n && q == LastNode(cs) && d == e + 1 + |cs| <= 51
    ensures Stored(pc, dc, cs)
    ensures path[..d] == old(path[..e + 1]) + pc && dir[..d] == old(dir[..e + 1]) + dc
  {
    hide Height;
    hide Nodes;
    OpenRep(m, p, true, cur);
    assert p.Fields() == m[p];
    q, r, d := null, p.right, e + 1;
    cs, rt, pc, dc := [], cur.r, [], [];
    ghost var p0, d0 := path[..d], dir[..d];
    LeadingStep(m, cur, cs, rt, q, r);
    assert r.Fields() == m[r];
    while r.left != null
      invariant Mirrors(m) && Leading(m, cur, cs, rt, q, r) && d == e + 1 + |cs| <= 51
      invariant path[..d] == p0 + pc && dir[..d] == d0 + dc && Stored(pc, dc, cs)
      invariant r in m && r == rt.n && r.left == m[r].left == Top(rt.l)
      decreases rt
    {
      q, r, cs, rt, pc, dc := StepLeft(path, dir, d, m, cur, q, r, cs, rt, pc, dc, p0, d0);
      d := d + 1;
    }
  }

  lemma ChainRecorded<T>(s: seq<T>, p0: seq<T>, pc: seq<T>, e: nat)
    requires |p0| == e + 1 && s == p0 + pc
    ensures s[..e] == p0[..e] && s[e + 1..] == pc
  {
  }

  // The stores of the splice, against the path above it.
  method SpliceAt<K>(p: Node<K>, r: Node<K>, q: Node?<K>, parent: Node<K>, side: bool, ghost m: Mem<K>,
                     ghost root: Node?<K>,
                     ghost gs: seq<Frame<K>>, ghost cur: Tree<K>, ghost cs: seq<Frame<K>>, ghost rt: Tree<K>)
    returns (ghost m': Mem<K>)
    requires Mirrors(m) && gs != [] && PathRep(m, root, gs, p) && Apart(gs, Nodes(cur))
    requires Rep(m, p, cur) && Distinct(cur) && Heir(cur, cs, rt) && r == rt.n && q == LastNode(cs)
    requires parent == gs[|gs| - 1].n && side == gs[|gs| - 1].dir
    modifies m.Keys
    ensures Mirrors(m') && m'.Keys == m.Keys && Spliced(m', root, gs, HeirFrame(cur, rt.n), cs, rt.r)
  {
    SpliceReady(m, root, gs, p, cur, cs, rt);
    SpliceStores(m, p, r, q, parent, side);
    m' := StoreSplice(p, r, q, parent, side, m);
    SpliceMem(m, root, gs, p, cur, cs, rt, parent, m');
  }

  // Counting the chain once the successor is gone from its end.
  method CountChain<K>(path: array<Node?<K>>, lo: nat, d: nat, ghost m: Mem<K>, ghost root: Node?<K>,
                       ghost gs: seq<Frame<K>>,
                       ghost f: Frame<K>, ghost cs: seq<Frame<K>>, ghost t: Tree<K>)
    returns (ghost m': Mem<K>, ghost cs': seq<Frame<K>>)
    requires Mirrors(m) && Spliced(m, root, gs, f, cs, t) && Apart(gs + [f] + cs, Nodes(t)) && Apart(cs, {})
    requires lo <= d <= path.Length && PathNames(path[lo..d], cs)
    modifies m.Keys
    ensures Mirrors(m') && m'.Keys == m.Keys && Counted(cs, cs', -1, |cs|)
    ensures PathRep(m', root, gs + [f] + cs', Top(t)) && Rep(m', Top(t), t)
  {
    m', cs' := AddSizes(path, lo, d, -1, Next(cs, 0, Top(t)), m, cs, Top(t));
    CountedAll(cs, cs', -1);
    SplicedCount(m, m', root, gs, f, cs, cs', t);
    SplicedWhole(m', root, gs, f, cs', t);
  }

  // `p` is about to go: the sizes above it no longer count it.
  ghost predicate Leaving<K>(m: Mem<K>, ff: Frame<K>, fs: seq<Frame<K>>, cur: Tree<K>, p: Node<K>) {
    && PathRep(m, ff.n, [ff] + fs, p) && Rep(m, p, cur) && cur.Bin?
    && Balanced(cur) && Sized(cur) && Distinct(cur) && Apart([ff] + fs, Nodes(cur))
    && PathBalanced(fs, Height(cur)) && PathSized(fs, |InOrder(cur)| - 1)
  }

  ghost function Remaining<K>(fs: seq<Frame<K>>, cur: Tree<K>): seq<Node<K>>
    requires cur.Bin?
  {
    Before(fs) + (InOrder(cur.l) + InOrder(cur.r)) + After(fs)
  }

  lemma SpliceRises<K>(m: Mem<K>, ff: Frame<K>, fs: seq<Frame<K>>, cur: Tree<K>, cs: seq<Frame<K>>, rt: Tree<K>,
                       cs': seq<Frame<K>>,
                       gs: seq<Frame<K>>)
    requires Heir(cur, cs, rt) && Balanced(cur) && Sized(cur) && Distinct(cur) && Apart([ff] + fs, Nodes(cur))
    requires PathBalanced(fs, Height(cur)) && PathSized(fs, |InOrder(cur)| - 1) && Counted(cs, cs', -1, |cs|)
    requires gs == fs + [HeirFrame(cur, rt.n)] + cs'
    requires PathRep(m, ff.n, [ff] + gs, Top(rt.r)) && Rep(m, Top(rt.r), rt.r)
    ensures Rising(m, ff, gs, rt.r) && InOrder(Plug(gs, rt.r)) == Remaining(fs, cur)
  {
    CountedAll(cs, cs', -1);
    SpliceShort(ff, fs, cur, cs, rt, cs');
    SpliceOrder(fs, cur, cs, rt, cs');
  }

  lemma SplicedStored<K>(ps: seq<Node?<K>>, ds: seq<bool>, ff: Frame<K>, fs: seq<Frame<K>>, f: Frame<K>,
                         pc: seq<Node?<K>>, dc: seq<bool>, cs: seq<Frame<K>>, cs': seq<Frame<K>>)
    requires Stored(ps, ds, [ff] + fs) && Stored(pc, dc, cs) && Alike(cs, cs')
    ensures Stored(ps + [f.n] + pc, ds + [f.dir] + dc, [ff] + (fs + [f] + cs'))
  {
  }

  // Before the stores, the frames of the splice are already known.
  lemma SplicePlan<K>(ff: Frame<K>, fs: seq<Frame<K>>, cur: Tree<K>, cs: seq<Frame<K>>, rt: Tree<K>)
    requires Heir(cur, cs, rt) && Distinct(cur) && Apart([ff] + fs, Nodes(cur))
    ensures Apart([ff] + fs + [HeirFrame(cur, rt.n)] + cs, Nodes(rt.r)) && Apart(cs, {})
  {
    SpliceApart([ff] + fs, cur, cs, rt, cs);
    UnplugDistinct(cs, rt);
    ApartLess(cs, Nodes(rt));
  }

  lemma SpliceGroups<T>(x: T, a: seq<T>, y: T, b: seq<T>)
    ensures [x] + a + [y] + b == [x] + (a + [y] + b)
  {
  }

  // The stores of both splicing cases, and the counting that follows them.
  method Splice<K>(p: Node<K>, r: Node<K>, q: Node?<K>, path: array<Node?<K>>, parent: Node<K>, side: bool, lo: nat,
                   d: nat,
                   ghost m: Mem<K>, ghost ff: Frame<K>, ghost fs: seq<Frame<K>>, ghost cur: Tree<K>,
                   ghost cs: seq<Frame<K>>, ghost rt: Tree<K>)
    returns (ghost m': Mem<K>, ghost cs': seq<Frame<K>>)
    requires Mirrors(m) && Leaving(m, ff, fs, cur, p)
    requires Heir(cur, cs, rt) && r == rt.n && q == LastNode(cs)
    requires parent == ([ff] + fs)[|fs|].n && side == ([ff] + fs)[|fs|].dir
    requires lo <= d <= path.Length && PathNames(path[lo..d], cs)
    modifies m.Keys
    ensures Mirrors(m') && m'.Keys == m.Keys && Counted(cs, cs', -1, |cs|)
    ensures var gs := fs + [HeirFrame(cur, rt.n)] + cs';
      Rising(m', ff, gs, rt.r) && InOrder(Plug(gs, rt.r)) == Remaining(fs, cur)
  {
    ghost var f := HeirFrame(cur, rt.n);
    m' := SpliceAt(p, r, q, parent, side, m, ff.n, [ff] + fs, cur, cs, rt);
    SplicePlan(ff, fs, cur, cs, rt);
    m', cs' := CountChain(path, lo, d, m', ff.n, [ff] + fs, f, cs, rt.r);
    SpliceGroups(ff, fs, f, cs');
    SpliceRises(m', ff, fs, cur, cs, rt, cs', fs + [f] + cs');
  }

  // Puts the replacement in its place on the path.
  method Mark<K>(path: array<Node?<K>>, dir: array<bool>, e: nat, d: nat, r: Node<K>, ghost ps: seq<Node?<K>>,
                 ghost ds: seq<bool>,
                 ghost pc: seq<Node?<K>>, ghost dc: seq<bool>)
    requires e < d <= path.Length == dir.Length && e == |ps| == |ds| && d == e + 1 + |pc| == e + 1 + |dc|
    requires path[..e] == ps && dir[..e] == ds && path[e + 1..d] == pc && dir[e + 1..d] == dc
    modifies path, dir
    ensures path[e + 1..d] == pc && ps + [r] + pc <= path[..] && ds + [true] + dc <= dir[..]
  {
    path[e] := r;
    dir[e] := true;
    assert path[..d] == ps + [r] + pc && dir[..d] == ds + [true] + dc;
  }

  // The walk to the successor of `p`, with its place at `e` filled in.
  method Trail<K>(p: Node<K>, path: array<Node?<K>>, dir: array<bool>, e: nat, ghost m: Mem<K>, ghost cur: Tree<K>,
                  ghost ps: seq<Node?<K>>, ghost ds: seq<bool>)
    returns (q: Node?<K>, r: Node<K>, d: nat, ghost cs: seq<Frame<K>>, ghost rt: Tree<K>,
             ghost pc: seq<Node?<K>>, ghost dc: seq<bool>)
    requires Mirrors(m) && Rep(m, p, cur) && p.right != null
    requires path.Length == dir.Length == MAX_DEPTH && e + Height(cur) <= 51 && e == |ps| == |ds|
    requires path[..e] == ps && dir[..e] == ds
    modifies path, dir
    ensures Heir(cur, cs, rt) && r == rt.n && q == LastNode(cs) && d == e + 1 + |cs| <= 51
    ensures Stored(pc, dc, cs) && path[e + 1..d] == pc
    ensures ps + [r] + pc <= path[..] && ds + [true] + dc <= dir[..]
  {
    ghost var p0, d0 := path[..e + 1], dir[..e + 1];
    assert p0[..e] == ps && d0[..e] == ds;
    q, r, d, cs, rt, pc, dc := Leftmost(p, path, dir, e, m, cur);
    ChainRecorded(path[..d], p0, pc, e);
    ChainRecorded(dir[..d], d0, dc, e);
    Mark(path, dir, e, d, r, ps, ds, pc, dc);
  }

  // Puts the successor of `p` in its place and goes on to the hole it left.
  method SpliceOut<K>(p: Node<K>, path: array<Node?<K>>, dir: array<bool>, e: nat, ghost m: Mem<K>, ghost ff: Frame<K>,
                      ghost fs: seq<Frame<K>>, ghost cur: Tree<K>, ghost ps: seq<Node?<K>>, ghost ds: seq<bool>)
    returns (d: nat, ghost m': Mem<K>, ghost fs': seq<Frame<K>>, ghost t: Tree<K>,
             ghost ps': seq<Node?<K>>, ghost ds': seq<bool>)
    requires Mirrors(m) && Leaving(m, ff, fs, cur, p) && p.right != null
    requires path.Length == dir.Length == MAX_DEPTH && e + Height(cur) <= 51
    requires e == |fs| + 1 && path[..e] == ps && dir[..e] == ds && Stored(ps, ds, [ff] + fs)
    modifies m.Keys, path, dir
    ensures Mirrors(m') && m'.Keys == m.Keys && Rising(m', ff, fs', t)
    ensures InOrder(Plug(fs', t)) == Remaining(fs, cur)
    ensures d == |fs'| + 1 && ps' <= path[..] && ds' <= dir[..] && Stored(ps', ds', [ff] + fs')
  {
    var q, r;
    ghost var cs, rt, pc, dc, cs';
    var parent, side := path[e - 1], dir[e - 1];
    assert parent == ps[e - 1] && side == ds[e - 1];
    q, r, d, cs, rt, pc, dc := Trail(p, path, dir, e, m, cur, ps, ds);
    m', cs' := Splice(p, r, q, path, parent, side, e + 1, d, m, ff, fs, cur, cs, rt);
    CountedAll(cs, cs', -1);
    SplicedStored(ps, ds, ff, fs, HeirFrame(cur, rt.n), pc, dc, cs, cs');
    fs', t, ps', ds' := fs + [HeirFrame(cur, rt.n)] + cs', rt.r, ps + [r] + pc, ds + [true] + dc;
  }

  // ---- Taking the element out -------------------------------------------------

  // The search has come to `p`, below the fake node and the path `fs`.
  ghost predicate Found<K>(m: Mem<K>, ff: Frame<K>, fs: seq<Frame<K>>, cur: Tree<K>, p: Node<K>) {
    && PathRep(m, ff.n, [ff] + fs, p) && Rep(m, p, cur) && cur.Bin?
    && Balanced(cur) && Sized(cur) && Distinct(cur) && Apart([ff] + fs, Nodes(cur))
    && PathBalanced(fs, Height(cur)) && PathSized(fs, |InOrder(cur)|)
  }

  lemma FoundBelow<K>(m: Mem<K>, ff: Frame<K>, fs: seq<Frame<K>>, p: Node?<K>)
    requires PathRep(m, ff.n, [ff] + fs, p)
    ensures Linked(m, ff, Next(fs, 0, p)) && PathRep(m, Next(fs, 0, p), fs, p)
  {
    var gs := [ff] + fs;
    PathRepAt(m, ff.n, gs, 0, p);
    PathRepSplit(m, ff.n, gs, 1, p);
    assert gs[1..] == fs;
    assert Next(gs, 1, p) == Next(fs, 0, p);
  }

  lemma FakeOver<K>(m: Mem<K>, ff: Frame<K>, fs: seq<Frame<K>>, p: Node?<K>)
    requires Linked(m, ff, Next(fs, 0, p)) && PathRep(m, Next(fs, 0, p), fs, p)
    ensures PathRep(m, ff.n, [ff] + fs, p)
  {
    PathRepPush(m, ff.n, [], ff, Next(fs, 0, p));
    assert [] + [ff] == [ff];
    PathRepJoin(m, ff.n, [ff], Next(fs, 0, p), fs, p);
  }

  lemma ApartHead<K>(ff: Frame<K>, fs: seq<Frame<K>>, s: set<Node<K>>)
    requires Apart([ff] + fs, s)
    ensures FrameNodes(ff) !! PathNodes(fs) && PathNodes(fs) !! s
  {
    var gs := [ff] + fs;
    ApartSplit(gs, 1, s);
    assert gs[..1] == [ff] && gs[1..] == fs;
    ApartPathNodes(fs, s);
    assert FrameNodes([ff][0]) <= PathNodes([ff]);
  }

  lemma DiscountPath<K>(m: Mem<K>, m': Mem<K>, ff: Frame<K>, fs: seq<Frame<K>>, fs': seq<Frame<K>>, cur: Tree<K>,
                        p: Node<K>)
    requires PathRep(m, ff.n, [ff] + fs, p) && Rep(m, p, cur) && Apart([ff] + fs, Nodes(cur))
    requires ChangedWithin(m, m', PathNodes(fs)) && Alike(fs, fs')
    requires PathRep(m', Next(fs, 0, p), fs', p)
    ensures PathRep(m', ff.n, [ff] + fs', p) && Rep(m', p, cur) && Apart([ff] + fs', Nodes(cur))
  {
    FoundBelow(m, ff, fs, p);
    ApartHead(ff, fs, Nodes(cur));
    RepSame(m, m', p, cur);
    RepSame(m, m', m[ff.n].Child(!ff.dir), ff.sib);
    assert Next(fs', 0, p) == Next(fs, 0, p);
    FakeOver(m', ff, fs', p);
    ApartAlike([ff] + fs, [ff] + fs', Nodes(cur));
  }

  // Takes one off the size of every node on the path below the anchor.
  method Discount<K>(p: Node<K>, path: array<Node?<K>>, d: nat, ghost m: Mem<K>, ghost ff: Frame<K>,
                     ghost fs: seq<Frame<K>>, ghost cur: Tree<K>)
    returns (ghost m': Mem<K>, ghost fs': seq<Frame<K>>)
    requires Mirrors(m) && Found(m, ff, fs, cur, p) && 1 <= d <= path.Length && PathNames(path[1..d], fs)
    modifies m.Keys
    ensures Mirrors(m') && m'.Keys == m.Keys && Leaving(m', ff, fs', cur, p) && Alike(fs, fs')
  {
    FoundBelow(m, ff, fs, p);
    ApartTail(ff, fs, Nodes(cur));
    ApartLess(fs, Nodes(cur));
    m', fs' := AddSizes(path, 1, d, -1, Next(fs, 0, p), m, fs, p);
    CountedAll(fs, fs', -1);
    DiscountPath(m, m', ff, fs, fs', cur, p);
    PathSizedBy(fs, fs', |InOrder(cur)|, -1);
    PathBalancedSame(fs, fs', Height(cur));
  }

  lemma UnlinkRises<K>(m: Mem<K>, m': Mem<K>, ff: Frame<K>, fs: seq<Frame<K>>, cur: Tree<K>, p: Node<K>)
    requires Leaving(m, ff, fs, cur, p) && cur.r.Nil?
    requires PathRep(m', ff.n, [ff] + fs, Top(cur.l)) && Rep(m', Top(cur.l), cur.l)
    ensures Rising(m', ff, fs, cur.l) && InOrder(Plug(fs, cur.l)) == Remaining(fs, cur)
  {
    ApartPathNodes([ff] + fs, Nodes(cur));
    ApartMore([ff] + fs, Nodes(cur), Nodes(cur.l));
    ApartTail(ff, fs, Nodes(cur.l));
    InOrderPlug(fs, cur.l);
  }

  // A node without a right child: its left child moves up.
  method Unlink<K>(p: Node<K>, parent: Node<K>, side: bool, ghost m: Mem<K>, ghost ff: Frame<K>,
                   ghost fs: seq<Frame<K>>, ghost cur: Tree<K>)
    returns (ghost m': Mem<K>)
    requires Mirrors(m) && Leaving(m, ff, fs, cur, p) && p.right == null
    requires parent == ([ff] + fs)[|fs|].n && side == ([ff] + fs)[|fs|].dir
    modifies m.Keys
    ensures Mirrors(m') && m'.Keys == m.Keys
    ensures Rising(m', ff, fs, cur.l) && InOrder(Plug(fs, cur.l)) == Remaining(fs, cur)
  {
    ghost var gs := [ff] + fs;
    OpenRep(m, p, true, cur);
    assert p.Fields() == m[p];
    RepTop(m, p.left, cur.l);
    ApartLess(gs, Nodes(cur));
    PathRepRelink(m, ff.n, gs, p, p.left);
    m' := StoreChild(parent, side, p.left, m);
    ApartPathNodes(gs, Nodes(cur));
    LastInPath(gs);
    RepSame(m, m', Top(cur.l), cur.l);
    UnlinkRises(m, m', ff, fs, cur, p);
  }

  lemma StoredAlike<K>(ps: seq<Node?<K>>, ds: seq<bool>, ff: Frame<K>, fs: seq<Frame<K>>, fs': seq<Frame<K>>)
    requires Stored(ps, ds, [ff] + fs) && Alike(fs, fs')
    ensures Stored(ps, ds, [ff] + fs')
  {
    forall i | 0 <= i < |[ff] + fs'|
      ensures ps[i] == ([ff] + fs')[i].n && ds[i] == ([ff] + fs')[i].dir
    {
      assert ps[i] == ([ff] + fs)[i].n && ds[i] == ([ff] + fs)[i].dir;
    }
  }

  // Unlinks `p` or splices its successor in, and goes back up.
  method TakeOut<K>(p: Node<K>, path: array<Node?<K>>, dir: array<bool>, d: nat, ghost m: Mem<K>, ghost ff: Frame<K>,
                    ghost fs: seq<Frame<K>>, ghost cur: Tree<K>, ghost ps: seq<Node?<K>>, ghost ds: seq<bool>)
    returns (ghost m': Mem<K>, ghost t': Tree<K>)
    requires Mirrors(m) && Leaving(m, ff, fs, cur, p) && !ff.dir
    requires path.Length == dir.Length == MAX_DEPTH && d + Height(cur) <= 51
    requires d == |fs| + 1 && path[..d] == ps && dir[..d] == ds && Stored(ps, ds, [ff] + fs)
    modifies m.Keys, path, dir
    ensures Mirrors(m') && m'.Keys == m.Keys && ff.n in m'
    ensures Valid(m', m'[ff.n].left, t') && InOrder(t') == Remaining(fs, cur)
  {
    if p.right == null {
      assert path[d - 1] == ps[d - 1] && dir[d - 1] == ds[d - 1];
      m' := Unlink(p, path[d - 1], dir[d - 1], m, ff, fs, cur);
      m', t' := Climb(path, dir, d, ps, ds, m', ff, fs, cur.l);
    } else {
      var d';
      ghost var fs', t, ps', ds';
      d', m', fs', t, ps', ds' := SpliceOut(p, path, dir, d, m, ff, fs, cur, ps, ds);
      m', t' := Climb(path, dir, d', ps', ds', m', ff, fs', t);
    }
  }

  // Everything after the search.
  method RemoveFound<K>(p: Node<K>, path: array<Node?<K>>, dir: array<bool>, d: nat, ghost m: Mem<K>,
                        ghost ff: Frame<K>,
                        ghost fs: seq<Frame<K>>, ghost cur: Tree<K>)
    returns (ghost m': Mem<K>, ghost t': Tree<K>)
    requires Mirrors(m) && Found(m, ff, fs, cur, p) && !ff.dir
    requires path.Length == dir.Length == MAX_DEPTH && d + Height(cur) <= 51
    requires d == |fs| + 1 && Stored(path[..d], dir[..d], [ff] + fs)
    modifies m.Keys, path, dir
    ensures Mirrors(m') && m'.Keys == m.Keys && ff.n in m'
    ensures Valid(m', m'[ff.n].left, t') && InOrder(t') == Remaining(fs, cur)
  {
    ghost var ps, ds, fs' := path[..d], dir[..d], [];
    PathStored(ps, ds, ff, fs);
    assert path[1..d] == ps[1..];
    m', fs' := Discount(p, path, d, m, ff, fs, cur);
    StoredAlike(ps, ds, ff, fs, fs');
    AlikeSides(fs, fs');
    m', t' := TakeOut(p, path, dir, d, m', ff, fs', cur, ps, ds);
  }

  lemma PathStored<K>(ps: seq<Node?<K>>, ds: seq<bool>, ff: Frame<K>, fs: seq<Frame<K>>)
    requires Stored(ps, ds, [ff] + fs)
    ensures |ps| == |fs| + 1 && PathNames(ps[1..], fs)
  {
    forall i | 0 <= i < |fs|
      ensures ps[1..][i] == fs[i].n
    {
      assert ps[i + 1] == ([ff] + fs)[i + 1].n;
    }
  }

  // ---- The two searches ---------------------------------------------------------

  lemma SeekDeeper<K>(m: Mem<K>, t: Tree<K>, cmp: (K, K) -> int, x: K, p: Node<K>, cnt: int, fs: seq<Frame<K>>,
                      cur: Tree<K>,
                            ps: seq<Node?<K>>, ds: seq<bool>, ff: Frame<K>, which: bool)
    requires Standing(m, t, cmp, x, p, cnt, fs, cur) && Stored(ps, ds, [ff] + fs) && cur.Bin? && p == cur.n
    requires if which then cmp(x, cur.n.key) > 0 else cmp(x, cur.n.key) < 0
    ensures var fs' := fs + [FrameOf(cur, which)];
      && Standing(m, t, cmp, x, Top(Sub(cur, which)), if which then cnt + SizeOf(cur.l) + 1 else cnt, fs',
                  Sub(cur, which))
      && Stored(ps + [p], ds + [which], [ff] + fs')
  {
    StandingStep(m, t, cmp, x, p, cnt, fs, cur, which);
    StoredPush(ps, ds, [ff] + fs, FrameOf(cur, which));
    assert [ff] + fs + [FrameOf(cur, which)] == [ff] + (fs + [FrameOf(cur, which)]);
  }

  // The loop that looks for the element, after its first turn through the fake node.
  method Seek<K>(root: Node?<K>, cmp: (K, K) -> int, x: K, path: array<Node?<K>>, dir: array<bool>,
                       ghost m: Mem<K>, ghost t: Tree<K>, ghost ff: Frame<K>)
    returns (p: Node?<K>, d: nat, cnt: int, ghost fs: seq<Frame<K>>, ghost cur: Tree<K>)
    requires Mirrors(m) && Valid(m, root, t) && |InOrder(t)| < SIZE_LIMIT && !ff.dir
    requires path.Length == dir.Length == MAX_DEPTH && path[0] == ff.n && !dir[0]
    modifies path, dir
    ensures Standing(m, t, cmp, x, p, cnt, fs, cur) && (p != null ==> cmp(x, p.key) == 0)
    ensures d == |fs| + 1 && d + Height(cur) <= 51 && Stored(path[..d], dir[..d], [ff] + fs)
  {
    hide InOrder;
    p, d, cnt := root, 1, 0;
    ghost var ps: seq<Node?<K>>, ds: seq<bool> := [ff.n], [false];
    fs, cur := [], t;
    DepthBound(t, fs, cur);
    while p != null && cmp(x, p.key) != 0
      invariant Mirrors(m) && Standing(m, t, cmp, x, p, cnt, fs, cur) && d == |fs| + 1 && d + Height(cur) <= 51
      invariant path[..d] == ps && dir[..d] == ds && Stored(ps, ds, [ff] + fs)
      decreases cur
    {
      var which := cmp(x, p.key) > 0;
      Look(m, t, cmp, x, p, cnt, fs, cur);
      SeekDeeper(m, t, cmp, x, p, cnt, fs, cur, ps, ds, ff, which);
      if which {
        cnt := cnt + SizeChild(p, false) + 1;
      }
      Record(path, dir, d, p, which);
      d := d + 1;
      ps, ds := ps + [p], ds + [which];
      fs, cur := fs + [FrameOf(cur, which)], Sub(cur, which);
      p := p.Child(which);
      DepthBound(t, fs, cur);
    }
  }

  // The walk to the first element.
  ghost predicate Leftward<K>(m: Mem<K>, t: Tree<K>, fs: seq<Frame<K>>, cur: Tree<K>, p: Node?<K>) {
    t == Plug(fs, cur) && AllLeft(fs) && Rep(m, p, cur) && (cur.Nil? ==> fs != [])
  }

  lemma LeftwardStep<K>(m: Mem<K>, t: Tree<K>, fs: seq<Frame<K>>, cur: Tree<K>, p: Node<K>, ps: seq<Node?<K>>,
                        ds: seq<bool>, ff: Frame<K>)
    requires Leftward(m, t, fs, cur, p) && Stored(ps, ds, [ff] + fs)
    ensures cur.Bin? && p in m && var fs' := fs + [FrameOf(cur, false)];
      Leftward(m, t, fs', cur.l, m[p].left) && Stored(ps + [p], ds + [false], [ff] + fs')
  {
    var f := FrameOf(cur, false);
    PlugSnoc(fs, f, cur.l);
    StoredPush(ps, ds, [ff] + fs, f);
    assert [ff] + fs + [f] == [ff] + (fs + [f]);
  }

  lemma LeftwardEnd<K>(m: Mem<K>, t: Tree<K>, fs: seq<Frame<K>>, cur: Tree<K>, p: Node?<K>, ps: seq<Node?<K>>,
                       ds: seq<bool>, ff: Frame<K>)
    requires Leftward(m, t, fs, cur, p) && cur.Nil? && Stored(ps, ds, [ff] + fs)
    ensures var k := |fs| - 1; var u := Join(fs[k], Nil);
      && t == Plug(fs[..k], u) && u.Bin? && u.l.Nil? && Before(fs[..k]) == []
      && ps[k + 1] == u.n && Stored(ps[..k + 1], ds[..k + 1], [ff] + fs[..k])
  {
    var k := |fs| - 1;
    AllLeftBefore(fs[..k]);
    assert ps[k + 1] == ([ff] + fs)[k + 1].n;
    assert ([ff] + fs)[..k + 1] == [ff] + fs[..k];
  }

  // The loop of the first-element case; its last entry is `p` itself.
  method SeekFirst<K>(root: Node<K>, path: array<Node?<K>>, dir: array<bool>, ghost m: Mem<K>, ghost t: Tree<K>,
                      ghost ff: Frame<K>)
    returns (p: Node<K>, d: nat, ghost fs: seq<Frame<K>>, ghost cur: Tree<K>)
    requires Mirrors(m) && Valid(m, root, t) && |InOrder(t)| < SIZE_LIMIT && !ff.dir
    requires path.Length == dir.Length == MAX_DEPTH && path[0] == ff.n && !dir[0]
    modifies path, dir
    ensures t == Plug(fs, cur) && cur.Bin? && cur.l.Nil? && p == cur.n && Before(fs) == []
    ensures d == |fs| + 1 && d + Height(cur) <= 51 && Stored(path[..d], dir[..d], [ff] + fs)
  {
    var q: Node?<K> := root;
    d := 1;
    ghost var ps: seq<Node?<K>>, ds: seq<bool> := [ff.n], [false];
    fs, cur := [], t;
    while q != null
      invariant Mirrors(m) && Leftward(m, t, fs, cur, q) && d == |fs| + 1 <= 51
      invariant path[..d] == ps && dir[..d] == ds && Stored(ps, ds, [ff] + fs)
      decreases cur
    {
      LeftwardStep(m, t, fs, cur, q, ps, ds, ff);
      assert q.Fields() == m[q];
      DepthBound(t, fs, cur);
      Record(path, dir, d, q, false);
      d := d + 1;
      ps, ds := ps + [q], ds + [false];
      fs, cur := fs + [FrameOf(cur, false)], cur.l;
      q := q.left;
    }
    LeftwardEnd(m, t, fs, cur, q, ps, ds, ff);
    d := d - 1;
    assert path[d] == ps[d];
    p := path[d];
    fs, cur := fs[..|fs| - 1], Join(fs[|fs| - 1], Nil);
    DepthBound(t, fs, cur);
    assert path[..d] == ps[..d] && dir[..d] == ds[..d];
  }

  lemma ApartFront<K>(ff: Frame<K>, fs: seq<Frame<K>>, s: set<Node<K>>)
    requires Apart(fs, s) && FrameOk(ff) && FrameNodes(ff) !! s && FrameNodes(ff) !! PathNodes(fs)
    ensures Apart([ff] + fs, s)
  {
    var gs := [ff] + fs;
    forall i | 0 <= i < |gs|
      ensures FrameOk(gs[i]) && FrameNodes(gs[i]) !! s
    {
      if i > 0 { assert FrameOk(fs[i - 1]); }
    }
    forall i, j | 0 <= i < j < |gs|
      ensures FrameNodes(gs[i]) !! FrameNodes(gs[j])
    {
      assert FrameNodes(fs[j - 1]) <= PathNodes(fs);
      if i > 0 { assert FrameNodes(fs[i - 1]) !! FrameNodes(fs[j - 1]); }
    }
  }

  lemma FoundAt<K>(m: Mem<K>, root: Node?<K>, t: Tree<K>, ff: Frame<K>, fs: seq<Frame<K>>, cur: Tree<K>)
    requires Valid(m, root, t) && t == Plug(fs, cur) && cur.Bin?
    requires Linked(m, ff, root) && ff.sib.Nil? && ff.n !in Nodes(t)
    ensures Found(m, ff, fs, cur, cur.n)
  {
    UnplugRep(m, root, fs, cur);
    PathRepRoot(m, root, fs, cur.n);
    FakeOver(m, ff, fs, cur.n);
    UnplugDistinct(fs, cur);
    NodesPlug(fs, cur);
    ApartFront(ff, fs, Nodes(cur));
    BalancedPlug(fs, cur);
    SizedPlug(fs, cur);
  }

  lemma CutMiddle<T>(pre: seq<T>, a: seq<T>, x: T, b: seq<T>, post: seq<T>, all: seq<T>, k: nat)
    requires all == pre + (a + [x] + b) + post && k == |pre| + |a|
    ensures k < |all| && all[k] == x && pre + (a + b) + post == all[..k] + all[k + 1..]
  {
    assert all[..k] == pre + a && all[k + 1..] == b + post;
  }

  lemma RemainingAt<K>(t: Tree<K>, fs: seq<Frame<K>>, cur: Tree<K>, k: nat)
    requires t == Plug(fs, cur) && cur.Bin? && k == |Before(fs)| + |InOrder(cur.l)|
    ensures k < |InOrder(t)| && InOrder(t)[k] == cur.n
    ensures Remaining(fs, cur) == InOrder(t)[..k] + InOrder(t)[k + 1..]
  {
    InOrderPlug(fs, cur);
    CutMiddle(Before(fs), InOrder(cur.l), cur.n, InOrder(cur.r), After(fs), InOrder(t), k);
  }

  ghost predicate Once<T>(s: seq<T>) {
    forall i, j :: 0 <= i < j < |s| ==> s[i] != s[j]
  }

  lemma OnceJoin<T>(a: seq<T>, x: T, b: seq<T>)
    requires Once(a) && Once(b) && x !in Elems(a) && x !in Elems(b) && Elems(a) !! Elems(b)
    ensures Once(a + [x] + b)
  {
    var s := a + [x] + b;
    forall i, j | 0 <= i < j < |s|
      ensures s[i] != s[j]
    {
      assert i < |a| ==> s[i] in Elems(a);
      assert j > |a| ==> s[j] in Elems(b);
    }
  }

  lemma {:induction false} InOrderOnce<K>(t: Tree<K>)
    requires Distinct(t)
    ensures Once(InOrder(t))
  {
    if t.Bin? {
      InOrderOnce(t.l);
      InOrderOnce(t.r);
      NodesInOrder(t.l);
      NodesInOrder(t.r);
      OnceJoin(InOrder(t.l), t.n, InOrder(t.r));
    }
  }

  lemma CutOnce<T>(all: seq<T>, left: seq<T>, k: nat)
    requires Once(all) && k < |all| && left == all[..k] + all[k + 1..]
    ensures Elems(left) == Elems(all) - {all[k]}
  {
    forall n | n in Elems(all) - {all[k]}
      ensures n in Elems(left)
    {
      var i :| 0 <= i < |all| && all[i] == n;
      assert left[if i < k then i else i - 1] == n;
    }
    forall n | n in Elems(left)
      ensures n in Elems(all) - {all[k]}
    {
      var i :| 0 <= i < |left| && left[i] == n;
      assert all[if i < k then i else i + 1] == n;
    }
  }

  // The nodes that stay, once node `k` of the order is gone.
  lemma NodesLess<K>(t: Tree<K>, t': Tree<K>, k: nat)
    requires Distinct(t) && k < |InOrder(t)| && InOrder(t') == InOrder(t)[..k] + InOrder(t)[k + 1..]
    ensures Nodes(t') == Nodes(t) - {InOrder(t)[k]}
  {
    InOrderOnce(t);
    NodesInOrder(t);
    NodesInOrder(t');
    CutOnce(InOrder(t), InOrder(t'), k);
  }

  lemma Forgotten<K>(m: Mem<K>, root: Node?<K>, t: Tree<K>, s: set<Node<K>>)
    requires Valid(m, root, t) && Nodes(t) !! s
    ensures Valid(m - s, root, t)
  {
    RepSame(m, m - s, root, t);
  }

  // ---- The two forms of kavl_erase ----------------------------------------------

  // A node above the root, whose left link is the root.
  method Fake<K>(key: K, root: Node?<K>, ghost m: Mem<K>, ghost t: Tree<K>)
    returns (fake: Node<K>, path: array<Node?<K>>, dir: array<bool>, ghost m': Mem<K>, ghost ff: Frame<K>)
    requires Mirrors(m) && Valid(m, root, t)
    ensures fresh(fake) && fresh(path) && fresh(dir) && path.Length == dir.Length == MAX_DEPTH
    ensures m'.Keys == m.Keys + {fake} && m' - {fake} == m
    ensures Mirrors(m') && Valid(m', root, t) && Linked(m', ff, root)
    ensures ff.n == fake && !ff.dir && ff.sib.Nil? && fake !in m && fake !in Nodes(t) && path[0] == fake && !dir[0]
  {
    fake := new Node(key);
    fake.left := root;
    path, dir := new Node?<K>[MAX_DEPTH], new bool[MAX_DEPTH];
    path[0], dir[0] := fake, false;
    m' := m[fake := fake.Fields()];
    ff := FakeFrame(fake, m');
    RepKeys(m, root, t);
    RepSame(m, m', root, t);
  }

  lemma EraseSettles<K>(m: Mem<K>, root: Node?<K>, t: Tree<K>, t': Tree<K>, fs: seq<Frame<K>>, cur: Tree<K>,
                        fake: Node<K>, k: nat)
    requires Distinct(t) && t == Plug(fs, cur) && cur.Bin? && fake !in Nodes(t) && k == |Before(fs)| + |InOrder(cur.l)|
    requires Valid(m, root, t') && InOrder(t') == Remaining(fs, cur)
    ensures Valid(m - {fake, cur.n}, root, t')
    ensures k < |InOrder(t)| && InOrder(t)[k] == cur.n && InOrder(t') == InOrder(t)[..k] + InOrder(t)[k + 1..]
  {
    RemainingAt(t, fs, cur, k);
    NodesLess(t, t', k);
    Forgotten(m, root, t', {fake, cur.n});
  }

  // From the element found to the end.
  method EraseFound<K>(fake: Node<K>, p: Node<K>, path: array<Node?<K>>, dir: array<bool>, d: nat, ghost m: Mem<K>,
                       ghost root: Node?<K>, ghost t: Tree<K>, ghost ff: Frame<K>, ghost fs: seq<Frame<K>>,
                       ghost cur: Tree<K>, ghost k: nat)
    returns (root': Node?<K>, ghost m': Mem<K>, ghost t': Tree<K>)
    requires Mirrors(m) && Valid(m, root, t) && t == Plug(fs, cur) && cur.Bin? && p == cur.n
    requires Linked(m, ff, root) && ff.sib.Nil? && ff.n == fake && !ff.dir && fake !in Nodes(t)
    requires path.Length == dir.Length == MAX_DEPTH && d + Height(cur) <= 51 && k == |Before(fs)| + |InOrder(cur.l)|
    requires d == |fs| + 1 && Stored(path[..d], dir[..d], [ff] + fs)
    modifies m.Keys, path, dir
    ensures Mirrors(m') && m'.Keys == m.Keys - {fake, p} && Valid(m', root', t')
    ensures k < |InOrder(t)| && InOrder(t)[k] == p && InOrder(t') == InOrder(t)[..k] + InOrder(t)[k + 1..]
  {
    FoundAt(m, root, t, ff, fs, cur);
    ghost var m1;
    m1, t' := RemoveFound(p, path, dir, d, m, ff, fs, cur);
    assert fake.Fields() == m1[fake];
    root', m' := fake.left, m1 - {fake, p};
    EraseSettles(m1, root', t, t', fs, cur, fake, k);
  }

  // kavl_erase with a first-element request; the source reads before the path array on an empty tree.
  method EraseFirst<K>(root: Node<K>, ghost m: Mem<K>, ghost t: Tree<K>)
    returns (root': Node?<K>, p: Node<K>, cnt: int, ghost m': Mem<K>, ghost t': Tree<K>)
    requires Mirrors(m) && Valid(m, root, t) && |InOrder(t)| < SIZE_LIMIT
    modifies m.Keys
    ensures InOrder(t) != [] && p == InOrder(t)[0] && cnt == 1
    ensures Mirrors(m') && Valid(m', root', t') && InOrder(t') == InOrder(t)[1..] && m'.Keys == m.Keys - {p}
  {
    hide Mirrors;
    ghost var m1, ff, fs, cur;
    var fake, path, dir, d;
    fake, path, dir, m1, ff := Fake(root.key, root, m, t);
    p, d, fs, cur := SeekFirst(root, path, dir, m1, t, ff);
    root', m', t' := EraseFound(fake, p, path, dir, d, m1, root, t, ff, fs, cur, 0);
    cnt := 1;
  }

  // The search, with the count of elements up to `p`; it ends at position `pos` of the order.
  method Locate<K>(root: Node?<K>, cmp: (K, K) -> int, x: K, path: array<Node?<K>>, dir: array<bool>,
                   ghost m: Mem<K>, ghost t: Tree<K>, ghost ff: Frame<K>)
    returns (p: Node?<K>, d: nat, cnt: int, ghost pos: int, ghost fs: seq<Frame<K>>, ghost cur: Tree<K>)
    requires Mirrors(m) && Valid(m, root, t) && |InOrder(t)| < SIZE_LIMIT && !ff.dir
    requires path.Length == dir.Length == MAX_DEPTH && path[0] == ff.n && !dir[0]
    modifies path, dir
    ensures Searched(cmp, x, InOrder(t), p, pos) && cnt == if p == null then 0 else pos
    ensures p != null ==>
      && t == Plug(fs, cur) && cur.Bin? && p == cur.n && pos == |Before(fs)| + |InOrder(cur.l)| + 1
      && d == |fs| + 1 && d + Height(cur) <= 51 && Stored(path[..d], dir[..d], [ff] + fs)
  {
    p, d, cnt, fs, cur := Seek(root, cmp, x, path, dir, m, t, ff);
    SearchEnds(cmp, x, t, fs, cur);
    if p == null {
      pos := cnt;
      cnt := 0;
    } else {
      Look(m, t, cmp, x, p, cnt, fs, cur);
      cnt := cnt + SizeChild(p, false) + 1;
      pos := cnt;
    }
  }

  // What kavl_erase leaves behind: nothing changes if no element that compares equal
  // is found, otherwise exactly the element at position `pos` leaves the order.
  ghost predicate Erased<K>(m: Mem<K>, t: Tree<K>, p: Node?<K>, pos: int, m': Mem<K>, t': Tree<K>) {
    if p == null then m' == m && t' == t else
      m'.Keys == m.Keys - {p} && 0 < pos <= |InOrder(t)| && InOrder(t') == InOrder(t)[..pos - 1] + InOrder(t)[pos..]
  }

  method EraseBelow<K>(fake: Node<K>, root: Node?<K>, cmp: (K, K) -> int, x: K, path: array<Node?<K>>, dir: array<bool>,
                       ghost m: Mem<K>, ghost t: Tree<K>, ghost ff: Frame<K>)
    returns (root': Node?<K>, p: Node?<K>, cnt: int, ghost pos: int, ghost m': Mem<K>, ghost t': Tree<K>)
    requires Mirrors(m) && Valid(m, root, t) && |InOrder(t)| < SIZE_LIMIT
    requires Linked(m, ff, root) && ff.sib.Nil? && ff.n == fake && !ff.dir && fake !in Nodes(t)
    requires path.Length == dir.Length == MAX_DEPTH && path[0] == fake && !dir[0]
    modifies m.Keys, path, dir
    ensures Searched(cmp, x, InOrder(t), p, pos) && cnt == if p == null then 0 else pos
    ensures Mirrors(m') && Valid(m', root', t') && Erased(m - {fake}, t, p, pos, m', t')
    ensures (p == null ==> root' == root)
  {
    hide InOrder;
    hide Max;
    hide Valid;
    var d;
    ghost var fs, cur;
    p, d, cnt, pos, fs, cur := Locate(root, cmp, x, path, dir, m, t, ff);
    if p == null {
      root', m', t' := root, m - {fake}, t;
      Forgotten(m, root, t, {fake});
    } else {
      root', m', t' := EraseFound(fake, p, path, dir, d, m, root, t, ff, fs, cur, pos - 1);
    }
  }

  method Erase<K>(root: Node?<K>, cmp: (K, K) -> int, x: K, ghost m: Mem<K>, ghost t: Tree<K>)
    returns (root': Node?<K>, p: Node?<K>, cnt: int, ghost pos: int, ghost m': Mem<K>, ghost t': Tree<K>)
    requires Mirrors(m) && Valid(m, root, t) && |InOrder(t)| < SIZE_LIMIT
    modifies m.Keys
    ensures Searched(cmp, x, InOrder(t), p, pos) && cnt == if p == null then 0 else pos
    ensures Mirrors(m') && Valid(m', root', t') && Erased(m, t, p, pos, m', t') && (p == null ==> root' == root)
  {
    ghost var m1, ff;
    var fake, path, dir;
    fake, path, dir, m1, ff := Fake(x, root, m, t);
    root', p, cnt, pos, m', t' := EraseBelow(fake, root, cmp, x, path, dir, m1, t, ff);
  }
}
