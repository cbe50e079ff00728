/**
 Insertion into the AVL tree of `kavl.h`.

 The source walks down once, remembering the path and, in `bp`/`bq`, the last
 unbalanced node on it and that node's parent; it then adds the leaf, counts it
 in every size field of the path, tilts the balance fields from `bp` down, and
 rotates at `bp` if that node now leans by two.
 */
module KavlInsert {
  import opened KavlShape
  import opened KavlBalance
  import opened KavlRotate
  import opened KavlSearch

  const MAX_DEPTH: nat := 64

  // `b` is the last uneven frame of the path, or 0 if there is none.
  ghost predicate Pivot<K>(fs: seq<Frame<K>>, b: nat) {
    && (fs == [] ==> b == 0) && (fs != [] ==> b < |fs|)
    && (b == 0 || fs[b].bal != 0)
    && forall i :: b < i < |fs| ==> fs[i].bal == 0
  }

  lemma PivotPush<K>(fs: seq<Frame<K>>, b: nat, f: Frame<K>)
    requires Pivot(fs, b)
    ensures Pivot(fs + [f], if f.bal != 0 then |fs| else b)
  {
  }

  // The loop variables of the descent.
  datatype Walk<K> = Walk(p: Node?<K>, q: Node?<K>, bp: Node?<K>, bq: Node?<K>, which: bool,
                          len: nat, top: nat, cnt: int)

  // The loop variables and the two arrays, against the frames.
  ghost predicate Walked<K>(w: Walk<K>, fs: seq<Frame<K>>, b: nat, path: seq<Node?<K>>, stack: seq<bool>) {
    && Pivot(fs, b)
    && |fs| == |path| && (forall i :: 0 <= i < |fs| ==> path[i] == fs[i].n)
    && |stack| == |fs| - b && (forall i :: 0 <= i < |stack| ==> stack[i] == fs[b + i].dir)
    && w.q == (if fs == [] then null else fs[|fs| - 1].n)
    && w.bp == (if fs == [] then w.p else fs[b].n)
    && w.bq == (if b == 0 then null else fs[b - 1].n)
    && (fs != [] ==> w.which == fs[|fs| - 1].dir)
  }

  // The loop variables after recording `w.p` and turning to its child `c`.
  function Stepped<K>(w: Walk<K>, reset: bool, which: bool, c: Node?<K>, cnt: int): Walk<K> {
    Walk(c, w.p, if reset then w.p else w.bp, if reset then w.q else w.bq, which,
         w.len + 1, if reset then 1 else w.top + 1, cnt)
  }

  lemma WalkedPush<K>(w: Walk<K>, fs: seq<Frame<K>>, b: nat, path: seq<Node?<K>>, stack: seq<bool>,
                      f: Frame<K>, c: Node?<K>, cnt: int)
    requires Walked(w, fs, b, path, stack) && w.p == f.n
    ensures Walked(Stepped(w, f.bal != 0, f.dir, c, cnt), fs + [f], if f.bal != 0 then |fs| else b, path + [w.p],
                   (if f.bal != 0 then [] else stack) + [f.dir])
  {
    PivotPush(fs, b, f);
  }

  lemma DepthBound<K>(t: Tree<K>, fs: seq<Frame<K>>, cur: Tree<K>)
    requires t == Plug(fs, cur) && Balanced(t) && |InOrder(t)| < SIZE_LIMIT
    ensures |fs| + Height(cur) <= 50
  {
    HeightBound(t);
    PathFits(fs, cur);
  }

  lemma TurnKeeps<K>(m: Mem<K>, t: Tree<K>, cmp: (K, K) -> int, x: K, w: Walk<K>, fs: seq<Frame<K>>, b: nat,
                           cur: Tree<K>, ps: seq<Node?<K>>, ds: seq<bool>, w': Walk<K>, dir: bool)
    requires Standing(m, t, cmp, x, w.p, w.cnt, fs, cur) && Walked(w, fs, b, ps, ds) && cur.Bin?
    requires if dir then cmp(x, cur.n.key) > 0 else cmp(x, cur.n.key) < 0
    requires w' == Stepped(w, cur.bal != 0, dir, Top(Sub(cur, dir)), if dir then w.cnt + SizeOf(cur.l) + 1 else w.cnt)
    ensures Standing(m, t, cmp, x, w'.p, w'.cnt, fs + [FrameOf(cur, dir)], Sub(cur, dir))
    ensures Walked(w', fs + [FrameOf(cur, dir)], if cur.bal != 0 then |fs| else b, ps + [w.p],
                   (if cur.bal != 0 then [] else ds) + [dir])
  {
    StandingStep(m, t, cmp, x, w.p, w.cnt, fs, cur, dir);
    WalkedPush(w, fs, b, ps, ds, FrameOf(cur, dir), w'.p, w'.cnt);
  }

  // One turn of the descent loop.
  method Turn<K>(w: Walk<K>, which: bool, path: array<Node?<K>>, stack: array<bool>, ghost m: Mem<K>)
    returns (w': Walk<K>)
    requires Mirrors(m)
    requires w.p != null && w.len < path.Length && w.top <= w.len < stack.Length
    modifies path, stack
    ensures Mirrors(m)
    ensures w' == Stepped(w, w.p.balance != 0, which, w.p.Child(which),
                          if which then w.cnt + SizeChild(w.p, false) + 1 else w.cnt)
    ensures path[..w'.len] == old(path[..w.len]) + [w.p]
    ensures stack[..w'.top] == (if w.p.balance != 0 then [] else old(stack[..w.top])) + [which]
  {
    var p := w.p;
    var cnt := if which then w.cnt + SizeChild(p, false) + 1 else w.cnt;
    w' := Stepped(w, p.balance != 0, which, p.Child(which), cnt);
    stack[w'.top - 1] := which;
    path[w.len] := p;
  }

  method Descend<K>(root: Node?<K>, ghost m: Mem<K>, ghost t: Tree<K>, cmp: (K, K) -> int, x: K,
                          path: array<Node?<K>>, stack: array<bool>)
    returns (w: Walk<K>, ghost fs: seq<Frame<K>>, ghost b: nat, ghost cur: Tree<K>)
    requires Mirrors(m) && Valid(m, root, t) && |InOrder(t)| < SIZE_LIMIT
    requires path.Length == MAX_DEPTH && stack.Length == MAX_DEPTH
    modifies path, stack
    ensures Standing(m, t, cmp, x, w.p, w.cnt, fs, cur)
    ensures w.p != null ==> cmp(x, w.p.key) == 0
    ensures w.top <= w.len <= MAX_DEPTH && Walked(w, fs, b, path[..w.len], stack[..w.top])
  {
    hide Height;
    hide Mirrors;
    hide SizeOf;
    w := Walk(root, null, root, null, false, 0, 0, 0);
    ghost var ps: seq<Node?<K>>, ds: seq<bool> := [], [];
    fs, b, cur := [], 0, t;
    while w.p != null && cmp(x, w.p.key) != 0
      invariant Standing(m, t, cmp, x, w.p, w.cnt, fs, cur) && Mirrors(m)
      invariant w.top <= w.len <= MAX_DEPTH && path[..w.len] == ps && stack[..w.top] == ds
      invariant Walked(w, fs, b, ps, ds)
      decreases cur
    {
      var which := cmp(x, w.p.key) > 0;
      ghost var w0 := w;
      DepthBound(t, fs, cur);
      Look(m, t, cmp, x, w.p, w.cnt, fs, cur);
      w := Turn(w, which, path, stack, m);
      TurnKeeps(m, t, cmp, x, w0, fs, b, cur, ps, ds, w, which);
      ps, ds := ps + [w0.p], (if cur.bal != 0 then [] else ds) + [which];
      b, fs := if cur.bal != 0 then |fs| else b, fs + [FrameOf(cur, which)];
      cur := Sub(cur, which);
    }
  }

  // ---- Adding the leaf ------------------------------------------------------

  ghost predicate PathNames<K>(ps: seq<Node?<K>>, fs: seq<Frame<K>>) {
    |ps| == |fs| && forall i :: 0 <= i < |fs| ==> ps[i] == fs[i].n
  }

  ghost predicate Directions<K>(ds: seq<bool>, fs: seq<Frame<K>>, b: nat) {
    b <= |fs| && |ds| == |fs| - b && forall i :: 0 <= i < |ds| ==> ds[i] == fs[b + i].dir
  }

  ghost function Leaf<K>(x: Node<K>): Tree<K> {
    Bin(Nil, x, 0, 1, Nil)
  }

  method Attach<K>(root: Node?<K>, x: Node<K>, q: Node?<K>, which: bool, ghost m: Mem<K>, ghost fs: seq<Frame<K>>)
    returns (root': Node?<K>, ghost m': Mem<K>)
    requires Mirrors(m) && x !in m
    requires PathRep(m, root, fs, null) && Apart(fs, {x})
    requires q == (if fs == [] then null else fs[|fs| - 1].n)
    requires fs != [] ==> which == fs[|fs| - 1].dir
    modifies m.Keys, x
    ensures Mirrors(m') && m'.Keys == m.Keys + {x}
    ensures PathRep(m', root', fs, x) && Rep(m', x, Leaf(x))
  {
    hide Linked;
    x.balance, x.size, x.left, x.right := 0, 1, null, null;
    ghost var m1 := m[x := Cell(null, null, 0, 1)];
    PathRepSame(m, m1, root, fs, null);
    if q == null {
      root', m' := x, m1;
    } else {
      PathRepRelink(m1, root, fs, null, x);
      m' := StoreChild(q, which, x, m1);
      root' := root;
      assert q != x by { assert FrameNodes(fs[|fs| - 1]) !! {x}; }
    }
  }

  // `gs` is `fs` with `d` added to the first `k` size fields.
  ghost predicate Counted<K>(fs: seq<Frame<K>>, gs: seq<Frame<K>>, d: int, k: nat) {
    |gs| == |fs| && forall i :: 0 <= i < |gs| ==> gs[i] == fs[i].(sz := fs[i].sz + if i < k then d else 0)
  }

  lemma AddSizeStep<K>(m: Mem<K>, root: Node?<K>, fs: seq<Frame<K>>, gs: seq<Frame<K>>, d: int, k: nat, q: Node?<K>)
    requires PathRep(m, root, gs, q) && Apart(fs, {}) && Counted(fs, gs, d, k) && k < |fs|
    ensures fs[k].n in m && m[fs[k].n].size == gs[k].sz
    ensures PathRep(m[fs[k].n := m[fs[k].n].(size := gs[k].sz + d)], root, gs[k := gs[k].(sz := gs[k].sz + d)], q)
    ensures Counted(fs, gs[k := gs[k].(sz := gs[k].sz + d)], d, k + 1)
  {
    ApartAlike(fs, gs, {});
    PathRepAt(m, root, gs, k, q);
    PathRepSet(m, root, gs, k, gs[k].bal, gs[k].sz + d, q);
  }

  method AddSize<K>(n: Node<K>, d: int, ghost root: Node?<K>, ghost m: Mem<K>, ghost fs: seq<Frame<K>>,
                    ghost gs: seq<Frame<K>>, ghost k: nat, ghost q: Node?<K>)
    returns (ghost m': Mem<K>, ghost gs': seq<Frame<K>>)
    requires Mirrors(m) && Apart(fs, {}) && Counted(fs, gs, d, k) && k < |fs| && n == fs[k].n
    requires PathRep(m, root, gs, q)
    modifies m.Keys
    ensures Mirrors(m') && ChangedWithin(m, m', PathNodes(fs))
    ensures PathRep(m', root, gs', q) && Counted(fs, gs', d, k + 1)
  {
    AddSizeStep(m, root, fs, gs, d, k, q);
    assert n in FrameNodes(fs[k]);
    gs' := gs[k := gs[k].(sz := gs[k].sz + d)];
    assert n.Fields() == m[n];
    m' := StoreSize(n, n.size + d, m);
  }

  // Adds `d` to the size of every node on a stretch of the path.
  method AddSizes<K>(path: array<Node?<K>>, lo: nat, hi: nat, d: int, ghost root: Node?<K>, ghost m: Mem<K>,
                     ghost fs: seq<Frame<K>>, ghost q: Node?<K>)
    returns (ghost m': Mem<K>, ghost gs: seq<Frame<K>>)
    requires Mirrors(m) && PathRep(m, root, fs, q) && Apart(fs, {})
    requires lo <= hi <= path.Length && PathNames(path[lo..hi], fs)
    modifies m.Keys
    ensures Mirrors(m') && ChangedWithin(m, m', PathNodes(fs))
    ensures PathRep(m', root, gs, q) && Counted(fs, gs, d, |fs|)
  {
    hide Linked;
    hide PathRep;
    m', gs := m, fs;
    var i := lo;
    ghost var k := 0;
    while i < hi
      invariant k <= |fs| && i == lo + k && Mirrors(m') && ChangedWithin(m, m', PathNodes(fs))
      invariant PathRep(m', root, gs, q) && Counted(fs, gs, d, k)
    {
      assert path[lo..hi][k] == fs[k].n;
      m', gs := AddSize(path[i], d, root, m', fs, gs, k, q);
      i, k := i + 1, k + 1;
    }
  }

  // `gs` is `fs` with `k` balance fields from frame `b` on tilted towards the hole.
  ghost predicate Tilting<K>(fs: seq<Frame<K>>, gs: seq<Frame<K>>, b: nat, k: nat) {
    && |gs| == |fs|
    && forall i :: 0 <= i < |gs| ==>
        gs[i] == fs[i].(bal := fs[i].bal + if b <= i < b + k then Tilt(fs[i].dir) else 0)
  }

  lemma TiltStep<K>(m: Mem<K>, root: Node?<K>, fs: seq<Frame<K>>, gs: seq<Frame<K>>, b: nat, k: nat, q: Node?<K>)
    requires PathRep(m, root, gs, q) && Apart(fs, {}) && Tilting(fs, gs, b, k) && b + k < |fs|
    ensures var f := gs[b + k];
      && f.n == fs[b + k].n && f.dir == fs[b + k].dir
      && f.n in m && m[f.n].balance == f.bal && m[f.n].Child(f.dir) == Next(fs, b + k + 1, q)
      && PathRep(m[f.n := m[f.n].(balance := f.bal + Tilt(f.dir))], root,
                 gs[b + k := f.(bal := f.bal + Tilt(f.dir))], q)
      && Tilting(fs, gs[b + k := f.(bal := f.bal + Tilt(f.dir))], b, k + 1)
  {
    hide PathRep;
    var f := gs[b + k];
    ApartAlike(fs, gs, {});
    PathRepAt(m, root, gs, b + k, q);
    PathRepSet(m, root, gs, b + k, f.bal + Tilt(f.dir), f.sz, q);
  }

  // One turn of the balance loop.
  method TiltOne<K>(p: Node<K>, which: bool, ghost root: Node?<K>, ghost m: Mem<K>, ghost fs: seq<Frame<K>>,
                    ghost gs: seq<Frame<K>>, ghost b: nat, ghost k: nat, ghost q: Node?<K>)
    returns (p': Node?<K>, ghost m': Mem<K>, ghost gs': seq<Frame<K>>)
    requires Mirrors(m) && Apart(fs, {}) && Tilting(fs, gs, b, k) && b + k < |fs|
    requires PathRep(m, root, gs, q) && p == fs[b + k].n && which == fs[b + k].dir
    modifies m.Keys
    ensures Mirrors(m') && ChangedWithin(m, m', PathNodes(fs)) && p' == Next(fs, b + k + 1, q)
    ensures PathRep(m', root, gs', q) && Tilting(fs, gs', b, k + 1)
  {
    hide PathRep;
    TiltStep(m, root, fs, gs, b, k, q);
    assert p in FrameNodes(fs[b + k]);
    gs' := gs[b + k := gs[b + k].(bal := gs[b + k].bal + Tilt(which))];
    assert p.Fields() == m[p];
    p' := p.Child(which);
    m' := StoreBalance(p, if which then p.balance + 1 else p.balance - 1, m);
  }

  // Tilts every node from the pivot down to the new leaf towards the side the search took.
  method TiltDown<K>(bp: Node<K>, x: Node<K>, stack: array<bool>, ghost root: Node?<K>, ghost m: Mem<K>,
                     ghost fs: seq<Frame<K>>, ghost b: nat)
    returns (ghost m': Mem<K>, ghost gs: seq<Frame<K>>)
    requires Mirrors(m) && PathRep(m, root, fs, x) && Apart(fs, {x}) && b <= |fs| && bp == Next(fs, b, x)
    requires |fs| - b <= stack.Length && Directions(stack[..|fs| - b], fs, b)
    modifies m.Keys
    ensures Mirrors(m') && ChangedWithin(m, m', PathNodes(fs))
    ensures PathRep(m', root, gs, x) && Tilting(fs, gs, b, |fs| - b)
  {
    hide PathRep;
    ApartLess(fs, {x});
    var p: Node?<K>, top := bp, 0;
    m', gs := m, fs;
    while p != x
      invariant 0 <= top <= |fs| - b && p == Next(fs, b + top, x)
      invariant Mirrors(m') && ChangedWithin(m, m', PathNodes(fs))
      invariant PathRep(m', root, gs, x) && Tilting(fs, gs, b, top)
      decreases |fs| - b - top
    {
      assert stack[..|fs| - b][top] == fs[b + top].dir;
      p, m', gs := TiltOne(p, stack[top], root, m', fs, gs, b, top, x);
      top := top + 1;
    }
  }

  // ---- Rebalancing ----------------------------------------------------------

  // Rotates at a node that leans by two over a child that leans at all.
  method Level<K>(bp: Node<K>, ghost m: Mem<K>, ghost S: Tree<K>)
    returns (r: Node<K>, ghost m': Mem<K>, ghost R: Tree<K>)
    requires Mirrors(m) && Rep(m, bp, S) && Distinct(S) && Sized(S) && S.Bin?
    requires Leaning(S, S.bal < 0)
    requires Sub(S, !(S.bal < 0)).Bin? ==> Sub(S, !(S.bal < 0)).bal != 0
    modifies m.Keys
    ensures Mirrors(m') && ChangedWithin(m, m', Nodes(S))
    ensures Rep(m', r, R) && StandsIn(R, S) && Balanced(R) && Height(R) == Height(S) - 1
  {
    OpenRep(m, bp, S.bal < 0, S);
    assert bp.Fields() == m[bp];
    var which := bp.balance < 0;
    var b1 := if which then -1 else 1;
    SingleBalances(S, which);
    DoubleBalances(S, which);
    var q := bp.Child(!which);
    OpenRep(m, q, which, Sub(S, !which));
    assert q.Fields() == m[q];
    if q.balance == b1 {
      m' := RotateSingle(bp, q, which, 0, 0, m, S);
      r, R := q, Single(S, which, 0, 0);
    } else {
      r, m' := RotateDouble(bp, which, m, S);
      R := Rotated2(S, which);
    }
  }

  // ---- What insertion does to the shape -------------------------------------

  // The pivot before and after the subtree on its path grew by one level.
  lemma PivotGrows<K>(f: Frame<K>, sub: Tree<K>, sub': Tree<K>, f': Frame<K>)
    requires Balanced(Join(f, sub)) && Balanced(sub') && Height(sub') == Height(sub) + 1
    requires f' == f.(bal := f.bal + Tilt(f.dir), sz := f.sz + 1)
    ensures var S := Join(f', sub');
      && (-1 <= S.bal <= 1 ==> Balanced(S) && Height(S) == Height(Join(f, sub)) + if f.bal == 0 then 1 else 0)
      && (!(-1 <= S.bal <= 1) ==>
            && Leaning(S, S.bal < 0) && Sub(S, !(S.bal < 0)) == sub' && sub.Bin?
            && Height(S) == Height(Join(f, sub)) + 1)
  {
    MkBalanced(f.dir, sub, f.n, f.bal, f.sz, f.sib);
    MkBalanced(f.dir, sub', f'.n, f'.bal, f'.sz, f'.sib);
  }

  // The path after both loops: one more node everywhere, tilted from `b` on.
  ghost predicate Grown<K>(fs: seq<Frame<K>>, gs: seq<Frame<K>>, b: nat) {
    SizedBy(fs, gs, 1) &&
    forall i :: 0 <= i < |fs| ==> gs[i].bal == fs[i].bal + if i < b then 0 else Tilt(fs[i].dir)
  }

  lemma PlugAround<K>(fs: seq<Frame<K>>, b: nat, t: Tree<K>)
    requires b < |fs|
    ensures Plug(fs, t) == Plug(fs[..b], Join(fs[b], Plug(fs[b + 1..], t)))
  {
    PlugSplit(fs, b + 1, t);
    assert fs[..b + 1] == fs[..b] + [fs[b]];
    PlugSnoc(fs[..b], fs[b], Plug(fs[b + 1..], t));
  }

  lemma TiltsBelow<K>(fs: seq<Frame<K>>, gs: seq<Frame<K>>, b: nat)
    requires Pivot(fs, b) && b < |fs| && Grown(fs, gs, b)
    ensures Tilts(fs[b + 1..], gs[b + 1..])
  {
  }

  // Everything below the pivot is even, so it grows by exactly one level.
  lemma BelowPivotGrows<K>(fs: seq<Frame<K>>, gs: seq<Frame<K>>, b: nat, x: Node<K>)
    requires Balanced(Plug(fs, Nil)) && Pivot(fs, b) && b < |fs| && Grown(fs, gs, b)
    ensures var sub, sub' := Plug(fs[b + 1..], Nil), Plug(gs[b + 1..], Leaf(x));
      && Balanced(Join(fs[b], sub)) && PathBalanced(fs[..b], Height(Join(fs[b], sub)))
      && Balanced(sub') && Height(sub') == Height(sub) + 1
      && (sub.Bin? ==> sub'.Bin? && sub'.bal != 0)
  {
    var rest := fs[b + 1..];
    var sub := Plug(rest, Nil);
    PlugAround(fs, b, Nil);
    BalancedPlug(fs[..b], Join(fs[b], sub));
    MkBalanced(fs[b].dir, sub, fs[b].n, fs[b].bal, fs[b].sz, fs[b].sib);
    BalancedPlug(rest, Nil);
    TiltsBelow(fs, gs, b);
    TiltedGrows(rest, gs[b + 1..], Nil, Leaf(x));
  }

  // The pivot's new balance decides whether the tree is balanced already.
  ghost predicate Decided<K>(up: seq<Frame<K>>, S: Tree<K>) {
    && S.Bin?
    && (-1 <= S.bal <= 1 ==> Balanced(Plug(up, S)))
    && (!(-1 <= S.bal <= 1) ==>
          && Leaning(S, S.bal < 0)
          && (Sub(S, !(S.bal < 0)).Bin? ==> Sub(S, !(S.bal < 0)).bal != 0)
          && PathBalanced(up, Height(S) - 1))
  }

  // The pivot keeps its height, or tips over and waits for a rotation that restores it.
  lemma PivotHeights<K>(f: Frame<K>, sub: Tree<K>, f': Frame<K>, sub': Tree<K>)
    requires Balanced(Join(f, sub))
    requires Balanced(sub') && Height(sub') == Height(sub) + 1 && (sub.Bin? ==> sub'.Bin? && sub'.bal != 0)
    requires f' == f.(bal := f.bal + Tilt(f.dir), sz := f.sz + 1)
    ensures var S, h := Join(f', sub'), Height(Join(f, sub));
      && (-1 <= S.bal <= 1 && f.bal != 0 ==> Height(S) == h) && (!(-1 <= S.bal <= 1) ==> Height(S) - 1 == h)
  {
    PivotGrows(f, sub, sub', f');
  }

  lemma PivotDecides<K>(up: seq<Frame<K>>, f: Frame<K>, sub: Tree<K>, up': seq<Frame<K>>, f': Frame<K>, sub': Tree<K>)
    requires Balanced(Join(f, sub)) && PathBalanced(up, Height(Join(f, sub))) && SameBalance(up, up')
    requires f.bal == 0 ==> up == []
    requires Balanced(sub') && Height(sub') == Height(sub) + 1 && (sub.Bin? ==> sub'.Bin? && sub'.bal != 0)
    requires f' == f.(bal := f.bal + Tilt(f.dir), sz := f.sz + 1)
    ensures Decided(up', Join(f', sub'))
  {
    var S, h := Join(f', sub'), Height(Join(f, sub));
    PivotGrows(f, sub, sub', f');
    PivotHeights(f, sub, f', sub');
    PathBalancedSame(up, up', h);
    if -1 <= S.bal <= 1 && f.bal != 0 {
      BalancedPlug(up', S);
    }
  }

  lemma InsertBalance<K>(fs: seq<Frame<K>>, gs: seq<Frame<K>>, b: nat, x: Node<K>)
    requires Balanced(Plug(fs, Nil)) && Pivot(fs, b) && b < |fs| && Grown(fs, gs, b)
    ensures Decided(gs[..b], Join(gs[b], Plug(gs[b + 1..], Leaf(x))))
  {
    BelowPivotGrows(fs, gs, b, x);
    PivotDecides(fs[..b], fs[b], Plug(fs[b + 1..], Nil), gs[..b], gs[b], Plug(gs[b + 1..], Leaf(x)));
  }

  lemma {:induction false} AlikeSides<K>(fs: seq<Frame<K>>, gs: seq<Frame<K>>)
    requires Alike(fs, gs)
    ensures Before(fs) == Before(gs) && After(fs) == After(gs)
    decreases |fs|
  {
    if fs != [] { AlikeSides(fs[..|fs| - 1], gs[..|gs| - 1]); }
  }

  // The tree with the leaf in place: contents, sizes and distinctness.
  lemma InsertOrder<K>(fs: seq<Frame<K>>, gs: seq<Frame<K>>, x: Node<K>)
    requires Alike(fs, gs)
    ensures InOrder(Plug(gs, Leaf(x))) == Before(fs) + [x] + After(fs)
  {
    AlikeSides(fs, gs);
    InOrderPlug(gs, Leaf(x));
    assert InOrder(Leaf(x)) == [x];
  }

  lemma InsertSizes<K>(fs: seq<Frame<K>>, gs: seq<Frame<K>>, x: Node<K>)
    requires Sized(Plug(fs, Nil)) && SizedBy(fs, gs, 1)
    ensures Sized(Plug(gs, Leaf(x)))
  {
    SizedPlug(fs, Nil);
    PathSizedBy(fs, gs, 0, 1);
    SizedPlug(gs, Leaf(x));
  }

  lemma InsertDistinct<K>(fs: seq<Frame<K>>, gs: seq<Frame<K>>, x: Node<K>)
    requires Apart(fs, {x}) && Alike(fs, gs)
    ensures Distinct(Plug(gs, Leaf(x)))
  {
    ApartAlike(fs, gs, {x});
    DistinctPlug(gs, Leaf(x));
  }

  // ---- The whole insertion --------------------------------------------------

  lemma LeafSame<K>(m: Mem<K>, m': Mem<K>, x: Node<K>, fs: seq<Frame<K>>)
    requires Rep(m, x, Leaf(x)) && ChangedWithin(m, m', PathNodes(fs)) && Apart(fs, {x})
    ensures Rep(m', x, Leaf(x))
  {
    RepSame(m, m', x, Leaf(x));
  }

  lemma GrownAfterLoops<K>(fs: seq<Frame<K>>, hs: seq<Frame<K>>, gs: seq<Frame<K>>, b: nat)
    requires Counted(fs, hs, 1, |fs|) && b <= |fs| && Tilting(hs, gs, b, |fs| - b)
    ensures Alike(fs, hs) && Grown(fs, gs, b)
  {
  }

  lemma {:induction false} PathNodesAlike<K>(fs: seq<Frame<K>>, gs: seq<Frame<K>>)
    requires Alike(fs, gs)
    ensures PathNodes(fs) == PathNodes(gs)
    decreases |fs|
  {
    if fs != [] {
      PathNodesSplit(fs);
      PathNodesSplit(gs);
      PathNodesAlike(fs[..|fs| - 1], gs[..|gs| - 1]);
    }
  }

  lemma WalkedArrays<K>(w: Walk<K>, fs: seq<Frame<K>>, b: nat, ps: seq<Node?<K>>, ds: seq<bool>)
    requires Walked(w, fs, b, ps, ds)
    ensures PathNames(ps, fs) && Directions(ds, fs, b)
  {
  }

  // Links the leaf and counts it in the sizes.
  method CountLeaf<K>(root: Node?<K>, x: Node<K>, q: Node?<K>, which: bool, path: array<Node?<K>>, len: nat,
                      ghost m: Mem<K>, ghost fs: seq<Frame<K>>)
    returns (root': Node?<K>, ghost m': Mem<K>, ghost hs: seq<Frame<K>>)
    requires Mirrors(m) && x !in m && PathRep(m, root, fs, null) && Apart(fs, {x}) && fs != []
    requires q == fs[|fs| - 1].n && which == fs[|fs| - 1].dir
    requires len <= path.Length && PathNames(path[..len], fs)
    modifies m.Keys, x
    ensures Mirrors(m') && m'.Keys == m.Keys + {x}
    ensures PathRep(m', root', hs, x) && Rep(m', x, Leaf(x)) && Counted(fs, hs, 1, |fs|)
  {
    ghost var m1;
    root', m1 := Attach(root, x, q, which, m, fs);
    ApartLess(fs, {x});
    assert path[0..len] == path[..len];
    m', hs := AddSizes(path, 0, len, 1, root', m1, fs, x);
    LeafSame(m1, m', x, fs);
  }

  // Tilts the balances above the leaf.
  method TiltLeaf<K>(x: Node<K>, bp: Node<K>, stack: array<bool>, ghost root: Node?<K>,
                     ghost m: Mem<K>, ghost fs: seq<Frame<K>>, ghost b: nat)
    returns (ghost m': Mem<K>, ghost gs: seq<Frame<K>>)
    requires Mirrors(m) && PathRep(m, root, fs, x) && Rep(m, x, Leaf(x)) && Apart(fs, {x})
    requires b < |fs| && bp == fs[b].n
    requires |fs| - b <= stack.Length && Directions(stack[..|fs| - b], fs, b)
    modifies m.Keys
    ensures Mirrors(m') && m'.Keys == m.Keys
    ensures PathRep(m', root, gs, x) && Rep(m', x, Leaf(x)) && Tilting(fs, gs, b, |fs| - b)
  {
    m', gs := TiltDown(bp, x, stack, root, m, fs, b);
    LeafSame(m, m', x, fs);
  }

  // Links the leaf, counts it in the sizes and tilts the balances.
  method GrowPath<K>(root: Node?<K>, x: Node<K>, w: Walk<K>, path: array<Node?<K>>, stack: array<bool>,
                     ghost m: Mem<K>, ghost fs: seq<Frame<K>>, ghost b: nat)
    returns (root': Node?<K>, ghost m': Mem<K>, ghost gs: seq<Frame<K>>)
    requires Mirrors(m) && x !in m && PathRep(m, root, fs, null) && Apart(fs, {x}) && b < |fs|
    requires w.q == fs[|fs| - 1].n && w.which == fs[|fs| - 1].dir && w.bp == fs[b].n
    requires w.len <= path.Length && PathNames(path[..w.len], fs)
    requires w.top <= stack.Length && Directions(stack[..w.top], fs, b)
    modifies m.Keys, x
    ensures Mirrors(m') && m'.Keys == m.Keys + {x}
    ensures PathRep(m', root', gs, x) && Rep(m', x, Leaf(x)) && Grown(fs, gs, b)
  {
    hide Linked;
    ghost var m1, hs;
    ghost var ds := stack[..w.top];
    root', m1, hs := CountLeaf(root, x, w.q, w.which, path, w.len, m, fs);
    CountedFacts(fs, hs, b, x, ds);
    assert stack[..|hs| - b] == ds;
    m', gs := TiltLeaf(x, w.bp, stack, root', m1, hs, b);
    GrownAfterLoops(fs, hs, gs, b);
  }

  lemma CountedFacts<K>(fs: seq<Frame<K>>, hs: seq<Frame<K>>, b: nat, x: Node<K>, ds: seq<bool>)
    requires Counted(fs, hs, 1, |fs|) && Apart(fs, {x}) && b < |fs| && Directions(ds, fs, b)
    ensures Apart(hs, {x}) && |hs| == |fs| && hs[b].n == fs[b].n && Directions(ds, hs, b)
  {
    ApartAlike(fs, hs, {x});
  }

  // The link above the pivot is the one the source picks by comparing pointers.
  lemma LinkSide<K>(m: Mem<K>, root: Node?<K>, up: seq<Frame<K>>, bp: Node<K>, s: set<Node<K>>)
    requires PathRep(m, root, up, bp) && up != [] && Apart(up, s) && bp in s
    ensures up[|up| - 1].n in m && (bp != m[up[|up| - 1].n].left) == up[|up| - 1].dir
  {
    var f := up[|up| - 1];
    if f.dir {
      RepTop(m, m[f.n].left, f.sib);
      assert FrameNodes(f) !! s;
    }
  }

  // Hangs what the rotation has made where the pivot was.
  method Rehang<K>(root: Node?<K>, bp: Node<K>, bq: Node?<K>, r: Node<K>, ghost m: Mem<K>, ghost up: seq<Frame<K>>,
                   ghost S: Tree<K>, ghost R: Tree<K>)
    returns (root': Node?<K>, ghost m': Mem<K>)
    requires Mirrors(m) && PathRep(m, root, up, bp) && Rep(m, r, R) && Nodes(R) == Nodes(S) && bp in Nodes(S)
    requires Apart(up, Nodes(S)) && bq == (if up == [] then null else up[|up| - 1].n)
    modifies m.Keys
    ensures Mirrors(m') && m'.Keys == m.Keys && PathRep(m', root', up, r) && Rep(m', r, R)
  {
    root', m' := r, m;
    if bq != null {
      LinkSide(m, root, up, bp, Nodes(S));
      ApartLess(up, Nodes(S));
      PathRepRelink(m, root, up, bp, r);
      assert bq.Fields() == m[bq];
      m' := StoreChild(bq, bp != bq.left, r, m);
      root' := root;
      assert bq in FrameNodes(up[|up| - 1]);
      RepSame(m, m', r, R);
    }
  }

  // Rotates at the pivot and relinks the result.
  method Raise<K>(root: Node?<K>, bp: Node<K>, bq: Node?<K>, ghost m: Mem<K>, ghost up: seq<Frame<K>>, ghost S: Tree<K>)
    returns (root': Node?<K>, ghost m': Mem<K>, ghost R: Tree<K>)
    requires Mirrors(m) && PathRep(m, root, up, bp) && Rep(m, bp, S) && Distinct(S) && Sized(S) && S.Bin?
    requires Apart(up, Nodes(S)) && Decided(up, S) && !(-1 <= S.bal <= 1)
    requires bq == (if up == [] then null else up[|up| - 1].n)
    modifies m.Keys
    ensures Mirrors(m') && m'.Keys == m.Keys
    ensures PathRep(m', root', up, Top(R)) && Rep(m', Top(R), R)
    ensures StandsIn(R, S) && Balanced(Plug(up, R))
  {
    hide Height;
    hide Leaning;
    hide Mirrors;
    ghost var m1;
    var r;
    r, m1, R := Level(bp, m, S);
    RepTop(m1, r, R);
    BalancedPlug(up, R);
    ApartPathNodes(up, Nodes(S));
    PathRepSame(m, m1, root, up, bp);
    root', m' := Rehang(root, bp, bq, r, m1, up, S, R);
  }

  ghost function PivotTree<K>(gs: seq<Frame<K>>, b: nat, x: Node<K>): Tree<K>
    requires b < |gs|
  {
    Join(gs[b], Plug(gs[b + 1..], Leaf(x)))
  }

  // The grown tree, taken apart at the pivot.
  lemma PivotParts<K>(m: Mem<K>, root: Node?<K>, gs: seq<Frame<K>>, b: nat, x: Node<K>)
    requires b < |gs| && PathRep(m, root, gs, x) && Rep(m, x, Leaf(x))
    requires Sized(Plug(gs, Leaf(x))) && Distinct(Plug(gs, Leaf(x)))
    ensures var S := PivotTree(gs, b, x);
      && Plug(gs, Leaf(x)) == Plug(gs[..b], S)
      && PathRep(m, root, gs[..b], gs[b].n) && Rep(m, gs[b].n, S)
      && Sized(S) && Distinct(S) && Apart(gs[..b], Nodes(S))
  {
    var S := PivotTree(gs, b, x);
    PlugAround(gs, b, Leaf(x));
    SizedPlug(gs[..b], S);
    UnplugDistinct(gs[..b], S);
    PathRepSplit(m, root, gs, b, x);
    RepPlug(m, root, gs, x, Leaf(x));
    UnplugRep(m, root, gs[..b], S);
  }

  // Rebalances at the pivot if it needs to be.
  method Settle<K>(root: Node?<K>, bp: Node<K>, bq: Node?<K>, ghost m: Mem<K>, ghost up: seq<Frame<K>>,
                   ghost S: Tree<K>)
    returns (root': Node?<K>, ghost m': Mem<K>, ghost t': Tree<K>)
    requires Mirrors(m) && AlmostValid(m, root, up, S) && bp == S.n
    requires bq == (if up == [] then null else up[|up| - 1].n)
    modifies m.Keys
    ensures Mirrors(m') && m'.Keys == m.Keys && Valid(m', root', t')
    ensures InOrder(t') == InOrder(Plug(up, S))
    ensures up == [] && -1 <= S.bal <= 1 ==> t'.Bin? && t'.n == bp
    ensures up != [] ==> t'.Bin? && t'.n == up[0].n
  {
    ghost var R;
    assert bp.Fields() == m[bp];
    if -1 <= bp.balance <= 1 {
      root', m', R := root, m, S;
    } else {
      root', m', R := Raise(root, bp, bq, m, up, S);
    }
    InsertedValid(m', root', up, S, R);
    if up != [] { PlugTop(up, R); }
    t' := Plug(up, R);
  }

  lemma InsertedValid<K>(m: Mem<K>, root: Node?<K>, up: seq<Frame<K>>, S: Tree<K>, R: Tree<K>)
    requires PathRep(m, root, up, Top(R)) && Rep(m, Top(R), R) && StandsIn(R, S) && Balanced(Plug(up, R))
    requires Sized(Plug(up, S)) && Distinct(Plug(up, S))
    ensures Valid(m, root, Plug(up, R)) && InOrder(Plug(up, R)) == InOrder(Plug(up, S))
  {
    StandInPlug(up, S, R);
    RepPlug(m, root, up, Top(R), R);
  }

  // The tree `Plug(up, S)`, well formed but for the balance at the top of `S`.
  ghost predicate AlmostValid<K>(m: Mem<K>, root: Node?<K>, up: seq<Frame<K>>, S: Tree<K>) {
    && S.Bin? && PathRep(m, root, up, S.n) && Rep(m, S.n, S) && Sized(S) && Distinct(S)
    && Apart(up, Nodes(S)) && Decided(up, S)
    && Sized(Plug(up, S)) && Distinct(Plug(up, S))
  }

  // What holds at the pivot once the leaf is in place and counted.
  lemma AtPivot<K>(m: Mem<K>, root: Node?<K>, fs: seq<Frame<K>>, gs: seq<Frame<K>>, b: nat, x: Node<K>)
    requires Sized(Plug(fs, Nil)) && Balanced(Plug(fs, Nil)) && Apart(fs, {x}) && Pivot(fs, b) && fs != []
    requires Grown(fs, gs, b) && PathRep(m, root, gs, x) && Rep(m, x, Leaf(x))
    ensures AlmostValid(m, root, gs[..b], PivotTree(gs, b, x))
    ensures InOrder(Plug(gs[..b], PivotTree(gs, b, x))) == Before(fs) + [x] + After(fs)
  {
    InsertOrder(fs, gs, x);
    InsertSizes(fs, gs, x);
    InsertDistinct(fs, gs, x);
    InsertBalance(fs, gs, b, x);
    PivotParts(m, root, gs, b, x);
  }

  method GrowToPivot<K>(root: Node?<K>, x: Node<K>, w: Walk<K>, path: array<Node?<K>>, stack: array<bool>,
                        ghost m: Mem<K>, ghost fs: seq<Frame<K>>, ghost b: nat)
    returns (root': Node?<K>, ghost m': Mem<K>, ghost up: seq<Frame<K>>, ghost S: Tree<K>)
    requires Mirrors(m) && x !in m && Sized(Plug(fs, Nil)) && Balanced(Plug(fs, Nil)) && fs != []
    requires PathRep(m, root, fs, null) && Apart(fs, {x})
    requires Pivot(fs, b) && w.q == fs[|fs| - 1].n && w.which == fs[|fs| - 1].dir && w.bp == fs[b].n
    requires w.len <= path.Length && PathNames(path[..w.len], fs)
    requires w.top <= stack.Length && Directions(stack[..w.top], fs, b)
    modifies m.Keys, x
    ensures Mirrors(m') && m'.Keys == m.Keys + {x} && AlmostValid(m', root', up, S)
    ensures w.bp == S.n && |up| == b && (b > 0 ==> up[b - 1].n == fs[b - 1].n && up[0].n == fs[0].n)
    ensures InOrder(Plug(up, S)) == Before(fs) + [x] + After(fs)
    ensures b == 0 && fs[0].bal == 0 ==> -1 <= S.bal <= 1
  {
    ghost var gs;
    root', m', gs := GrowPath(root, x, w, path, stack, m, fs, b);
    AtPivot(m', root', fs, gs, b, x);
    up, S := gs[..b], PivotTree(gs, b, x);
  }

  // Insertion below a path on which no node compares equal.
  method InsertAt<K>(root: Node?<K>, x: Node<K>, w: Walk<K>, path: array<Node?<K>>, stack: array<bool>,
                     ghost m: Mem<K>, ghost fs: seq<Frame<K>>, ghost b: nat)
    returns (root': Node?<K>, ghost m': Mem<K>, ghost t': Tree<K>)
    requires Mirrors(m) && x !in m && Sized(Plug(fs, Nil)) && Balanced(Plug(fs, Nil)) && fs != []
    requires PathRep(m, root, fs, null) && Apart(fs, {x})
    requires w.len <= path.Length && w.top <= stack.Length && Walked(w, fs, b, path[..w.len], stack[..w.top])
    modifies m.Keys, x
    ensures Mirrors(m') && m'.Keys == m.Keys + {x} && Valid(m', root', t')
    ensures InOrder(t') == Before(fs) + [x] + After(fs)
    ensures fs[0].bal == 0 ==> t'.Bin? && t'.n == fs[0].n
  {
    hide After;
    hide AlmostValid;
    ghost var up, S;
    WalkedArrays(w, fs, b, path[..w.len], stack[..w.top]);
    root', m', up, S := GrowToPivot(root, x, w, path, stack, m, fs, b);
    root', m', t' := Settle(root', w.bp, w.bq, m', up, S);
  }

  lemma InsertReady<K>(m: Mem<K>, root: Node?<K>, t: Tree<K>, fs: seq<Frame<K>>, x: Node<K>)
    requires Valid(m, root, t) && t == Plug(fs, Nil) && x !in m
    ensures PathRep(m, root, fs, null) && Apart(fs, {x})
  {
    UnplugRep(m, root, fs, Nil);
    UnplugDistinct(fs, Nil);
    RepKeys(m, root, t);
    NodesPlug(fs, Nil);
    ApartMore(fs, {}, {x});
  }

  lemma SidesSplit<K>(t: Tree<K>, fs: seq<Frame<K>>)
    requires t == Plug(fs, Nil)
    ensures var k := |Before(fs)|;
      k <= |InOrder(t)| && Before(fs) == InOrder(t)[..k] && After(fs) == InOrder(t)[k..]
  {
    InOrderPlug(fs, Nil);
  }

  // The root of a tree is the first node of every path in it.
  lemma {:induction false} PlugTop<K>(fs: seq<Frame<K>>, t: Tree<K>)
    requires fs != []
    ensures Plug(fs, t).Bin? && Plug(fs, t).n == fs[0].n && Plug(fs, t).bal == fs[0].bal
    decreases |fs|
  {
    var k := |fs| - 1;
    if k > 0 {
      PlugTop(fs[..k], Join(fs[k], t));
    }
  }

  // A root that leans to neither side stays the root.
  ghost predicate KeepsRoot<K>(t: Tree<K>, t': Tree<K>) {
    t.Bin? && t.bal == 0 ==> t'.Bin? && t'.n == t.n
  }

  // The part of the insertion after an unsuccessful search.
  method InsertNew<K>(root: Node?<K>, x: Node<K>, w: Walk<K>, path: array<Node?<K>>, stack: array<bool>,
                      ghost m: Mem<K>, ghost t: Tree<K>, ghost fs: seq<Frame<K>>, ghost b: nat)
    returns (root': Node?<K>, ghost m': Mem<K>, ghost t': Tree<K>)
    requires Mirrors(m) && x !in m && Valid(m, root, t) && t == Plug(fs, Nil)
    requires w.len <= path.Length && w.top <= stack.Length && Walked(w, fs, b, path[..w.len], stack[..w.top])
    modifies m.Keys, x
    ensures Mirrors(m') && m'.Keys == m.Keys + {x} && Valid(m', root', t')
    ensures var k := |Before(fs)|; k <= |InOrder(t)| && InOrder(t') == InOrder(t)[..k] + [x] + InOrder(t)[k..]
    ensures KeepsRoot(t, t')
  {
    if fs != [] { PlugTop(fs, Nil); }
    InsertReady(m, root, t, fs, x);
    SidesSplit(t, fs);
    if w.q == null {
      x.balance, x.size, x.left, x.right := 0, 1, null, null;
      root', m', t' := x, m[x := Cell(null, null, 0, 1)], Leaf(x);
    } else {
      root', m', t' := InsertAt(root, x, w, path, stack, m, fs, b);
    }
  }

  // What kavl_insert leaves behind: nothing changes if an element that compares equal
  // is found, otherwise `x` goes into the order at position `cnt`.
  ghost predicate Inserted<K>(m: Mem<K>, t: Tree<K>, x: Node<K>, r: Node<K>, cnt: int, m': Mem<K>, t': Tree<K>) {
    if r != x then m' == m && t' == t else
      && m'.Keys == m.Keys + {x}
      && 0 <= cnt <= |InOrder(t)| && InOrder(t') == InOrder(t)[..cnt] + [x] + InOrder(t)[cnt..]
      && KeepsRoot(t, t')
  }

  method Insert<K>(root: Node?<K>, x: Node<K>, cmp: (K, K) -> int, ghost m: Mem<K>, ghost t: Tree<K>)
    returns (root': Node?<K>, r: Node<K>, cnt: int, ghost m': Mem<K>, ghost t': Tree<K>)
    requires Mirrors(m) && Valid(m, root, t) && x !in m && |InOrder(t)| + 1 < SIZE_LIMIT
    modifies m.Keys, x
    ensures Searched(cmp, x.key, InOrder(t), if r == x then null else r, cnt) && (r != x ==> r in Nodes(t))
    ensures Mirrors(m') && Valid(m', root', t') && Inserted(m, t, x, r, cnt, m', t') && (r != x ==> root' == root)
  {
    var path, stack := new Node?<K>[MAX_DEPTH], new bool[MAX_DEPTH];
    ghost var fs, b, cur;
    var w;
    w, fs, b, cur := Descend(root, m, t, cmp, x.key, path, stack);
    SearchEnds(cmp, x.key, t, fs, cur);
    if w.p != null {
      cnt := CountAt(w.p, w.cnt, m, t, cmp, x.key, fs, cur);
      RepKeys(m, root, t);
      root', r, m', t' := root, w.p, m, t;
    } else {
      r, cnt := x, w.cnt;
      root', m', t' := InsertNew(root, x, w, path, stack, m, t, fs, b);
    }
  }
}
