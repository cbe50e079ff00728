/**
 Height, size and balance facts of the AVL shape: how far a path can reach,
 and what a subtree of unchanged, grown or shrunk height does to the balance
 factors above it.
 */
module KavlBalance {
  import opened KavlShape

  // ---- Depth ----------------------------------------------------------------

  // The fewest nodes a balanced tree of height `h` can have.
  function MinNodes(h: nat): nat {
    if h == 0 then 0 else if h == 1 then 1 else 1 + MinNodes(h - 1) + MinNodes(h - 2)
  }

  lemma {:induction false} MinNodesMonotone(g: nat, h: nat)
    requires g <= h
    ensures MinNodes(g) <= MinNodes(h)
    decreases h
  {
    if g < h { MinNodesMonotone(g, h - 1); }
  }

  lemma {:induction false} MinNodesReached<K>(t: Tree<K>)
    requires Balanced(t)
    ensures MinNodes(Height(t)) <= |InOrder(t)|
  {
    if t.Bin? {
      MinNodesReached(t.l);
      MinNodesReached(t.r);
      if Height(t) >= 2 {
        MinNodesMonotone(Height(t) - 2, Height(t.l));
        MinNodesMonotone(Height(t) - 2, Height(t.r));
      }
    }
  }

  // Ten levels more need 89 times as many nodes.
  lemma MinNodesTenUp(h: nat)
    requires h >= 1
    ensures MinNodes(h + 10) >= 89 * MinNodes(h)
  {
    var b := MinNodes(h);
    assert MinNodes(h + 1) >= b;
    assert MinNodes(h + 2) >= 2 * b;
    assert MinNodes(h + 3) >= 3 * b;
    assert MinNodes(h + 4) >= 5 * b;
    assert MinNodes(h + 5) >= 8 * b;
    assert MinNodes(h + 6) >= 13 * b;
    assert MinNodes(h + 7) >= 21 * b;
    assert MinNodes(h + 8) >= 34 * b;
    assert MinNodes(h + 9) >= 55 * b;
  }

  function Power89(k: nat): nat {
    if k == 0 then 1 else 89 * Power89(k - 1)
  }

  lemma {:induction false} MinNodesTensUp(k: nat)
    ensures MinNodes(10 * k + 1) >= Power89(k)
  {
    if k > 0 {
      MinNodesTensUp(k - 1);
      MinNodesTenUp(10 * (k - 1) + 1);
    }
  }

  const SIZE_LIMIT := 0x1_0000_0000

  lemma MinNodesBeyond50(h: nat)
    requires h >= 51
    ensures MinNodes(h) >= SIZE_LIMIT
  {
    hide MinNodes;
    MinNodesTensUp(5);
    assert Power89(5) == 5584059449;
    MinNodesMonotone(51, h);
  }

  // A tree whose node count fits the 32-bit size field has at most 50 levels.
  lemma HeightBound<K>(t: Tree<K>)
    requires Balanced(t) && |InOrder(t)| < SIZE_LIMIT
    ensures Height(t) <= 50
  {
    MinNodesReached(t);
    if Height(t) >= 51 { MinNodesBeyond50(Height(t)); }
  }

  lemma {:induction false} PathFits<K>(fs: seq<Frame<K>>, t: Tree<K>)
    ensures |fs| + Height(t) <= Height(Plug(fs, t))
    decreases |fs|
  {
    if fs != [] {
      PathFits(fs[..|fs| - 1], Join(fs[|fs| - 1], t));
    }
  }

  // ---- Rotations ------------------------------------------------------------

  // The subtree on side `dir`.
  ghost function Sub<K>(t: Tree<K>, dir: bool): Tree<K>
    requires t.Bin?
  {
    if dir then t.r else t.l
  }

  ghost function Mk<K>(dir: bool, a: Tree<K>, n: Node<K>, bal: int, sz: int, b: Tree<K>): Tree<K> {
    if dir then Bin(b, n, bal, sz, a) else Bin(a, n, bal, sz, b)
  }

  ghost function SizeOf<K>(t: Tree<K>): int {
    if t.Nil? then 0 else t.sz
  }

  // One rotation towards `dir`; the balance fields are carried along untouched.
  ghost function Rotated1<K>(p: Tree<K>, dir: bool): Tree<K>
    requires p.Bin? && Sub(p, !dir).Bin?
  {
    var q := Sub(p, !dir);
    var low := Mk(dir, Sub(p, dir), p.n, p.bal, p.sz - (q.sz - SizeOf(Sub(q, dir))), Sub(q, dir));
    Mk(dir, low, q.n, q.bal, p.sz, Sub(q, !dir))
  }

  // Two consecutive rotations, with the balance fields they leave.
  ghost function Rotated2<K>(p: Tree<K>, dir: bool): Tree<K>
    requires p.Bin? && Sub(p, !dir).Bin? && Sub(Sub(p, !dir), dir).Bin?
  {
    var q := Sub(p, !dir);
    var r := Sub(q, dir);
    var s := SizeOf(Sub(r, dir));
    var b1 := if dir then -1 else 1;
    var pb := if r.bal == b1 then -b1 else 0;
    var qb := if r.bal == b1 || r.bal == 0 then 0 else b1;
    var low := Mk(dir, Sub(p, dir), p.n, pb, p.sz - (q.sz - s), Sub(r, dir));
    var high := Mk(dir, Sub(r, !dir), q.n, qb, q.sz - (s + 1), Sub(q, !dir));
    Mk(dir, low, r.n, 0, p.sz, high)
  }

  lemma MkOrder<K>(dir: bool, a: Tree<K>, n: Node<K>, bal: int, sz: int, b: Tree<K>)
    ensures InOrder(Mk(dir, a, n, bal, sz, b)) ==
      if dir then InOrder(b) + [n] + InOrder(a) else InOrder(a) + [n] + InOrder(b)
  {
  }

  lemma MkDistinct<K>(dir: bool, a: Tree<K>, n: Node<K>, bal: int, sz: int, b: Tree<K>)
    ensures var t := Mk(dir, a, n, bal, sz, b);
      && Nodes(t) == Nodes(a) + {n} + Nodes(b)
      && (Distinct(t) <==> Distinct(a) && Distinct(b) && n !in Nodes(a) && n !in Nodes(b) && Nodes(a) !! Nodes(b))
  {
  }

  lemma MkSized<K>(dir: bool, a: Tree<K>, n: Node<K>, bal: int, sz: int, b: Tree<K>)
    ensures var t := Mk(dir, a, n, bal, sz, b);
      && |InOrder(t)| == |InOrder(a)| + 1 + |InOrder(b)|
      && (Sized(t) <==> Sized(a) && Sized(b) && sz == |InOrder(a)| + 1 + |InOrder(b)|)
  {
  }

  // The balance factor of a node with heights `a` on side `dir` and `b` on the other.
  ghost function Lean(dir: bool, a: int, b: int): int {
    if dir then a - b else b - a
  }

  lemma MkBalanced<K>(dir: bool, a: Tree<K>, n: Node<K>, bal: int, sz: int, b: Tree<K>)
    ensures var t := Mk(dir, a, n, bal, sz, b);
      && Height(t) == 1 + Max(Height(a), Height(b))
      && (Balanced(t) <==>
            && Balanced(a) && Balanced(b)
            && bal == Lean(dir, Height(a), Height(b)) && -1 <= bal <= 1)
  {
  }

  lemma SizeOfSized<K>(t: Tree<K>)
    requires Sized(t)
    ensures SizeOf(t) == |InOrder(t)|
  {
  }

  lemma Regroup<T>(a: seq<T>, x: T, b: seq<T>, y: T, c: seq<T>)
    ensures a + [x] + (b + [y] + c) == (a + [x] + b) + [y] + c
  {
  }

  lemma Rotate1Order<K>(p: Tree<K>, dir: bool)
    requires p.Bin? && Sub(p, !dir).Bin?
    ensures InOrder(Rotated1(p, dir)) == InOrder(p)
  {
    var q := Sub(p, !dir);
    if dir {
      Regroup(InOrder(q.l), q.n, InOrder(q.r), p.n, InOrder(p.r));
    } else {
      Regroup(InOrder(p.l), p.n, InOrder(q.l), q.n, InOrder(q.r));
    }
  }

  lemma Rotate1Distinct<K>(p: Tree<K>, dir: bool)
    requires p.Bin? && Sub(p, !dir).Bin?
    ensures Nodes(Rotated1(p, dir)) == Nodes(p)
    ensures Distinct(p) ==> Distinct(Rotated1(p, dir))
  {
    var q := Sub(p, !dir);
    var t := Rotated1(p, dir);
    var low := Sub(t, dir);
    MkDistinct(dir, Sub(p, dir), p.n, p.bal, p.sz, q);
    MkDistinct(dir, Sub(q, dir), q.n, q.bal, q.sz, Sub(q, !dir));
    MkDistinct(dir, low, t.n, t.bal, t.sz, Sub(q, !dir));
    MkDistinct(dir, Sub(p, dir), low.n, low.bal, low.sz, Sub(q, dir));
  }

  lemma Rotate1Sized<K>(p: Tree<K>, dir: bool)
    requires p.Bin? && Sub(p, !dir).Bin?
    ensures Sized(p) ==> Sized(Rotated1(p, dir))
  {
    var q := Sub(p, !dir);
    var t := Rotated1(p, dir);
    var low := Sub(t, dir);
    MkSized(dir, Sub(p, dir), p.n, p.bal, p.sz, q);
    MkSized(dir, Sub(q, dir), q.n, q.bal, q.sz, Sub(q, !dir));
    MkSized(dir, low, t.n, t.bal, t.sz, Sub(q, !dir));
    MkSized(dir, Sub(p, dir), low.n, low.bal, low.sz, Sub(q, dir));
  }

  // Two rotations are one rotation below and one above, up to balance fields.
  lemma Rotate2Order<K>(p: Tree<K>, dir: bool)
    requires p.Bin? && Sub(p, !dir).Bin? && Sub(Sub(p, !dir), dir).Bin?
    ensures InOrder(Rotated2(p, dir)) == InOrder(p)
  {
    var q := Sub(p, !dir);
    var p' := Mk(dir, Sub(p, dir), p.n, p.bal, p.sz, Rotated1(q, !dir));
    Rotate1Order(q, !dir);
    Rotate1Order(p', dir);
    MkOrder(dir, Sub(p, dir), p.n, p.bal, p.sz, q);
    var t, u := Rotated2(p, dir), Rotated1(p', dir);
    assert InOrder(Sub(t, dir)) == InOrder(Sub(u, dir));
    assert InOrder(Sub(t, !dir)) == InOrder(Sub(u, !dir));
  }

  lemma Rotate2Distinct<K>(p: Tree<K>, dir: bool)
    requires p.Bin? && Sub(p, !dir).Bin? && Sub(Sub(p, !dir), dir).Bin?
    ensures Nodes(Rotated2(p, dir)) == Nodes(p)
    ensures Distinct(p) ==> Distinct(Rotated2(p, dir))
  {
    var q := Sub(p, !dir);
    var p' := Mk(dir, Sub(p, dir), p.n, p.bal, p.sz, Rotated1(q, !dir));
    Rotate1Distinct(q, !dir);
    Rotate1Distinct(p', dir);
    MkDistinct(dir, Sub(p, dir), p.n, p.bal, p.sz, q);
    MkDistinct(dir, Sub(p, dir), p.n, p.bal, p.sz, Rotated1(q, !dir));
    var t, u := Rotated2(p, dir), Rotated1(p', dir);
    assert Nodes(Sub(t, dir)) == Nodes(Sub(u, dir)) && Distinct(Sub(t, dir)) == Distinct(Sub(u, dir));
    assert Nodes(Sub(t, !dir)) == Nodes(Sub(u, !dir)) && Distinct(Sub(t, !dir)) == Distinct(Sub(u, !dir));
  }

  lemma Rotate2Sized<K>(p: Tree<K>, dir: bool)
    requires p.Bin? && Sub(p, !dir).Bin? && Sub(Sub(p, !dir), dir).Bin?
    ensures Sized(p) ==> Sized(Rotated2(p, dir))
  {
    var q := Sub(p, !dir);
    var r := Sub(q, dir);
    var t := Rotated2(p, dir);
    var low, high := Sub(t, dir), Sub(t, !dir);
    MkSized(dir, Sub(p, dir), p.n, p.bal, p.sz, q);
    MkSized(dir, r, q.n, q.bal, q.sz, Sub(q, !dir));
    MkSized(dir, Sub(r, dir), r.n, r.bal, r.sz, Sub(r, !dir));
    MkSized(dir, low, t.n, t.bal, t.sz, high);
    MkSized(dir, Sub(p, dir), low.n, low.bal, low.sz, Sub(r, dir));
    MkSized(dir, Sub(r, !dir), high.n, high.bal, high.sz, Sub(q, !dir));
  }

  ghost function Tilt(dir: bool): int {
    if dir then 1 else -1
  }

  // A node that leans two levels to the side `!dir`, over balanced subtrees.
  ghost predicate Leaning<K>(p: Tree<K>, dir: bool) {
    && p.Bin? && Balanced(p.l) && Balanced(p.r)
    && p.bal == -2 * Tilt(dir)
    && p.bal == Height(p.r) - Height(p.l)
  }

  ghost function WithBalance<K>(t: Tree<K>, b: int): Tree<K>
    requires t.Bin?
  {
    t.(bal := b)
  }

  // A single rotation, followed by the two balance fields the source stores:
  // `low` on the node that went down, `top` on the node that came up.
  ghost function Single<K>(p: Tree<K>, dir: bool, low: int, top: int): Tree<K>
    requires p.Bin? && Sub(p, !dir).Bin?
  {
    var t := Rotated1(p, dir);
    Mk(dir, WithBalance(Sub(t, dir), low), t.n, top, t.sz, Sub(t, !dir))
  }

  lemma SingleBalances<K>(p: Tree<K>, dir: bool)
    requires Leaning(p, dir)
    ensures Sub(p, !dir).Bin?
    ensures Sub(p, !dir).bal == -Tilt(dir) ==>
      Balanced(Single(p, dir, 0, 0)) && Height(Single(p, dir, 0, 0)) == Height(p) - 1
    ensures Sub(p, !dir).bal == 0 ==>
      && Balanced(Single(p, dir, -Tilt(dir), Tilt(dir)))
      && Height(Single(p, dir, -Tilt(dir), Tilt(dir))) == Height(p)
  {
  }

  lemma DoubleBalances<K>(p: Tree<K>, dir: bool)
    requires Leaning(p, dir)
    ensures Sub(p, !dir).Bin?
    ensures Sub(p, !dir).bal == Tilt(dir) ==>
      && Sub(Sub(p, !dir), dir).Bin?
      && Balanced(Rotated2(p, dir)) && Height(Rotated2(p, dir)) == Height(p) - 1
  {
    hide SizeOf;
    var q := Sub(p, !dir);
    if q.bal == Tilt(dir) {
      var r := Sub(q, dir);
      var t := Rotated2(p, dir);
      var low, high := Sub(t, dir), Sub(t, !dir);
      MkBalanced(dir, r, q.n, q.bal, q.sz, Sub(q, !dir));
      MkBalanced(dir, Sub(r, dir), r.n, r.bal, r.sz, Sub(r, !dir));
      MkBalanced(dir, low, t.n, t.bal, t.sz, high);
      MkBalanced(dir, Sub(p, dir), low.n, low.bal, low.sz, Sub(r, dir));
      MkBalanced(dir, Sub(r, !dir), high.n, high.bal, high.sz, Sub(q, !dir));
    }
  }

  lemma SingleKeeps<K>(p: Tree<K>, dir: bool, low: int, top: int)
    requires p.Bin? && Sub(p, !dir).Bin?
    ensures InOrder(Single(p, dir, low, top)) == InOrder(p)
    ensures Nodes(Single(p, dir, low, top)) == Nodes(p)
    ensures Distinct(p) ==> Distinct(Single(p, dir, low, top))
    ensures Sized(p) ==> Sized(Single(p, dir, low, top))
  {
    Rotate1Order(p, dir);
    Rotate1Distinct(p, dir);
    Rotate1Sized(p, dir);
  }

  // ---- Paths ----------------------------------------------------------------

  // The balance factors on the path agree with a hole of height `h`.
  ghost predicate PathBalanced<K>(fs: seq<Frame<K>>, h: int)
    decreases |fs|
  {
    fs == [] ||
    var f := fs[|fs| - 1];
    && Balanced(f.sib)
    && f.bal == Lean(f.dir, h, Height(f.sib)) && -1 <= f.bal <= 1
    && PathBalanced(fs[..|fs| - 1], 1 + Max(h, Height(f.sib)))
  }

  // The sizes on the path agree with a hole of `m` nodes.
  ghost predicate PathSized<K>(fs: seq<Frame<K>>, m: int)
    decreases |fs|
  {
    fs == [] ||
    var f := fs[|fs| - 1];
    && Sized(f.sib)
    && f.sz == m + 1 + |InOrder(f.sib)|
    && PathSized(fs[..|fs| - 1], f.sz)
  }

  lemma {:induction false} BalancedPlug<K>(fs: seq<Frame<K>>, t: Tree<K>)
    ensures Balanced(Plug(fs, t)) <==> Balanced(t) && PathBalanced(fs, Height(t))
    decreases |fs|
  {
    if fs != [] {
      var f := fs[|fs| - 1];
      MkBalanced(f.dir, t, f.n, f.bal, f.sz, f.sib);
      BalancedPlug(fs[..|fs| - 1], Join(f, t));
    }
  }

  lemma {:induction false} SizedPlug<K>(fs: seq<Frame<K>>, t: Tree<K>)
    ensures Sized(Plug(fs, t)) <==> Sized(t) && PathSized(fs, |InOrder(t)|)
    decreases |fs|
  {
    if fs != [] {
      var f := fs[|fs| - 1];
      MkSized(f.dir, t, f.n, f.bal, f.sz, f.sib);
      SizedPlug(fs[..|fs| - 1], Join(f, t));
    }
  }

  // The same path with `d` added to every size field; balances may differ.
  ghost predicate SizedBy<K>(fs: seq<Frame<K>>, gs: seq<Frame<K>>, d: int) {
    Alike(fs, gs) && forall i :: 0 <= i < |fs| ==> gs[i].sz == fs[i].sz + d
  }

  lemma {:induction false} PathSizedBy<K>(fs: seq<Frame<K>>, gs: seq<Frame<K>>, m: int, d: int)
    requires PathSized(fs, m) && SizedBy(fs, gs, d)
    ensures PathSized(gs, m + d)
    decreases |fs|
  {
    if fs != [] {
      var k := |fs| - 1;
      PathSizedBy(fs[..k], gs[..k], fs[k].sz, d);
    }
  }

  // The same path with the same balance fields; sizes may differ.
  ghost predicate SameBalance<K>(fs: seq<Frame<K>>, gs: seq<Frame<K>>) {
    Alike(fs, gs) && forall i :: 0 <= i < |fs| ==> gs[i].bal == fs[i].bal
  }

  lemma {:induction false} PathBalancedSame<K>(fs: seq<Frame<K>>, gs: seq<Frame<K>>, h: int)
    requires PathBalanced(fs, h) && SameBalance(fs, gs)
    ensures PathBalanced(gs, h)
    decreases |fs|
  {
    if fs != [] {
      var k := |fs| - 1;
      PathBalancedSame(fs[..k], gs[..k], 1 + Max(h, Height(fs[k].sib)));
    }
  }

  // An even path, and the same path with every balance tilted towards the hole.
  ghost predicate Tilts<K>(fs: seq<Frame<K>>, gs: seq<Frame<K>>) {
    Alike(fs, gs) && forall i :: 0 <= i < |fs| ==> fs[i].bal == 0 && gs[i].bal == Tilt(fs[i].dir)
  }

  // Over a hole that grows by one level, an even path grows by one level.
  lemma {:induction false} TiltedGrows<K>(fs: seq<Frame<K>>, gs: seq<Frame<K>>, t: Tree<K>, t': Tree<K>)
    requires Tilts(fs, gs) && PathBalanced(fs, Height(t))
    requires Balanced(t') && Height(t') == Height(t) + 1
    ensures Balanced(Plug(gs, t')) && Height(Plug(gs, t')) == Height(Plug(fs, t)) + 1
    ensures fs != [] ==> Plug(gs, t').Bin? && Plug(gs, t').bal == Tilt(fs[0].dir)
    decreases |fs|
  {
    hide Balanced;
    if fs != [] {
      var k := |fs| - 1;
      var f, g := fs[k], gs[k];
      MkBalanced(f.dir, t, f.n, f.bal, f.sz, f.sib);
      MkBalanced(g.dir, t', g.n, g.bal, g.sz, g.sib);
      TiltedGrows(fs[..k], gs[..k], Join(f, t), Join(g, t'));
    }
  }
}
