/**
 Searching the AVL tree of `kavl.h`.

 The comparator need not be a total order.  A search ends at an element that
 compares equal or in a gap between two neighbours that it was compared with; it
 misses nothing when the sign of the comparison does not increase along the order.
 */
module KavlSearch {
  import opened KavlShape
  import opened KavlBalance
  import opened KavlRotate

  // The sign of comparing `x` with the stored elements does not increase.
  ghost predicate Monotone<K>(cmp: (K, K) -> int, x: K, s: seq<Node<K>>) {
    forall i, j :: 0 <= i < j < |s| ==>
      && (cmp(x, s[j].key) > 0 ==> cmp(x, s[i].key) > 0)
      && (cmp(x, s[i].key) < 0 ==> cmp(x, s[j].key) < 0)
  }

  ghost predicate AllGreater<K>(cmp: (K, K) -> int, x: K, s: seq<Node<K>>) {
    forall i :: 0 <= i < |s| ==> cmp(x, s[i].key) > 0
  }

  ghost predicate AllLess<K>(cmp: (K, K) -> int, x: K, s: seq<Node<K>>) {
    forall i :: 0 <= i < |s| ==> cmp(x, s[i].key) < 0
  }

  // What a search for `x` in the in-order sequence `all` reports: an element that
  // compares equal, or a gap whose two neighbours compare on either side of `x`.
  ghost predicate Searched<K>(cmp: (K, K) -> int, x: K, all: seq<Node<K>>, p: Node?<K>, cnt: int) {
    if p != null then 0 < cnt <= |all| && all[cnt - 1] == p && cmp(x, p.key) == 0 else
      && 0 <= cnt <= |all|
      && (cnt > 0 ==> cmp(x, all[cnt - 1].key) > 0)
      && (cnt < |all| ==> cmp(x, all[cnt].key) < 0)
  }

  // Where the comparison is monotone, the gap separates all the elements, so nothing was missed.
  lemma SearchedAll<K>(cmp: (K, K) -> int, x: K, all: seq<Node<K>>, cnt: int)
    requires Searched(cmp, x, all, null, cnt) && Monotone(cmp, x, all)
    ensures AllGreater(cmp, x, all[..cnt]) && AllLess(cmp, x, all[cnt..])
  {
  }

  // What the fields of a visited node say.
  lemma Visit<K>(m: Mem<K>, p: Node<K>, cur: Tree<K>)
    requires Mirrors(m) && Rep(m, p, cur) && Sized(cur)
    ensures cur.Bin? && p == cur.n && p in m && p.balance == cur.bal && p.size == cur.sz
    ensures Rep(m, p.left, cur.l) && Rep(m, p.right, cur.r) && Sized(cur.l) && Sized(cur.r)
    ensures SizeChild(p, false) == |InOrder(cur.l)|
  {
  }

  // ---- The path of a search --------------------------------------------------

  ghost function FrameOf<K>(cur: Tree<K>, dir: bool): Frame<K>
    requires cur.Bin?
  {
    Frame(cur.n, dir, cur.bal, cur.sz, Sub(cur, !dir))
  }

  lemma SnocSides<K>(fs: seq<Frame<K>>, f: Frame<K>)
    ensures Before(fs + [f]) == Before(fs) + (if f.dir then InOrder(f.sib) + [f.n] else [])
    ensures After(fs + [f]) == (if f.dir then [] else [f.n] + InOrder(f.sib)) + After(fs)
  {
    assert (fs + [f])[..|fs|] == fs;
  }

  // Every turn of the path is the one the comparison asks for.
  ghost predicate Turns<K>(cmp: (K, K) -> int, x: K, fs: seq<Frame<K>>) {
    forall i :: 0 <= i < |fs| ==> if fs[i].dir then cmp(x, fs[i].n.key) > 0 else cmp(x, fs[i].n.key) < 0
  }

  // The elements on both sides of the hole lie on the path, so `x` was compared with them.
  lemma {:induction false} TurnsNeighbours<K>(cmp: (K, K) -> int, x: K, fs: seq<Frame<K>>)
    requires Turns(cmp, x, fs)
    ensures Before(fs) != [] ==> cmp(x, Before(fs)[|Before(fs)| - 1].key) > 0
    ensures After(fs) != [] ==> cmp(x, After(fs)[0].key) < 0
    decreases |fs|
  {
    if fs != [] { TurnsNeighbours(cmp, x, fs[..|fs| - 1]); }
  }

  // The search stops at `p`, the top of `cur`.
  lemma SearchEnds<K>(cmp: (K, K) -> int, x: K, t: Tree<K>, fs: seq<Frame<K>>, cur: Tree<K>)
    requires Turns(cmp, x, fs) && t == Plug(fs, cur)
    requires cur.Bin? ==> cmp(x, cur.n.key) == 0
    ensures cur.Bin? ==> Searched(cmp, x, InOrder(t), cur.n, |Before(fs)| + |InOrder(cur.l)| + 1)
    ensures cur.Bin? ==> cur.n in Nodes(t)
    ensures cur.Nil? ==> Searched(cmp, x, InOrder(t), null, |Before(fs)|)
  {
    InOrderPlug(fs, cur);
    NodesPlug(fs, cur);
    TurnsNeighbours(cmp, x, fs);
  }

  lemma DownStep<K>(cmp: (K, K) -> int, x: K, t: Tree<K>, fs: seq<Frame<K>>, cur: Tree<K>, dir: bool)
    requires Turns(cmp, x, fs) && t == Plug(fs, cur) && cur.Bin?
    requires if dir then cmp(x, cur.n.key) > 0 else cmp(x, cur.n.key) < 0
    ensures var fs' := fs + [FrameOf(cur, dir)];
      && Turns(cmp, x, fs') && t == Plug(fs', Sub(cur, dir))
      && |Before(fs')| == |Before(fs)| + if dir then |InOrder(cur.l)| + 1 else 0
  {
    SnocSides(fs, FrameOf(cur, dir));
    PlugSnoc(fs, FrameOf(cur, dir), Sub(cur, dir));
  }

  // Where the search stands: at the top of `cur`, below the path `fs`.
  ghost predicate Standing<K>(m: Mem<K>, t: Tree<K>, cmp: (K, K) -> int, x: K, p: Node?<K>, cnt: int,
                                    fs: seq<Frame<K>>, cur: Tree<K>) {
    && Rep(m, p, cur) && Sized(cur) && t == Plug(fs, cur)
    && Turns(cmp, x, fs) && cnt == |Before(fs)|
  }

  lemma StandingStep<K>(m: Mem<K>, t: Tree<K>, cmp: (K, K) -> int, x: K, p: Node?<K>, cnt: int,
                              fs: seq<Frame<K>>, cur: Tree<K>, dir: bool)
    requires Standing(m, t, cmp, x, p, cnt, fs, cur) && cur.Bin?
    requires if dir then cmp(x, cur.n.key) > 0 else cmp(x, cur.n.key) < 0
    ensures Standing(m, t, cmp, x, Top(Sub(cur, dir)), if dir then cnt + SizeOf(cur.l) + 1 else cnt,
                     fs + [FrameOf(cur, dir)], Sub(cur, dir))
  {
    OpenRep(m, p, dir, cur);
    RepTop(m, m[p].Child(dir), Sub(cur, dir));
    SizeOfSized(cur.l);
    DownStep(cmp, x, t, fs, cur, dir);
  }

  // What the fields of the node under the search say.
  lemma Look<K>(m: Mem<K>, t: Tree<K>, cmp: (K, K) -> int, x: K, p: Node<K>, cnt: int,
                      fs: seq<Frame<K>>, cur: Tree<K>)
    requires Mirrors(m) && Standing(m, t, cmp, x, p, cnt, fs, cur)
    ensures cur.Bin? && p == cur.n && p.balance == cur.bal
    ensures p.left == Top(cur.l) && p.right == Top(cur.r)
    ensures SizeChild(p, false) == SizeOf(cur.l) == |InOrder(cur.l)|
  {
    Visit(m, p, cur);
  }

  // The element a search comes to.
  ghost function Lookup<K>(t: Tree<K>, cmp: (K, K) -> int, x: K): Node?<K> {
    match t
    case Nil => null
    case Bin(l, n, _, _, r) =>
      if cmp(x, n.key) == 0 then n else if cmp(x, n.key) < 0 then Lookup(l, cmp, x) else Lookup(r, cmp, x)
  }

  lemma {:induction false} TurnsLookup<K>(cmp: (K, K) -> int, x: K, fs: seq<Frame<K>>, cur: Tree<K>)
    requires Turns(cmp, x, fs)
    ensures Lookup(Plug(fs, cur), cmp, x) == Lookup(cur, cmp, x)
    decreases |fs|
  {
    if fs != [] { TurnsLookup(cmp, x, fs[..|fs| - 1], Join(fs[|fs| - 1], cur)); }
  }

  // The count of elements up to `p`, which compares equal.
  method CountAt<K>(p: Node<K>, cnt: int, ghost m: Mem<K>, ghost t: Tree<K>, cmp: (K, K) -> int, x: K,
                    ghost fs: seq<Frame<K>>, ghost cur: Tree<K>)
    returns (cnt': int)
    requires Mirrors(m) && Standing(m, t, cmp, x, p, cnt, fs, cur) && cmp(x, p.key) == 0
    ensures Searched(cmp, x, InOrder(t), p, cnt') && p in Nodes(t) && p == Lookup(t, cmp, x)
  {
    TurnsLookup(cmp, x, fs, cur);
    Look(m, t, cmp, x, p, cnt, fs, cur);
    SearchEnds(cmp, x, t, fs, cur);
    cnt' := cnt + SizeChild(p, false) + 1;
  }

  method Find<K>(root: Node?<K>, ghost m: Mem<K>, ghost t: Tree<K>, cmp: (K, K) -> int, x: K)
    returns (p: Node?<K>, cnt: int)
    requires Mirrors(m) && Rep(m, root, t) && Sized(t)
    ensures Searched(cmp, x, InOrder(t), p, cnt) && (p != null ==> p in Nodes(t)) && p == Lookup(t, cmp, x)
  {
    p, cnt := root, 0;
    ghost var fs: seq<Frame<K>>, cur := [], t;
    while p != null
      invariant Standing(m, t, cmp, x, p, cnt, fs, cur)
      decreases cur
    {
      var c := cmp(x, p.key);
      if c == 0 {
        cnt := CountAt(p, cnt, m, t, cmp, x, fs, cur);
        return;
      }
      Look(m, t, cmp, x, p, cnt, fs, cur);
      StandingStep(m, t, cmp, x, p, cnt, fs, cur, c > 0);
      fs, cur := fs + [FrameOf(cur, c > 0)], Sub(cur, c > 0);
      if c > 0 {
        cnt := cnt + SizeChild(p, false) + 1;
      }
      p := if c < 0 then p.left else p.right;
    }
    SearchEnds(cmp, x, t, fs, cur);
    TurnsLookup(cmp, x, fs, cur);
  }
}
