/**
 The shape theory of the intrusive AVL tree of `kavl.h`.

 A node is a heap object whose two child pointers, balance factor and subtree
 size are rewritten in place.  `Mem` records the fields of a set of nodes at one
 moment and `Mirrors` says that the heap agrees with it.  `Tree` is the value a
 node graph stands for: it names the nodes and repeats their `balance` and
 `size` fields.  A `Frame` is one entry of the `path`/`dir` arrays of the source
 together with the subtree that hangs off the other side of that entry.
 */
module KavlShape {
  import opened Common

  class Node<K> {
    const key: K
    var left: Node?<K>    // p[0]
    var right: Node?<K>   // p[1]
    var balance: int
    var size: int

    constructor (key: K)
      ensures this.key == key
      ensures left == null && right == null
    {
      this.key := key;
      left, right := null, null;
      balance, size := 0, 0;
    }

    // p[dir]
    function Child(dir: bool): Node?<K>
      reads this
    {
      if dir then right else left
    }

    method SetChild(dir: bool, c: Node?<K>)
      modifies this
      ensures Fields() == old(Fields()).Relinked(dir, c)
    {
      if dir {
        right := c;
      } else {
        left := c;
      }
    }

    ghost function Fields(): Cell<K>
      reads this
    {
      Cell(left, right, balance, size)
    }
  }

  // The fields of one node.
  datatype Cell<K> = Cell(left: Node?<K>, right: Node?<K>, balance: int, size: int)
  {
    ghost function Child(dir: bool): Node?<K> {
      if dir then right else left
    }

    ghost function Relinked(dir: bool, c: Node?<K>): Cell<K> {
      if dir then this.(right := c) else this.(left := c)
    }
  }

  type Mem<K> = map<Node<K>, Cell<K>>

  ghost predicate Mirrors<K>(m: Mem<K>)
    reads m.Keys
  {
    forall n :: n in m ==> n.Fields() == m[n]
  }

  datatype Tree<K> = Nil | Bin(l: Tree<K>, n: Node<K>, bal: int, sz: int, r: Tree<K>)

  ghost function Nodes<K>(t: Tree<K>): set<Node<K>> {
    match t
    case Nil => {}
    case Bin(l, n, _, _, r) => Nodes(l) + {n} + Nodes(r)
  }

  ghost function InOrder<K>(t: Tree<K>): seq<Node<K>> {
    match t
    case Nil => []
    case Bin(l, n, _, _, r) => InOrder(l) + [n] + InOrder(r)
  }

  ghost function Height<K>(t: Tree<K>): nat {
    match t
    case Nil => 0
    case Bin(l, _, _, _, r) => 1 + Max(Height(l), Height(r))
  }

  function Max(a: int, b: int): int {
    if a < b then b else a
  }

  // Every balance field is the height difference and lies in -1..1.
  ghost predicate Balanced<K>(t: Tree<K>) {
    match t
    case Nil => true
    case Bin(l, _, b, _, r) =>
      Balanced(l) && Balanced(r) && b == Height(r) - Height(l) && -1 <= b <= 1
  }

  // Every size field is the number of nodes below it.
  ghost predicate Sized<K>(t: Tree<K>) {
    match t
    case Nil => true
    case Bin(l, _, _, s, r) => Sized(l) && Sized(r) && s == |InOrder(t)|
  }

  // No node occurs twice.
  ghost predicate Distinct<K>(t: Tree<K>) {
    match t
    case Nil => true
    case Bin(l, n, _, _, r) =>
      && Distinct(l) && Distinct(r)
      && n !in Nodes(l) && n !in Nodes(r) && Nodes(l) !! Nodes(r)
  }

  // The memory below `p` is exactly `t`.
  ghost predicate Rep<K>(m: Mem<K>, p: Node?<K>, t: Tree<K>) {
    match t
    case Nil => p == null
    case Bin(l, n, b, s, r) =>
      && p == n && n in m && m[n].balance == b && m[n].size == s
      && Rep(m, m[n].left, l) && Rep(m, m[n].right, r)
  }

  // A tree none of whose nodes has changed.
  lemma RepSame<K>(m: Mem<K>, m': Mem<K>, p: Node?<K>, t: Tree<K>)
    requires Rep(m, p, t)
    requires forall n :: n in Nodes(t) && n in m ==> n in m' && m'[n] == m[n]
    ensures Rep(m', p, t)
  {
  }

  // A well-formed tree held at `p`.
  ghost predicate Valid<K>(m: Mem<K>, p: Node?<K>, t: Tree<K>) {
    Rep(m, p, t) && Distinct(t) && Sized(t) && Balanced(t)
  }

  lemma NodesInOrder<K>(t: Tree<K>)
    ensures Nodes(t) == Elems(InOrder(t))
  {
    if t.Bin? {
      assert Elems(InOrder(t)) == Elems(InOrder(t.l)) + {t.n} + Elems(InOrder(t.r));
    }
  }

  // ---- Path frames ----------------------------------------------------------

  datatype Frame<K> = Frame(n: Node<K>, dir: bool, bal: int, sz: int, sib: Tree<K>)

  ghost function Join<K>(f: Frame<K>, t: Tree<K>): Tree<K> {
    if f.dir then Bin(f.sib, f.n, f.bal, f.sz, t) else Bin(t, f.n, f.bal, f.sz, f.sib)
  }

  // The tree obtained by hanging `t` at the end of the path `fs`.
  ghost function Plug<K>(fs: seq<Frame<K>>, t: Tree<K>): Tree<K>
    decreases |fs|
  {
    if fs == [] then t else Plug(fs[..|fs| - 1], Join(fs[|fs| - 1], t))
  }

  ghost function FrameNodes<K>(f: Frame<K>): set<Node<K>> {
    {f.n} + Nodes(f.sib)
  }

  ghost function PathNodes<K>(fs: seq<Frame<K>>): set<Node<K>> {
    set i, m | 0 <= i < |fs| && m in FrameNodes(fs[i]) :: m
  }

  // The nodes to the left (right) of the hole, in order.
  ghost function Before<K>(fs: seq<Frame<K>>): seq<Node<K>> {
    if fs == [] then [] else
      var f := fs[|fs| - 1];
      Before(fs[..|fs| - 1]) + (if f.dir then InOrder(f.sib) + [f.n] else [])
  }

  ghost function After<K>(fs: seq<Frame<K>>): seq<Node<K>> {
    if fs == [] then [] else
      var f := fs[|fs| - 1];
      (if f.dir then [] else [f.n] + InOrder(f.sib)) + After(fs[..|fs| - 1])
  }

  ghost predicate FrameOk<K>(f: Frame<K>) {
    f.n !in Nodes(f.sib) && Distinct(f.sib)
  }

  // The frames share no node with each other or with the tree in the hole.
  ghost predicate Apart<K>(fs: seq<Frame<K>>, s: set<Node<K>>) {
    && (forall i :: 0 <= i < |fs| ==> FrameOk(fs[i]) && FrameNodes(fs[i]) !! s)
    && (forall i, j :: 0 <= i < j < |fs| ==> FrameNodes(fs[i]) !! FrameNodes(fs[j]))
  }

  // The node of frame `i` of a path whose hole holds `q`, or `q` past its end.
  ghost function Next<K>(fs: seq<Frame<K>>, i: int, q: Node?<K>): Node?<K> {
    if 0 <= i < |fs| then fs[i].n else q
  }

  // The memory at one frame above the pointer `q`.
  ghost predicate Linked<K>(m: Mem<K>, f: Frame<K>, q: Node?<K>) {
    && f.n in m && m[f.n].balance == f.bal && m[f.n].size == f.sz
    && m[f.n].Child(f.dir) == q
    && Rep(m, m[f.n].Child(!f.dir), f.sib)
  }

  // The memory along the path, from `root` down to a hole that holds `q`.
  ghost predicate PathRep<K>(m: Mem<K>, root: Node?<K>, fs: seq<Frame<K>>, q: Node?<K>)
    decreases |fs|
  {
    if fs == [] then root == q else
      Linked(m, fs[|fs| - 1], q) && PathRep(m, root, fs[..|fs| - 1], fs[|fs| - 1].n)
  }

  lemma PathRepPush<K>(m: Mem<K>, root: Node?<K>, fs: seq<Frame<K>>, f: Frame<K>, q: Node?<K>)
    requires PathRep(m, root, fs, f.n) && Linked(m, f, q)
    ensures PathRep(m, root, fs + [f], q)
  {
    assert (fs + [f])[..|fs|] == fs;
  }

  lemma {:induction false} PathRepSplit<K>(m: Mem<K>, root: Node?<K>, fs: seq<Frame<K>>, b: nat, q: Node?<K>)
    requires PathRep(m, root, fs, q) && b <= |fs|
    ensures PathRep(m, root, fs[..b], Next(fs, b, q))
    ensures PathRep(m, Next(fs, b, q), fs[b..], q)
    decreases |fs|
  {
    if b == |fs| {
      assert fs[..b] == fs;
    } else {
      var k := |fs| - 1;
      PathRepSplit(m, root, fs[..k], b, fs[k].n);
      assert fs[..k][..b] == fs[..b];
      assert fs[b..] == fs[..k][b..] + [fs[k]];
      PathRepPush(m, Next(fs, b, q), fs[..k][b..], fs[k], q);
    }
  }

  lemma {:induction false} PathRepAt<K>(m: Mem<K>, root: Node?<K>, fs: seq<Frame<K>>, i: nat, q: Node?<K>)
    requires PathRep(m, root, fs, q) && i < |fs|
    ensures Linked(m, fs[i], Next(fs, i + 1, q))
    decreases |fs|
  {
    var k := |fs| - 1;
    if i < k { PathRepAt(m, root, fs[..k], i, fs[k].n); }
  }

  lemma {:induction false} PathRepRoot<K>(m: Mem<K>, root: Node?<K>, fs: seq<Frame<K>>, q: Node?<K>)
    requires PathRep(m, root, fs, q)
    ensures root == Next(fs, 0, q)
    decreases |fs|
  {
    if fs != [] { PathRepRoot(m, root, fs[..|fs| - 1], fs[|fs| - 1].n); }
  }

  lemma {:induction false} RepPlug<K>(m: Mem<K>, root: Node?<K>, fs: seq<Frame<K>>, q: Node?<K>, t: Tree<K>)
    requires PathRep(m, root, fs, q) && Rep(m, q, t)
    ensures Rep(m, root, Plug(fs, t))
    decreases |fs|
  {
    if fs != [] {
      var k := |fs| - 1;
      RepPlug(m, root, fs[..k], fs[k].n, Join(fs[k], t));
    }
  }

  // A path none of whose nodes has changed.
  lemma {:induction false} PathRepSame<K>(m: Mem<K>, m': Mem<K>, root: Node?<K>, fs: seq<Frame<K>>, q: Node?<K>)
    requires PathRep(m, root, fs, q)
    requires forall n :: n in PathNodes(fs) && n in m ==> n in m' && m'[n] == m[n]
    ensures PathRep(m', root, fs, q)
    decreases |fs|
  {
    if fs != [] {
      var k := |fs| - 1;
      PathNodesSplit(fs);
      PathRepSame(m, m', root, fs[..k], fs[k].n);
      RepSame(m, m', m[fs[k].n].Child(!fs[k].dir), fs[k].sib);
    }
  }

  lemma {:induction false} NodesPlug<K>(fs: seq<Frame<K>>, t: Tree<K>)
    ensures Nodes(Plug(fs, t)) == PathNodes(fs) + Nodes(t)
    decreases |fs|
  {
    if fs != [] {
      var k := |fs| - 1;
      NodesPlug(fs[..k], Join(fs[k], t));
      PathNodesSplit(fs);
    }
  }

  lemma PathNodesSplit<K>(fs: seq<Frame<K>>)
    requires fs != []
    ensures PathNodes(fs) == PathNodes(fs[..|fs| - 1]) + FrameNodes(fs[|fs| - 1])
  {
    var k := |fs| - 1;
    forall m | m in PathNodes(fs)
      ensures m in PathNodes(fs[..k]) + FrameNodes(fs[k])
    {
      var i :| 0 <= i < |fs| && m in FrameNodes(fs[i]);
      if i < k { assert fs[..k][i] == fs[i]; }
    }
    forall m | m in PathNodes(fs[..k])
      ensures m in PathNodes(fs)
    {
      var i :| 0 <= i < |fs[..k]| && m in FrameNodes(fs[..k][i]);
      assert fs[i] == fs[..k][i];
    }
  }

  lemma {:induction false} DistinctPlug<K>(fs: seq<Frame<K>>, t: Tree<K>)
    requires Apart(fs, Nodes(t)) && Distinct(t)
    ensures Distinct(Plug(fs, t))
    decreases |fs|
  {
    if fs != [] {
      var k := |fs| - 1;
      assert FrameOk(fs[k]);
      forall i | 0 <= i < k
        ensures FrameOk(fs[..k][i]) && FrameNodes(fs[..k][i]) !! Nodes(Join(fs[k], t))
      {
        assert FrameOk(fs[i]);
        assert FrameNodes(fs[i]) !! FrameNodes(fs[k]);
      }
      DistinctPlug(fs[..k], Join(fs[k], t));
    }
  }

  lemma {:induction false} InOrderPlug<K>(fs: seq<Frame<K>>, t: Tree<K>)
    ensures InOrder(Plug(fs, t)) == Before(fs) + InOrder(t) + After(fs)
    decreases |fs|
  {
    if fs != [] {
      var k := |fs| - 1;
      InOrderPlug(fs[..k], Join(fs[k], t));
    }
  }

  lemma PlugSnoc<K>(fs: seq<Frame<K>>, f: Frame<K>, t: Tree<K>)
    ensures Plug(fs + [f], t) == Plug(fs, Join(f, t))
  {
    assert (fs + [f])[..|fs|] == fs;
  }

  lemma {:induction false} PlugSplit<K>(fs: seq<Frame<K>>, b: nat, t: Tree<K>)
    requires b <= |fs|
    ensures Plug(fs, t) == Plug(fs[..b], Plug(fs[b..], t))
    decreases |fs|
  {
    if b == |fs| {
      assert fs[..b] == fs;
    } else {
      var k := |fs| - 1;
      PlugSplit(fs[..k], b, Join(fs[k], t));
      assert fs[..k][..b] == fs[..b];
      assert fs[..k][b..] == fs[b..][..k - b];
    }
  }

  // ---- From a tree back to a path through it --------------------------------

  ghost function Top<K>(t: Tree<K>): Node?<K> {
    if t.Nil? then null else t.n
  }

  lemma {:induction false} UnplugRep<K>(m: Mem<K>, root: Node?<K>, fs: seq<Frame<K>>, t: Tree<K>)
    requires Rep(m, root, Plug(fs, t))
    ensures PathRep(m, root, fs, Top(t)) && Rep(m, Top(t), t)
    decreases |fs|
  {
    if fs != [] {
      var k := |fs| - 1;
      UnplugRep(m, root, fs[..k], Join(fs[k], t));
      PathRepPush(m, root, fs[..k], fs[k], Top(t));
      assert fs == fs[..k] + [fs[k]];
    }
  }

  lemma {:induction false} UnplugDistinct<K>(fs: seq<Frame<K>>, t: Tree<K>)
    requires Distinct(Plug(fs, t))
    ensures Distinct(t) && Apart(fs, Nodes(t))
    decreases |fs|
  {
    if fs != [] {
      var k := |fs| - 1;
      UnplugDistinct(fs[..k], Join(fs[k], t));
      ApartPush(fs[..k], fs[k], Nodes(Join(fs[k], t)), Nodes(t));
      assert fs == fs[..k] + [fs[k]];
    }
  }

  lemma ApartPush<K>(fs: seq<Frame<K>>, f: Frame<K>, s: set<Node<K>>, s': set<Node<K>>)
    requires Apart(fs, s) && FrameOk(f) && FrameNodes(f) <= s && s' <= s && FrameNodes(f) !! s'
    ensures Apart(fs + [f], s')
  {
    var gs := fs + [f];
    forall i | 0 <= i < |gs|
      ensures FrameOk(gs[i]) && FrameNodes(gs[i]) !! s'
    {
      if i < |fs| { assert FrameOk(fs[i]); }
    }
    forall i, j | 0 <= i < j < |gs|
      ensures FrameNodes(gs[i]) !! FrameNodes(gs[j])
    {
      assert FrameNodes(fs[i]) !! s;
    }
  }

  // ---- Writing along a path -------------------------------------------------

  // The same nodes and the same side trees; only turns, balances and sizes differ.
  ghost predicate Alike<K>(fs: seq<Frame<K>>, gs: seq<Frame<K>>) {
    |fs| == |gs| && forall i :: 0 <= i < |fs| ==> fs[i].n == gs[i].n && fs[i].dir == gs[i].dir && fs[i].sib == gs[i].sib
  }

  lemma ApartAlike<K>(fs: seq<Frame<K>>, gs: seq<Frame<K>>, s: set<Node<K>>)
    requires Apart(fs, s) && Alike(fs, gs)
    ensures Apart(gs, s)
  {
    forall i | 0 <= i < |gs|
      ensures FrameNodes(gs[i]) == FrameNodes(fs[i]) && FrameOk(gs[i]) && FrameNodes(gs[i]) !! s
    {
      assert FrameOk(fs[i]);
    }
  }

  lemma ApartPop<K>(fs: seq<Frame<K>>, s: set<Node<K>>)
    requires Apart(fs, s) && fs != []
    ensures Apart(fs[..|fs| - 1], s + FrameNodes(fs[|fs| - 1]))
    ensures FrameOk(fs[|fs| - 1]) && FrameNodes(fs[|fs| - 1]) !! PathNodes(fs[..|fs| - 1])
  {
    var k := |fs| - 1;
    var up := fs[..k];
    forall i | 0 <= i < |up|
      ensures FrameOk(up[i]) && FrameNodes(up[i]) !! s + FrameNodes(fs[k])
    {
      assert FrameOk(fs[i]) && FrameNodes(fs[i]) !! FrameNodes(fs[k]);
    }
    assert FrameOk(fs[k]);
  }

  // Storing a balance and a size into the node of frame `i`.
  lemma {:induction false} PathRepSet<K>(m: Mem<K>, root: Node?<K>, fs: seq<Frame<K>>, i: nat, bal: int, sz: int,
      q: Node?<K>)
    requires PathRep(m, root, fs, q) && Apart(fs, {}) && i < |fs|
    ensures fs[i].n in m
    ensures PathRep(m[fs[i].n := m[fs[i].n].(balance := bal, size := sz)], root,
                    fs[i := fs[i].(bal := bal, sz := sz)], q)
    decreases |fs|
  {
    PathRepAt(m, root, fs, i, q);
    var m' := m[fs[i].n := m[fs[i].n].(balance := bal, size := sz)];
    var gs := fs[i := fs[i].(bal := bal, sz := sz)];
    var k := |fs| - 1;
    ApartPop(fs, {});
    if i == k {
      RepSame(m, m', m[fs[k].n].Child(!fs[k].dir), fs[k].sib);
      PathRepSame(m, m', root, fs[..k], fs[k].n);
      assert gs[..k] == fs[..k];
    } else {
      assert FrameNodes(fs[i]) !! FrameNodes(fs[k]);
      RepSame(m, m', m[fs[k].n].Child(!fs[k].dir), fs[k].sib);
      assert fs[..k][i] == fs[i];
      assert gs[..k] == fs[..k][i := gs[i]];
      ApartLess(fs[..k], {} + FrameNodes(fs[k]));
      PathRepSet(m, root, fs[..k], i, bal, sz, fs[k].n);
    }
  }

  lemma ApartLess<K>(fs: seq<Frame<K>>, s: set<Node<K>>)
    requires Apart(fs, s)
    ensures Apart(fs, {})
  {
  }

  // Storing a new pointer into the hole.
  lemma PathRepRelink<K>(m: Mem<K>, root: Node?<K>, fs: seq<Frame<K>>, q: Node?<K>, q': Node?<K>)
    requires PathRep(m, root, fs, q) && Apart(fs, {}) && fs != []
    ensures fs[|fs| - 1].n in m
    ensures PathRep(m[fs[|fs| - 1].n := m[fs[|fs| - 1].n].Relinked(fs[|fs| - 1].dir, q')], root, fs, q')
  {
    var k := |fs| - 1;
    var m' := m[fs[k].n := m[fs[k].n].Relinked(fs[k].dir, q')];
    ApartPop(fs, {});
    RepSame(m, m', m[fs[k].n].Child(!fs[k].dir), fs[k].sib);
    PathRepSame(m, m', root, fs[..k], fs[k].n);
  }

  lemma RepKeys<K>(m: Mem<K>, p: Node?<K>, t: Tree<K>)
    requires Rep(m, p, t)
    ensures Nodes(t) <= m.Keys
  {
  }

  lemma ApartMore<K>(fs: seq<Frame<K>>, s: set<Node<K>>, s': set<Node<K>>)
    requires Apart(fs, s) && PathNodes(fs) !! s'
    ensures Apart(fs, s')
  {
    forall i | 0 <= i < |fs|
      ensures FrameOk(fs[i]) && FrameNodes(fs[i]) !! s'
    {
      assert FrameNodes(fs[i]) <= PathNodes(fs);
    }
  }

  lemma ApartPathNodes<K>(fs: seq<Frame<K>>, s: set<Node<K>>)
    requires Apart(fs, s)
    ensures PathNodes(fs) !! s
  {
  }

  lemma ApartSplit<K>(fs: seq<Frame<K>>, b: nat, s: set<Node<K>>)
    requires Apart(fs, s) && b <= |fs|
    ensures Apart(fs[..b], s) && Apart(fs[b..], s) && PathNodes(fs[..b]) !! PathNodes(fs[b..])
  {
    var up, down := fs[..b], fs[b..];
    forall i | 0 <= i < |up|
      ensures FrameOk(up[i]) && FrameNodes(up[i]) !! s
    {
      assert FrameOk(fs[i]);
    }
    forall i | 0 <= i < |down|
      ensures FrameOk(down[i]) && FrameNodes(down[i]) !! s
    {
      assert FrameOk(fs[b + i]);
    }
    forall i, j | 0 <= i < |up| && 0 <= j < |down|
      ensures FrameNodes(up[i]) !! FrameNodes(down[j])
    {
      assert FrameNodes(fs[i]) !! FrameNodes(fs[b + j]);
    }
  }
}
