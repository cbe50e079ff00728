/**
 The strategy groups of ByeDPI: `struct desync_params` as a member of the doubly linked list that
 starts at `params.dp`, and `swop_groups` of `extend.c`.

 A mask of group bits is the set of the numbers of the groups whose bits it has.
 */
module Groups {
  import opened Common

  // The flags of auto_level.
  datatype AutoLevel = AutoLevel(sort: bool, noReconn: bool, onReconn: bool)

  datatype Level = Level(detect: set<nat>, auto: AutoLevel)

  class Group {
    const id: nat
    var detect: set<nat>
    var auto: AutoLevel
    var pri: int
    var failCount: int
    var next: Group?
    var prev: Group?

    constructor (id: nat)
      ensures this.id == id && next == null
    {
      this.id := id;
      this.detect, this.auto := {}, AutoLevel(false, false, false);
      this.pri, this.failCount := 0, 0;
      this.next, this.prev := null, null;
    }
  }

  // The group at position `k`, or null past either end.
  ghost function At(order: seq<Group>, k: int): Group? {
    if 0 <= k < |order| then order[k] else null
  }

  ghost function Ids(order: seq<Group>): set<nat> {
    set g | g in order :: g.id
  }

  // No number, and so no group, twice.
  ghost predicate Distinct(order: seq<Group>) {
    forall j, k {:trigger Differ(order, j, k)} :: Differ(order, j, k)
  }

  ghost predicate Differ(order: seq<Group>, j: int, k: int) {
    0 <= j < k < |order| ==> order[j].id != order[k].id
  }

  lemma Apart(order: seq<Group>, j: int, k: int)
    requires Distinct(order) && 0 <= j < |order| && 0 <= k < |order|
    ensures order[j] == order[k] <==> j == k
    ensures order[j].id == order[k].id <==> j == k
  {
    assert Differ(order, j, k) && Differ(order, k, j);
  }

  // The pointers of the groups, as values.
  type Links = map<Group, Group?>

  ghost predicate Linked(order: seq<Group>, next: Links, prev: Links, k: int)
    requires next.Keys == prev.Keys == Elems(order)
  {
    0 <= k < |order| ==> order[k] in next && next[order[k]] == At(order, k + 1) && prev[order[k]] == At(order, k - 1)
  }

  // The groups are linked in this order, both ways.
  ghost predicate Listed(order: seq<Group>, next: Links, prev: Links) {
    && Distinct(order) && next.Keys == prev.Keys == Elems(order)
    && forall k {:trigger Linked(order, next, prev, k)} :: Linked(order, next, prev, k)
  }

  // Position `k` after positions `i` and `j` have been exchanged.
  function Exchange(i: int, j: int, k: int): int {
    if k == i then j else if k == j then i else k
  }

  ghost function Exchanged(order: seq<Group>, i: int, j: int): (r: seq<Group>)
    requires 0 <= i < |order| && 0 <= j < |order|
    ensures |r| == |order|
  {
    order[i := order[j]][j := order[i]]
  }

  lemma ExchangedElems(order: seq<Group>, i: int, j: int)
    requires 0 <= i < |order| && 0 <= j < |order| && Distinct(order)
    ensures Elems(Exchanged(order, i, j)) == Elems(order) && Ids(Exchanged(order, i, j)) == Ids(order)
    ensures Distinct(Exchanged(order, i, j))
  {
    var r := Exchanged(order, i, j);
    forall g | g in order
      ensures g in r
    {
      var k :| 0 <= k < |order| && order[k] == g;
      assert r[Exchange(i, j, k)] == g;
    }
    assert forall g :: g in r <==> g in order;
    forall j', k'
      ensures Differ(r, j', k')
    {
      if 0 <= j' < k' < |r| { Apart(order, Exchange(i, j, j'), Exchange(i, j, k')); }
    }
  }

  // The pointers after swop_groups has exchanged `c` and `n`, from the neighbours each had.
  ghost function SwopNext(next: Links, c: Group, n: Group, cp: Group?, cn: Group?, np: Group?, nn: Group?): Links {
    var a := next[c := nn][n := cn];
    var b := if cp != null then a[cp := n] else a;
    if cn == n then b[n := c] else if np != null then b[np := c] else b
  }

  ghost function SwopPrev(prev: Links, c: Group, n: Group, cp: Group?, cn: Group?, np: Group?, nn: Group?): Links {
    var a := prev[c := np][n := cp];
    var b := if nn != null then a[nn := c] else a;
    if cn == n then b[c := n] else if cn != null then b[cn := n] else b
  }

  lemma SwopStepNext(order: seq<Group>, next: Links, i: int, j: int, k: int)
    requires Distinct(order) && 0 <= i < j < |order| && 0 <= k < |order|
    requires var x := order[Exchange(i, j, k)]; x in next && next[x] == At(order, Exchange(i, j, k) + 1)
    ensures var q := Exchanged(order, i, j);
      var nx := SwopNext(next, order[i], order[j], At(order, i - 1), At(order, i + 1), At(order, j - 1),
                         At(order, j + 1));
      q[k] in nx && nx[q[k]] == At(q, k + 1)
  {
    var q, x := Exchanged(order, i, j), Exchange(i, j, k);
    Apart(order, x, i);
    Apart(order, x, j);
    Apart(order, i + 1, j);
    if i > 0 { Apart(order, x, i - 1); }
    Apart(order, x, j - 1);
    assert k + 1 < |q| ==> q[k + 1] == order[Exchange(i, j, k + 1)];
  }

  lemma SwopStepPrev(order: seq<Group>, prev: Links, i: int, j: int, k: int)
    requires Distinct(order) && 0 <= i < j < |order| && 0 <= k < |order|
    requires var x := order[Exchange(i, j, k)]; x in prev && prev[x] == At(order, Exchange(i, j, k) - 1)
    ensures var q := Exchanged(order, i, j);
      var pv := SwopPrev(prev, order[i], order[j], At(order, i - 1), At(order, i + 1), At(order, j - 1),
                         At(order, j + 1));
      q[k] in pv && pv[q[k]] == At(q, k - 1)
  {
    var q, x := Exchanged(order, i, j), Exchange(i, j, k);
    Apart(order, x, i);
    Apart(order, x, j);
    Apart(order, i + 1, j);
    Apart(order, x, i + 1);
    if j + 1 < |order| { Apart(order, x, j + 1); }
    assert k > 0 ==> q[k - 1] == order[Exchange(i, j, k - 1)];
  }

  lemma SwopKeys(order: seq<Group>, next: Links, prev: Links, i: int, j: int)
    requires 0 <= i < j < |order| && next.Keys == prev.Keys == Elems(order)
    ensures var c, n, cp, cn, np, nn := order[i], order[j], At(order, i - 1), At(order, i + 1), At(order, j - 1),
                At(order, j + 1);
      SwopNext(next, c, n, cp, cn, np, nn).Keys == SwopPrev(prev, c, n, cp, cn, np, nn).Keys == Elems(order)
  {
    var c, n, cp, cn, np, nn := order[i], order[j], At(order, i - 1), At(order, i + 1), At(order, j - 1), At(order,
        j + 1);
    assert SwopNext(next, c, n, cp, cn, np, nn).Keys == Elems(order);
    assert SwopPrev(prev, c, n, cp, cn, np, nn).Keys == Elems(order);
  }

  lemma SwopListed(order: seq<Group>, next: Links, prev: Links, i: int, j: int)
    requires Listed(order, next, prev) && 0 <= i < j < |order|
    ensures var c, n, cp, cn, np, nn := order[i], order[j], At(order, i - 1), At(order, i + 1), At(order, j - 1),
                At(order, j + 1);
      Listed(Exchanged(order, i, j), SwopNext(next, c, n, cp, cn, np, nn), SwopPrev(prev, c, n, cp, cn, np, nn))
  {
    var c, n, cp, cn, np, nn := order[i], order[j], At(order, i - 1), At(order, i + 1), At(order, j - 1), At(order,
        j + 1);
    var q, nx, pv := Exchanged(order, i, j), SwopNext(next, c, n, cp, cn, np, nn), SwopPrev(prev, c, n, cp, cn, np, nn);
    ExchangedElems(order, i, j);
    SwopKeys(order, next, prev, i, j);
    forall k
      ensures Linked(q, nx, pv, k)
    {
      if 0 <= k < |q| {
        assert Linked(order, next, prev, Exchange(i, j, k));
        SwopStepNext(order, next, i, j, k);
        SwopStepPrev(order, prev, i, j, k);
      }
    }
  }

  // ---- A group at the end -------------------------------------------------------

  ghost predicate Numbered(order: seq<Group>, n: nat) {
    forall k {:trigger order[k]} :: 0 <= k < |order| ==> order[k].id < n
  }

  ghost function LinkNext(next: Links, last: Group?, g: Group): Links {
    if last == null then next[g := null] else next[g := null][last := g]
  }

  lemma AppendElems(order: seq<Group>, g: Group)
    ensures Elems(order + [g]) == Elems(order) + {g} && Ids(order + [g]) == Ids(order) + {g.id}
  {
    assert Elems(order + [g]) == Elems(order) + {g};
  }

  lemma AppendApart(order: seq<Group>, g: Group)
    requires Distinct(order) && Numbered(order, g.id)
    ensures Distinct(order + [g]) && Numbered(order + [g], g.id + 1)
  {
    forall j, k
      ensures Differ(order + [g], j, k)
    {
      assert Differ(order, j, k);
    }
  }

  lemma AppendStep(order: seq<Group>, next: Links, prev: Links, g: Group, last: Group?, k: int)
    requires Listed(order, next, prev) && Distinct(order + [g]) && last == At(order, |order| - 1)
    requires LinkNext(next, last, g).Keys == prev[g := last].Keys == Elems(order + [g])
    ensures Linked(order + [g], LinkNext(next, last, g), prev[g := last], k)
  {
    var q := order + [g];
    assert Linked(order, next, prev, k);
    if 0 <= k < |q| {
      Apart(q, k, |order|);
      if |order| > 0 {
        Apart(q, k, |order| - 1);
        assert q[|order| - 1] == last;
      }
    }
  }

  lemma AppendListed(order: seq<Group>, next: Links, prev: Links, g: Group, last: Group?)
    requires Listed(order, next, prev) && Numbered(order, g.id) && last == At(order, |order| - 1)
    ensures Listed(order + [g], LinkNext(next, last, g), prev[g := last])
  {
    var nx, pv, q := LinkNext(next, last, g), prev[g := last], order + [g];
    AppendElems(order, g);
    AppendApart(order, g);
    assert nx.Keys == Elems(q) && pv.Keys == Elems(q);
    forall k
      ensures Linked(q, nx, pv, k)
    {
      AppendStep(order, next, prev, g, last, k);
    }
  }

  class Params {
    var dp: Group?
    var fullMask: set<nat>
    // The groups in their order, and their fields as values.
    ghost var order: seq<Group>
    ghost var all: set<Group>
    ghost var levels: map<Group, Level>
    ghost var nexts: Links
    ghost var prevs: Links

    ghost predicate Mirrored()
      reads this`nexts, this`prevs, this`all, all`next, all`prev
    {
      && nexts.Keys == prevs.Keys == all
      && (forall g {:trigger nexts[g]} :: g in all ==> g.next == nexts[g])
      && (forall g {:trigger prevs[g]} :: g in all ==> g.prev == prevs[g])
    }

    ghost predicate Leveled()
      reads this`levels, this`all, all`detect, all`auto
    {
      levels.Keys == all && forall g {:trigger levels[g]} :: g in all ==> levels[g] == Level(g.detect, g.auto)
    }

    ghost predicate Valid()
      reads this, all`next, all`prev, all`detect, all`auto
    {
      && Mirrored() && Leveled() && all == Elems(order)
      && Listed(order, nexts, prevs) && dp == At(order, 0) && fullMask == Ids(order)
    }

    constructor ()
      ensures Valid() && order == [] && fresh(all)
    {
      dp, fullMask := null, {};
      order, all, levels, nexts, prevs := [], {}, map[], map[], map[];
    }

    // The fields of a new group are taken note of.
    method Admit(g: Group)
      requires Mirrored() && Leveled() && g !in all
      modifies this`nexts, this`prevs, this`levels, this`all
      ensures Mirrored() && Leveled() && all == old(all) + {g}
      ensures nexts == old(nexts)[g := g.next] && prevs == old(prevs)[g := g.prev]
    {
      all := all + {g};
      nexts := nexts[g := g.next];
      prevs := prevs[g := g.prev];
      levels := levels[g := Level(g.detect, g.auto)];
      forall x | x in all
        ensures x.next == nexts[x] && x.prev == prevs[x] && levels[x] == Level(x.detect, x.auto)
      {
        if x != g {
          assert old(x.next == nexts[x] && x.prev == prevs[x] && levels[x] == Level(x.detect, x.auto));
        }
      }
    }

    // The group before it points to it, or the list does.
    method Hook(g: Group, last: Group?)
      requires Mirrored() && (last == null || last in all)
      modifies this`dp, this`nexts, (if last == null then {} else {last})`next
      ensures Mirrored() && dp == (if last == null then g else old(dp))
      ensures nexts == if last == null then old(nexts) else old(nexts)[last := g]
    {
      if last != null {
        SetNext(last, g);
      } else {
        dp := g;
      }
    }

    method Attach(g: Group, last: Group?)
      requires Mirrored() && Leveled() && g !in all && (last == null || last in all) && g.next == null && g.prev == last
      modifies this`dp, this`nexts, this`prevs, this`levels, this`all, all`next
      ensures Mirrored() && Leveled() && all == old(all) + {g} && dp == (if last == null then g else old(dp))
      ensures nexts == LinkNext(old(nexts), last, g) && prevs == old(prevs)[g := last]
    {
      Admit(g);
      Hook(g, last);
    }

    // add_group: a group with a number, and so a bit, of its own at the end of the list.
    method AddGroup(g: Group, last: Group?)
      requires Valid() && last == At(order, |order| - 1) && Numbered(order, g.id)
      requires g !in all && g.next == null && g.prev == last
      modifies this, all`next
      ensures Valid() && Numbered(order, g.id + 1) && order == old(order) + [g] && fullMask == old(fullMask) + {g.id}
    {
      ghost var q := order + [g];
      AppendListed(order, nexts, prevs, g, last);
      AppendElems(order, g);
      AppendApart(order, g);
      Attach(g, last);
      Settle(q, fullMask + {g.id});
    }

    method Settle(ghost q: seq<Group>, mask: set<nat>)
      requires Mirrored() && Leveled() && all == Elems(q) && Listed(q, nexts, prevs) && dp == At(q, 0) && mask == Ids(q)
      modifies this`order, this`fullMask
      ensures Valid() && order == q && fullMask == mask
    {
      order, fullMask := q, mask;
    }

    method SetNext(g: Group, n: Group?)
      requires Mirrored() && g in all
      modifies this`nexts, g`next
      ensures Mirrored() && nexts == old(nexts)[g := n]
    {
      g.next := n;
      nexts := nexts[g := n];
    }

    method SetPrev(g: Group, n: Group?)
      requires Mirrored() && g in all
      modifies this`prevs, g`prev
      ensures Mirrored() && prevs == old(prevs)[g := n]
    {
      g.prev := n;
      prevs := prevs[g := n];
    }

    // The two groups take over each other's pointers.
    method Trade(dpc: Group, dpn: Group)
      requires Mirrored() && dpc in all && dpn in all && dpc != dpn
      modifies this`nexts, this`prevs, dpc`next, dpc`prev, dpn`next, dpn`prev
      ensures Mirrored()
      ensures nexts == old(nexts)[dpc := old(nexts[dpn])][dpn := old(nexts[dpc])]
      ensures prevs == old(prevs)[dpc := old(prevs[dpn])][dpn := old(prevs[dpc])]
    {
      var next, prev := dpc.next, dpc.prev;
      SetNext(dpc, dpn.next);
      SetPrev(dpc, dpn.prev);
      SetPrev(dpn, prev);
      SetNext(dpn, next);
    }

    // The neighbours outside follow.
    method Outer(dpc: Group, dpn: Group)
      requires Mirrored() && dpc in all && dpn in all
      requires prevs[dpn] == null || (prevs[dpn] in all && prevs[dpn] != dpc)
      requires nexts[dpc] == null || nexts[dpc] in all
      modifies this`nexts, this`prevs, all`next, all`prev
      ensures Mirrored()
      ensures nexts == if old(prevs[dpn]) == null then old(nexts) else old(nexts)[old(prevs[dpn]) := dpn]
      ensures prevs == if old(nexts[dpc]) == null then old(prevs) else old(prevs)[old(nexts[dpc]) := dpc]
    {
      if dpn.prev != null {
        SetNext(dpn.prev, dpn);
      }
      if dpc.next != null {
        SetPrev(dpc.next, dpc);
      }
    }

    // And those between the two, or the two themselves.
    method Inner(dpc: Group, dpn: Group, next: Group?)
      requires Mirrored() && dpc in all && dpn in all
      requires next != dpn ==> nexts[dpn] != null && prevs[dpc] != null && nexts[dpn] != dpc
      requires next != dpn ==> nexts[dpn] in all && prevs[dpc] in all
      modifies this`nexts, this`prevs, all`next, all`prev
      ensures Mirrored()
      ensures nexts == if next == dpn then old(nexts)[dpn := dpc] else old(nexts)[old(prevs[dpc]) := dpc]
      ensures prevs == if next == dpn then old(prevs)[dpc := dpn] else old(prevs)[old(nexts[dpn]) := dpn]
    {
      if next != dpn {
        SetPrev(dpn.next, dpn);
        SetNext(dpc.prev, dpc);
      } else {
        SetPrev(dpc, dpn);
        SetNext(dpn, dpc);
      }
    }

    // The pointers of swop_groups.
    method Relink(dpc: Group, dpn: Group, ghost cp: Group?, ghost cn: Group?, ghost np: Group?, ghost nn: Group?)
      requires Mirrored() && dpc in all && dpn in all && dpc != dpn
      requires nexts[dpc] == cn && prevs[dpc] == cp && nexts[dpn] == nn && prevs[dpn] == np
      requires Beside(all, cp, dpc, dpn) && Beside(all, nn, dpc, dpn)
      requires cn != null && np != null && cn in all && np in all && cn != dpc && (cn == dpn <==> np == dpc)
      modifies this`nexts, this`prevs, all`next, all`prev
      ensures Mirrored()
      ensures nexts == SwopNext(old(nexts), dpc, dpn, cp, cn, np, nn)
      ensures prevs == SwopPrev(old(prevs), dpc, dpn, cp, cn, np, nn)
    {
      var next := dpc.next;
      Trade(dpc, dpn);
      Outer(dpc, dpn);
      Inner(dpc, dpn, next);
    }

    method SwopLinks(dpc: Group, dpn: Group, ghost i: int, ghost j: int)
      requires Mirrored() && all == Elems(order) && Listed(order, nexts, prevs) && 0 <= i < j < |order|
      requires dpc == order[i] && dpn == order[j]
      modifies this`nexts, this`prevs, all`next, all`prev
      ensures Mirrored() && Listed(Exchanged(order, i, j), nexts, prevs)
    {
      SwopPlaces(order, nexts, prevs, i, j);
      SwopListed(order, nexts, prevs, i, j);
      Relink(dpc, dpn, At(order, i - 1), At(order, i + 1), At(order, j - 1), At(order, j + 1));
    }

    // What triggers the groups changes hands.
    method TradeLevels(dpc: Group, dpn: Group)
      requires Leveled() && dpc in all && dpn in all
      modifies this`levels, dpc`detect, dpn`detect, dpc`auto, dpn`auto
      ensures Leveled() && levels == old(levels)[dpc := old(levels[dpn])][dpn := old(levels[dpc])]
    {
      var detect, auto := dpc.detect, dpc.auto;
      dpc.detect := dpn.detect;
      dpc.auto := dpn.auto;
      dpn.detect := detect;
      dpn.auto := auto;
      levels := levels[dpc := levels[dpn]][dpn := levels[dpc]];
    }

    method SwopFields(dpc: Group, dpn: Group, ghost i: int, ghost j: int)
      requires Mirrored() && Leveled() && all == Elems(order) && Listed(order, nexts, prevs)
      requires 0 <= i < j < |order| && dpc == order[i] && dpn == order[j]
      modifies this`nexts, this`prevs, this`levels
      modifies all`next, all`prev, dpc`detect, dpn`detect, dpc`auto, dpn`auto
      ensures Mirrored() && Leveled() && Listed(Exchanged(order, i, j), nexts, prevs)
      ensures InPlace(Exchanged(order, i, j), levels, order, old(levels))
    {
      SwopLinks(dpc, dpn, i, j);
      TradeLevels(dpc, dpn);
      LevelsInPlace(order, old(levels), i, j);
    }

    // swop_groups, on a group and one that comes after it.
    method Swop(dpc: Group, dpn: Group, ghost i: int, ghost j: int)
      requires Valid() && 0 <= i < j < |order| && dpc == order[i] && dpn == order[j]
      modifies this`dp, this`order, this`nexts, this`prevs, this`levels
      modifies all`next, all`prev, dpc`detect, dpn`detect, dpc`auto, dpn`auto
      ensures Valid() && order == Exchanged(old(order), i, j)
      // What triggers a group stays where it was in the list.
      ensures InPlace(order, levels, old(order), old(levels))
    {
      ExchangedElems(order, i, j);
      Apart(order, 0, i);
      SwopFields(dpc, dpn, i, j);
      if dp == dpc {
        dp := dpn;
      }
      order := Exchanged(order, i, j);
    }
  }

  ghost predicate SameLevel(order: seq<Group>, levels: map<Group, Level>, order0: seq<Group>,
                            levels0: map<Group, Level>, k: int) {
    0 <= k < |order| && k < |order0| ==>
      order[k] in levels && order0[k] in levels0 && levels[order[k]] == levels0[order0[k]]
  }

  ghost predicate InPlace(order: seq<Group>, levels: map<Group, Level>, order0: seq<Group>,
                          levels0: map<Group, Level>) {
    && |order| == |order0|
    && forall k {:trigger SameLevel(order, levels, order0, levels0, k)} :: SameLevel(order, levels, order0, levels0, k)
  }

  lemma LevelsInPlace(order: seq<Group>, levels: map<Group, Level>, i: int, j: int)
    requires Distinct(order) && levels.Keys == Elems(order) && 0 <= i < j < |order|
    ensures var traded := levels[order[i] := levels[order[j]]][order[j] := levels[order[i]]];
      InPlace(Exchanged(order, i, j), traded, order, levels)
  {
    var q, ls := Exchanged(order, i, j), levels[order[i] := levels[order[j]]][order[j] := levels[order[i]]];
    forall k
      ensures SameLevel(q, ls, order, levels, k)
    {
      if 0 <= k < |q| {
        Apart(order, Exchange(i, j, k), i);
        Apart(order, Exchange(i, j, k), j);
      }
    }
  }

  ghost predicate Beside(all: set<Group>, x: Group?, c: Group, n: Group) {
    x == null || (x in all && x != c && x != n)
  }

  lemma SwopPlaces(order: seq<Group>, next: Links, prev: Links, i: int, j: int)
    requires Listed(order, next, prev) && 0 <= i < j < |order|
    ensures var c, n := order[i], order[j];
      && c != n && c in next && n in next
      && next[c] == At(order, i + 1) && prev[c] == At(order, i - 1) && next[n] == At(order, j + 1)
      && prev[n] == At(order, j - 1)
      && Beside(Elems(order), At(order, i - 1), c, n) && Beside(Elems(order), At(order, j + 1), c, n)
      && At(order, i + 1) in order && At(order, j - 1) in order && At(order, i + 1) != c
      && (At(order, i + 1) == n <==> At(order, j - 1) == c)
  {
    Neighbours(order, i, j);
    assert Linked(order, next, prev, i) && Linked(order, next, prev, j);
  }

  lemma Neighbours(order: seq<Group>, i: int, j: int)
    requires Distinct(order) && 0 <= i < j < |order|
    ensures order[i] != order[j]
    ensures At(order, i - 1) !in {order[i], order[j]} && At(order, j + 1) !in {order[i], order[j]}
    ensures At(order, i + 1) != order[i] && (At(order, i + 1) == order[j] <==> At(order, j - 1) == order[i])
  {
    Apart(order, i, j);
    Apart(order, i, i + 1);
    Apart(order, i + 1, j);
    Apart(order, j - 1, i);
    if i > 0 {
      Apart(order, i - 1, i);
      Apart(order, i - 1, j);
    }
    if j + 1 < |order| {
      Apart(order, i, j + 1);
      Apart(order, j, j + 1);
    }
  }
}
