/**
 Falling back from one strategy group to another: `find_dp`, `on_trigger`, `on_response`,
 `reconnect` and `connect_hook` of `extend.c`.
 */
module Fallback {
  import opened Common

  import opened Groups

  // ---- The circular order -------------------------------------------------------

  // The `k`-th group from position `s` on, around the end.
  ghost function RingAt(order: seq<Group>, s: int, k: int): Group
    requires 0 <= s < |order| && 0 <= k <= |order|
  {
    if s + k < |order| then order[s + k] else order[s + k - |order|]
  }

  // The numbers of the first `k` groups from position `s` on.
  ghost function Passed(order: seq<Group>, s: int, k: int): set<nat>
    requires 0 <= s < |order| && 0 <= k <= |order|
  {
    set m | 0 <= m < k :: RingAt(order, s, m).id
  }

  lemma PassedOne(order: seq<Group>, s: int, k: int)
    requires 0 <= s < |order| && 0 <= k < |order|
    ensures Passed(order, s, k + 1) == Passed(order, s, k) + {RingAt(order, s, k).id}
  {
    forall x | x in Passed(order, s, k + 1)
      ensures x in Passed(order, s, k) + {RingAt(order, s, k).id}
    {
      var m :| 0 <= m < k + 1 && RingAt(order, s, m).id == x;
    }
  }

  lemma PassedAll(order: seq<Group>, s: int)
    requires 0 <= s < |order|
    ensures Passed(order, s, |order|) == Ids(order)
  {
    forall g | g in order
      ensures g.id in Passed(order, s, |order|)
    {
      var i :| 0 <= i < |order| && order[i] == g;
      assert RingAt(order, s, if i >= s then i - s else i - s + |order|) == g;
    }
  }

  lemma NotPassed(order: seq<Group>, s: int, k: int, m: int)
    requires Distinct(order) && 0 <= s < |order| && 0 <= k <= m < |order|
    ensures RingAt(order, s, m).id !in Passed(order, s, k)
  {
    var at := if s + m < |order| then s + m else s + m - |order|;
    forall x | 0 <= x < k
      ensures RingAt(order, s, x).id != RingAt(order, s, m).id
    {
      Apart(order, if s + x < |order| then s + x else s + x - |order|, at);
    }
  }

  // Where the search of a connection starts: at its group, or at the head of the list.
  ghost function Start(order: seq<Group>, dp: Group?): (s: int)
    requires order != [] && (dp == null || dp in order)
    ensures 0 <= s < |order| && (dp == null ==> s == 0) && (dp != null ==> order[s] == dp)
  {
    if dp == null then 0 else var i :| 0 <= i < |order| && order[i] == dp; i
  }

  lemma RingNext(order: seq<Group>, next: Links, prev: Links, s: int, k: int)
    requires Listed(order, next, prev) && 0 <= s < |order| && 0 <= k < |order|
    ensures RingAt(order, s, k) in next
    ensures var n := next[RingAt(order, s, k)]; (if n == null then order[0] else n) == RingAt(order, s, k + 1)
  {
    var i := if s + k < |order| then s + k else s + k - |order|;
    assert Linked(order, next, prev, i);
  }

  // ---- find_dp ------------------------------------------------------------------

  class Client {
    var dp: Group?
    var mask: set<nat>
    var detect: set<nat>
    var reconnects: nat

    ghost predicate On(p: Params)
      reads this, p`all, p`fullMask
    {
      mask <= p.fullMask && (dp == null || dp in p.all)
    }

    constructor ()
      ensures dp == null && mask == {} && detect == {} && reconnects == 0
    {
      dp, mask, detect, reconnects := null, {}, {}, 0;
    }
  }

  // A group a connection with this mask may use; `fits` is what the address, protocol and host
  // tests say of each group.
  ghost predicate Takes(levels: map<Group, Level>, g: Group, init: Group?, mask: set<nat>, detect: set<nat>,
                        fits: nat -> bool) {
    && g.id !in mask && fits(g.id)
    && (g == init || (g in levels && (levels[g].detect == {} || detect * levels[g].detect != {})))
  }

  // The search has passed `k` groups, none of which it takes.
  ghost predicate Search(order: seq<Group>, s: int, k: int, levels: map<Group, Level>, init: Group?, mask: set<nat>,
                         detect: set<nat>, fits: nat -> bool, now: set<nat>) {
    && 0 <= s < |order| && 0 <= k <= |order| && now == mask + Passed(order, s, k)
    && forall m {:trigger RingAt(order, s, m)} :: 0 <= m < k ==>
      !Takes(levels, RingAt(order, s, m), init, mask, detect, fits)
  }

  lemma SearchOn(order: seq<Group>, s: int, k: int, levels: map<Group, Level>, init: Group?, mask: set<nat>,
                 detect: set<nat>, fits: nat -> bool, now: set<nat>)
    requires Distinct(order) && Search(order, s, k, levels, init, mask, detect, fits, now) && k < |order|
    ensures var g := RingAt(order, s, k);
      && (Takes(levels, g, init, now, detect, fits) <==> Takes(levels, g, init, mask, detect, fits))
      && (!Takes(levels, g, init, mask, detect, fits) ==>
           Search(order, s, k + 1, levels, init, mask, detect, fits, now + {g.id}))
  {
    NotPassed(order, s, k, k);
    PassedOne(order, s, k);
  }

  // When every group is masked, the groups not reached were masked before.
  lemma SearchDone(order: seq<Group>, s: int, k: int, levels: map<Group, Level>, init: Group?, mask: set<nat>,
                   detect: set<nat>, fits: nat -> bool, now: set<nat>)
    requires Distinct(order) && Search(order, s, k, levels, init, mask, detect, fits, now) && now == Ids(order)
    ensures Search(order, s, |order|, levels, init, mask, detect, fits, now)
  {
    PassedAll(order, s);
    forall m | k <= m < |order|
      ensures !Takes(levels, RingAt(order, s, m), init, mask, detect, fits)
    {
      NotPassed(order, s, k, m);
      assert RingAt(order, s, m) in order;
      assert RingAt(order, s, m).id in Ids(order);
    }
  }

  // The test of find_dp.
  method Suitable(p: Params, c: Client, dp: Group, init: Group?, fits: nat -> bool) returns (b: bool)
    requires p.Leveled() && dp in p.all
    ensures b <==> Takes(p.levels, dp, init, c.mask, c.detect, fits)
  {
    b := dp.id !in c.mask && (dp == init || dp.detect == {} || c.detect * dp.detect != {}) && fits(dp.id);
    assert p.levels[dp] == Level(dp.detect, dp.auto);
  }

  // One turn of the loop of find_dp.
  method Turn(p: Params, c: Client, from: Group?, init: Group?, fits: nat -> bool, ghost s: int, ghost k: nat,
              ghost mask0: set<nat>)
    returns (take: bool, dp: Group?)
    requires p.Valid() && c.mask <= p.fullMask && c.mask != p.fullMask
    requires Search(p.order, s, k, p.levels, init, mask0, c.detect, fits, c.mask)
    requires (if from == null then p.dp else from) == RingAt(p.order, s, k)
    modifies c`mask
    ensures k < |p.order|
    ensures take ==>
      dp == RingAt(p.order, s, k) && c.mask == old(c.mask) && Takes(p.levels, dp, init, c.mask, c.detect, fits)
    ensures take ==> Takes(p.levels, dp, init, mask0, c.detect, fits)
    ensures !take ==> c.mask <= p.fullMask && Search(p.order, s, k + 1, p.levels, init, mask0, c.detect, fits, c.mask)
    ensures !take ==> (if dp == null then p.dp else dp) == RingAt(p.order, s, k + 1)
  {
    dp := from;
    if dp == null {
      dp := p.dp;
    }
    PassedAll(p.order, s);
    RingNext(p.order, p.nexts, p.prevs, s, k);
    SearchOn(p.order, s, k, p.levels, init, mask0, c.detect, fits, c.mask);
    assert dp in p.all;
    take := Suitable(p, c, dp, init, fits);
    if !take {
      c.mask := c.mask + {dp.id};
      assert p.nexts[dp] == dp.next;
      dp := dp.next;
    }
  }

  // find_dp: the first group in circular order that the connection may use, and `k` passed over
  // before it; null when all of them are.
  method FindDp(p: Params, c: Client, fits: nat -> bool) returns (r: Group?, ghost k: nat)
    requires p.Valid() && p.order != [] && c.On(p)
    modifies c`mask
    ensures c.On(p)
    ensures Search(p.order, Start(p.order, c.dp), k, p.levels, c.dp, old(c.mask), c.detect, fits, c.mask)
    ensures r != null ==> k < |p.order| && r == RingAt(p.order, Start(p.order, c.dp), k) && r.id !in c.mask
    ensures r != null ==> Takes(p.levels, r, c.dp, old(c.mask), c.detect, fits)
    ensures r == null ==> k == |p.order| && c.mask == p.fullMask
    // It is unmasked, fits, and is the group itself or one that looks for nothing or for what was detected;
    // where none is found there is none.
    ensures r != null ==>
      && r in p.levels && r.id !in old(c.mask) && fits(r.id)
      && (r == c.dp || p.levels[r].detect == {} || c.detect * p.levels[r].detect != {})
    ensures r == null ==> forall g :: g in p.order ==>
      || g.id in old(c.mask) || !fits(g.id)
      || (g != c.dp && g in p.levels && p.levels[g].detect != {} && c.detect * p.levels[g].detect == {})
  {
    ghost var order, mask0, s := p.order, c.mask, Start(p.order, c.dp);
    r := c.dp;
    var init := r;
    k := 0;
    while c.mask != p.fullMask
      invariant c.mask <= p.fullMask && Search(order, s, k, p.levels, init, mask0, c.detect, fits, c.mask)
      invariant (if r == null then p.dp else r) == RingAt(order, s, k)
      decreases |order| - k
    {
      var take;
      take, r := Turn(p, c, r, init, fits, s, k, mask0);
      if take {
        assert r in order;
        return;
      }
      k := k + 1;
    }
    SearchDone(order, s, k, p.levels, init, mask0, c.detect, fits, c.mask);
    SearchAll(order, s, p.levels, init, mask0, c.detect, fits, c.mask);
    forall g | g in order
      ensures !Takes(p.levels, g, init, mask0, c.detect, fits) && g in p.levels
    {
      assert g in p.all;
    }
    r, k := null, |order|;
  }

  // ---- on_trigger ---------------------------------------------------------------

  // A group to go on with after a failure of this kind.
  ghost predicate Suits(levels: map<Group, Level>, g: Group, mask: set<nat>, kind: set<nat>, can: bool) {
    && g.id !in mask && g in levels
    && (levels[g].detect == {} || levels[g].detect * kind != {}) && (levels[g].auto.onReconn ==> can)
  }

  // The scan ends before an unconditional group once all masked groups lie behind.
  ghost predicate Halts(order: seq<Group>, levels: map<Group, Level>, mask: set<nat>, m: int)
    requires 0 <= m < |order|
  {
    mask <= Ids(order[..m]) && order[m] in levels && levels[order[m]].detect == {}
  }

  ghost predicate PassesOver(order: seq<Group>, levels: map<Group, Level>, mask: set<nat>, kind: set<nat>, can: bool,
                             m: int) {
    0 <= m < |order| ==> !Suits(levels, order[m], mask, kind, can) && !Halts(order, levels, mask, m)
  }

  // The scan has passed over the first `k` groups.
  ghost predicate Scanned(order: seq<Group>, levels: map<Group, Level>, mask: set<nat>, kind: set<nat>, can: bool,
                          k: int, now: set<nat>, unchecked: set<nat>) {
    && 0 <= k <= |order| && now == mask + Ids(order[..k]) && unchecked == mask - Ids(order[..k])
    && forall m {:trigger PassesOver(order, levels, mask, kind, can, m)} :: m < k ==>
      PassesOver(order, levels, mask, kind, can, m)
  }

  lemma ScanOn(order: seq<Group>, levels: map<Group, Level>, mask: set<nat>, kind: set<nat>, can: bool, k: int,
               now: set<nat>, unchecked: set<nat>)
    requires Distinct(order) && Scanned(order, levels, mask, kind, can, k, now, unchecked) && k < |order|
    ensures Suits(levels, order[k], now, kind, can) <==> Suits(levels, order[k], mask, kind, can)
    ensures unchecked == {} <==> mask <= Ids(order[..k])
    ensures PassesOver(order, levels, mask, kind, can, k) ==>
      Scanned(order, levels, mask, kind, can, k + 1, now + {order[k].id}, unchecked - {order[k].id})
  {
    var front, g := order[..k], order[k];
    assert order[..k + 1] == front + [g];
    assert forall x :: x in order[..k + 1] <==> x in front || x == g;
    assert Ids(order[..k + 1]) == Ids(front) + {g.id};
    forall i | 0 <= i < k
      ensures front[i].id != g.id
    {
      Apart(order, i, k);
    }
    assert g.id !in Ids(front);
    if unchecked == {} {
      forall x | x in mask
        ensures x in Ids(front)
      {
        assert x !in unchecked;
      }
    }
  }

  datatype Verdict = Pass | Halt | Next

  // The tests of the scan.
  method Glance(p: Params, c: Client, dp: Group, unchecked: set<nat>, kind: set<nat>, can: bool) returns (v: Verdict)
    requires p.Leveled() && dp in p.all
    ensures v == Halt <==> unchecked == {} && p.levels[dp].detect == {}
    ensures v == Next <==> v != Halt && Suits(p.levels, dp, c.mask, kind, can)
  {
    assert p.levels[dp] == Level(dp.detect, dp.auto);
    v := Pass;
    if unchecked == {} && dp.detect == {} {
      v := Halt;
    } else if dp.id !in c.mask && (dp.detect == {} || dp.detect * kind != {}) && (!dp.auto.onReconn || can) {
      v := Next;
    }
  }

  method ScanTurn(p: Params, c: Client, dp: Group, unchecked: set<nat>, kind: set<nat>, can: bool,
                  ghost mask0: set<nat>, ghost k: nat)
    returns (v: Verdict, on: Group?, unchecked': set<nat>)
    requires p.Valid() && c.mask <= p.fullMask && dp == At(p.order, k)
    requires Scanned(p.order, p.levels, mask0, kind, can, k, c.mask, unchecked)
    modifies c`mask
    ensures v == Halt <==> Halts(p.order, p.levels, mask0, k)
    ensures v == Next ==> Suits(p.levels, dp, mask0, kind, can)
    ensures v != Pass ==> c.mask == old(c.mask) && unchecked' == unchecked && on == dp
    ensures v == Pass ==> c.mask <= p.fullMask && on == At(p.order, k + 1)
    ensures v == Pass ==> Scanned(p.order, p.levels, mask0, kind, can, k + 1, c.mask, unchecked')
  {
    unchecked', on := unchecked, dp;
    ScanOn(p.order, p.levels, mask0, kind, can, k, c.mask, unchecked);
    assert dp in p.all && dp.id in p.fullMask;
    v := Glance(p, c, dp, unchecked, kind, can);
    if v == Pass {
      assert PassesOver(p.order, p.levels, mask0, kind, can, k);
      unchecked' := unchecked - {dp.id};
      c.mask := c.mask + {dp.id};
      assert Linked(p.order, p.nexts, p.prevs, k) && p.nexts[dp] == dp.next;
      on := dp.next;
    }
  }

  // The scan for the next group.
  method Scan(p: Params, c: Client, kind: set<nat>, can: bool) returns (next: Group?, unchecked: set<nat>, ghost k: nat)
    requires p.Valid() && c.mask <= p.fullMask
    modifies c`mask
    ensures c.mask <= p.fullMask && Scanned(p.order, p.levels, old(c.mask), kind, can, k, c.mask, unchecked)
    ensures next != null ==> k < |p.order| && next == p.order[k] && Suits(p.levels, next, old(c.mask), kind, can)
    ensures k < |p.order| ==> (next == null <==> Halts(p.order, p.levels, old(c.mask), k))
    ensures next != null ==>
      && next in p.levels && next.id !in old(c.mask) && (can || !p.levels[next].auto.onReconn)
      && (p.levels[next].detect == {} || p.levels[next].detect * kind != {})
  {
    ghost var order, mask0 := p.order, c.mask;
    var dp := p.dp;
    next, unchecked, k := null, c.mask, 0;
    assert order[..0] == [];
    while dp != null
      invariant c.mask <= p.fullMask && Scanned(order, p.levels, mask0, kind, can, k, c.mask, unchecked)
      invariant dp == At(order, k)
      decreases |order| - k
    {
      var v;
      v, dp, unchecked := ScanTurn(p, c, dp, unchecked, kind, can, mask0, k);
      if v == Halt {
        return;
      }
      if v == Next {
        next := dp;
        return;
      }
      k := k + 1;
    }
  }

  // Where the scan ends: at the first group that suits, or at none if there is none or an unconditional
  // group ends it before.
  ghost predicate Aimed(order: seq<Group>, levels: map<Group, Level>, mask: set<nat>, kind: set<nat>, can: bool,
                        k: int, next: Group?) {
    && 0 <= k <= |order|
    && (forall m {:trigger PassesOver(order, levels, mask, kind, can, m)} :: m < k ==>
          PassesOver(order, levels, mask, kind, can, m))
    && (next == null ==> k == |order| || Halts(order, levels, mask, k))
    && (next != null ==>
          && k < |order| && next == order[k] && Suits(levels, next, mask, kind, can)
          && !Halts(order, levels, mask, k))
  }

  // The usual list, in which only the first group is unconditional: after a failure that some unmasked group
  // looks for, and not only to reconnect, there is a next group.
  lemma NextFound(order: seq<Group>, levels: map<Group, Level>, mask: set<nat>, kind: set<nat>, can: bool, k: int,
                  next: Group?, g: Group)
    requires Aimed(order, levels, mask, kind, can, k, next) && mask != {} && g in order && g in levels
    requires forall i :: 0 < i < |order| ==> order[i] in levels && levels[order[i]].detect != {}
    requires g.id !in mask && levels[g].detect * kind != {} && (can || !levels[g].auto.onReconn)
    ensures next != null
  {
    var i :| 0 <= i < |order| && order[i] == g;
    assert !PassesOver(order, levels, mask, kind, can, i);
    assert Ids(order[..0]) == {};
    assert k < |order| && !Halts(order, levels, mask, k);
  }

  // A masked group that is no longer unchecked lies before the place the scan stopped at.
  lemma Precedes(order: seq<Group>, levels: map<Group, Level>, mask: set<nat>, kind: set<nat>, can: bool, k: int,
                 now: set<nat>, unchecked: set<nat>, g: Group) returns (i: int)
    requires Distinct(order) && Scanned(order, levels, mask, kind, can, k, now, unchecked)
    requires g in order && g.id in mask && g.id !in unchecked
    ensures 0 <= i < k && order[i] == g
  {
    assert g.id in Ids(order[..k]);
    var x :| x in order[..k] && x.id == g.id;
    i :| 0 <= i < k && order[i] == x;
    var j :| 0 <= j < |order| && order[j] == g;
    Apart(order, i, j);
  }

  // An entry of the address cache.
  class Entry {
    var mask: set<nat>
    var detect: set<nat>
    var dp: Group?

    ghost predicate On(p: Params)
      reads this, p`all, p`fullMask
    {
      mask <= p.fullMask && (dp == null || dp in p.all)
    }

    constructor ()
      ensures dp == null && mask == {}
    {
      mask, detect, dp := {}, {}, null;
    }
  }

  lemma Unmoved(order: seq<Group>, levels: map<Group, Level>)
    requires levels.Keys == Elems(order)
    ensures InPlace(order, levels, order, levels)
  {
  }

  // The list after on_trigger: as it was, or with positions `i` and `j` exchanged.
  ghost predicate Moved(order: seq<Group>, order0: seq<Group>, swopped: bool, i: int, j: int) {
    if swopped then 0 <= i < j < |order0| && order == Exchanged(order0, i, j) else order == order0
  }

  // The failing group changes places with the next one, which is always behind it.
  method Rank(p: Params, dp: Group, next: Group?, unchecked: set<nat>, cached: set<nat>,
              ghost mask: set<nat>, ghost now: set<nat>, ghost kind: set<nat>, ghost can: bool, ghost k: nat)
    returns (ghost swopped: bool, ghost i: int)
    requires p.Valid() && dp in p.all && dp.id in mask && Scanned(p.order, p.levels, mask, kind, can, k, now, unchecked)
    requires next != null ==> next == At(p.order, k)
    modifies p, p.all`next, p.all`prev, p.all`detect, p.all`auto, dp`pri
    ensures dp.pri == old(dp.pri) + if dp.id in cached then 0 else 1
    ensures p.all == old(p.all) && p.fullMask == old(p.fullMask)
    ensures p.Valid() && Moved(p.order, old(p.order), swopped, i, k)
    ensures InPlace(p.order, p.levels, old(p.order), old(p.levels))
    ensures swopped ==> next != null && old(p.order)[i] == dp && old(p.order)[k] == next
    ensures swopped <==>
      dp.id !in cached && next != null && old(next.auto.sort && dp.pri > next.pri) && dp.id !in unchecked
  {
    hide Differ;
    hide Scanned;
    swopped, i := false, 0;
    Unmoved(p.order, p.levels);
    if dp.id !in cached {
      if next != null && next.auto.sort && dp.pri > next.pri && dp.id !in unchecked {
        i := Precedes(p.order, p.levels, mask, kind, can, k, now, unchecked, dp);
        swopped := true;
        p.Swop(dp, next, i, k);
      }
      dp.pri := dp.pri + 1;
    }
  }

  // ---- How often a connection may fall back -------------------------------------

  // Each reconnect left another group masked.
  ghost predicate Bounded(dp: Group?, mask: set<nat>, reconnects: nat) {
    if dp == null then reconnects == 0 else reconnects <= |mask - {dp.id}|
  }

  lemma Larger(a: set<nat>, b: set<nat>)
    requires a <= b
    ensures |a| <= |b|
  {
    assert b == a + (b - a);
    assert |b| == |a| + |b - a|;
  }

  lemma BoundKept(dp: Group, mask: set<nat>, n: nat, dp': Group, mask': set<nat>)
    requires Bounded(dp, mask, n) && mask <= mask' && (dp' == dp || dp'.id !in mask')
    ensures Bounded(dp', mask', n)
  {
    Larger(mask - {dp.id}, mask' - {dp'.id});
  }

  lemma BoundNext(dp: Group, mask: set<nat>, n: nat, dp': Group, mask': set<nat>)
    requires Bounded(dp, mask, n) && mask + {dp.id} <= mask' && dp'.id !in mask'
    ensures Bounded(dp', mask', n + 1)
  {
    assert mask + {dp.id} == (mask - {dp.id}) + {dp.id};
    assert |mask + {dp.id}| == |mask - {dp.id}| + 1;
    Larger(mask + {dp.id}, mask' - {dp'.id});
  }

  lemma {:induction false} CountIds(order: seq<Group>)
    ensures |Ids(order)| <= |order|
  {
    if order != [] {
      var front, g := order[..|order| - 1], order[|order| - 1];
      CountIds(front);
      assert order == front + [g];
      assert Ids(order) == Ids(front) + {g.id};
    }
  }

  // A connection reconnects fewer times than there are groups.
  lemma FewerReconnects(order: seq<Group>, dp: Group, mask: set<nat>, n: nat)
    requires dp in order && mask <= Ids(order) && Bounded(dp, mask, n)
    ensures n < |order|
  {
    CountIds(order);
    assert dp.id in Ids(order);
    Larger((mask - {dp.id}) + {dp.id}, Ids(order));
    assert |(mask - {dp.id}) + {dp.id}| == |mask - {dp.id}| + 1;
  }

  // ---- Connecting ---------------------------------------------------------------

  // find_dp from the group, mask and detection given has passed over `k` groups and stopped at `dp`, or
  // at none.
  ghost predicate Sought(p: Params, dp0: Group?, mask0: set<nat>, detect: set<nat>, fits: nat -> bool, k: nat,
                         found: bool, dp: Group?, mask: set<nat>)
    reads p
    requires p.order != [] && (dp0 == null || dp0 in p.order)
  {
    && Search(p.order, Start(p.order, dp0), k, p.levels, dp0, mask0, detect, fits, mask)
    && (found ==> k < |p.order| && dp == RingAt(p.order, Start(p.order, dp0), k)
                  && Takes(p.levels, dp, dp0, mask0, detect, fits))
    && (!found ==> k == |p.order| && dp == dp0)
  }

  // Some group that the connection may use.
  ghost predicate Usable(order: seq<Group>, levels: map<Group, Level>, init: Group?, mask: set<nat>, detect: set<nat>,
                         fits: nat -> bool) {
    exists g :: g in order && Takes(levels, g, init, mask, detect, fits)
  }

  // A search that has passed over all groups has seen each of them.
  lemma SearchAll(order: seq<Group>, s: int, levels: map<Group, Level>, init: Group?, mask: set<nat>,
                  detect: set<nat>, fits: nat -> bool, now: set<nat>)
    requires Search(order, s, |order|, levels, init, mask, detect, fits, now)
    ensures !Usable(order, levels, init, mask, detect, fits)
  {
    forall g | g in order
      ensures !Takes(levels, g, init, mask, detect, fits)
    {
      var i :| 0 <= i < |order| && order[i] == g;
      assert RingAt(order, s, if i >= s then i - s else i - s + |order|) == g;
    }
  }

  // The group find_dp chooses becomes that of the connection.
  method Choose(p: Params, c: Client, fits: nat -> bool) returns (found: bool, ghost k: nat)
    requires p.Valid() && p.order != [] && c.On(p) && Bounded(c.dp, c.mask, c.reconnects)
    modifies c`mask, c`dp
    ensures c.On(p) && Bounded(c.dp, c.mask, c.reconnects) && old(c.mask) <= c.mask
    ensures Sought(p, old(c.dp), old(c.mask), c.detect, fits, k, found, c.dp, c.mask)
    ensures found <==> Usable(p.order, p.levels, old(c.dp), old(c.mask), c.detect, fits)
    ensures found ==> c.dp != null && c.dp.id !in c.mask
    ensures !found ==> c.dp == old(c.dp) && c.mask == p.fullMask
  {
    hide Search;
    hide Takes;
    ghost var was, mask := c.dp, c.mask;
    var dp;
    dp, k := FindDp(p, c, fits);
    found := dp != null;
    if !found {
      SearchAll(p.order, Start(p.order, was), p.levels, was, mask, c.detect, fits, c.mask);
    }
    SearchGrows(p.order, Start(p.order, was), k, p.levels, was, mask, c.detect, fits, c.mask);
    if was != null {
      BoundKept(was, mask, c.reconnects, if dp == null then was else dp, c.mask);
    }
    if found {
      assert dp in p.order;
      c.dp := dp;
    }
  }

  lemma SearchGrows(order: seq<Group>, s: int, k: int, levels: map<Group, Level>, init: Group?, mask: set<nat>,
                    detect: set<nat>, fits: nat -> bool, now: set<nat>)
    requires Search(order, s, k, levels, init, mask, detect, fits, now)
    ensures mask <= now
  {
  }

  // connect_hook; `connects` is what create_conn answers.
  method ConnectHook(p: Params, c: Client, cached: Entry?, fits: nat -> bool, connects: bool)
    returns (r: int, ghost found: bool, ghost k: nat, ghost dp0: Group?, ghost mask0: set<nat>)
    requires p.Valid() && p.order != [] && c.On(p) && Bounded(c.dp, c.mask, c.reconnects)
    requires cached != null ==> cached.On(p)
    modifies c`mask, c`detect, c`dp
    ensures c.On(p) && Bounded(c.dp, c.mask, c.reconnects)
    // The group, the mask and the detection come from the cache for a connection that has no group yet.
    ensures old(c.dp) == null && cached != null ==>
      dp0 == cached.dp && mask0 == cached.mask && c.detect == cached.detect
    ensures old(c.dp) != null || cached == null ==>
      dp0 == old(c.dp) && mask0 == old(c.mask) && c.detect == old(c.detect)
    ensures (dp0 == null || dp0 in p.order) && Sought(p, dp0, mask0, c.detect, fits, k, found, c.dp, c.mask)
    ensures (r == 0 <==> found && connects) && (found ==> c.dp != null && c.dp.id !in c.mask)
    ensures found <==> Usable(p.order, p.levels, dp0, mask0, c.detect, fits)
    ensures old(c.dp) != null ==> c.dp != null && old(c.mask) <= c.mask
  {
    hide Usable;
    hide Search;
    hide Takes;
    if c.dp == null && cached != null {
      c.mask := cached.mask;
      c.detect := cached.detect;
      c.dp := cached.dp;
    }
    dp0, mask0 := c.dp, c.mask;
    var ok;
    ok, k := Choose(p, c, fits);
    found := ok;
    r := if ok && connects then 0 else -1;
  }

  // setup_conn, as far as the group goes.
  method SetupConn(p: Params, c: Client, fits: nat -> bool) returns (r: int, ghost k: nat)
    requires p.Valid() && p.order != [] && c.On(p) && Bounded(c.dp, c.mask, c.reconnects) && c.dp != null
    modifies c`mask, c`dp
    ensures c.On(p) && Bounded(c.dp, c.mask, c.reconnects) && c.dp != null && old(c.mask) <= c.mask
    ensures r == 0 <==> Usable(p.order, p.levels, old(c.dp), old(c.mask), c.detect, fits)
    ensures Sought(p, old(c.dp), old(c.mask), c.detect, fits, k, r == 0, c.dp, c.mask)
    ensures r == 0 ==> c.dp.id !in c.mask
  {
    var found;
    found, k := Choose(p, c, fits);
    r := if found then 0 else -1;
  }

  // reconnect, after the current group has been masked.
  method Reconnect(p: Params, c: Client, fits: nat -> bool, connects: bool) returns (r: int, ghost k: nat)
    requires p.Valid() && p.order != [] && c.On(p) && Bounded(c.dp, c.mask, c.reconnects) && c.dp != null
    requires c.dp.id in c.mask
    modifies c
    ensures c.On(p) && Bounded(c.dp, c.mask, c.reconnects) && c.dp != null && old(c.mask) <= c.mask
    ensures r == 0 <==> connects && Usable(p.order, p.levels, old(c.dp), old(c.mask), c.detect, fits)
    ensures r == 0 ==> Sought(p, old(c.dp), old(c.mask), c.detect, fits, k, true, c.dp, c.mask)
    ensures c.detect == old(c.detect)
    ensures r == 0 ==> c.dp.id !in c.mask && c.dp != old(c.dp) && c.reconnects == old(c.reconnects) + 1
    ensures r != 0 ==> c.reconnects == old(c.reconnects)
  {
    ghost var dp, mask := c.dp, c.mask;
    ghost var found, dp0, mask0;
    r, found, k, dp0, mask0 := ConnectHook(p, c, null, fits, connects);
    if r == 0 {
      BoundNext(dp, mask, c.reconnects, c.dp, c.mask);
      c.reconnects := c.reconnects + 1;
    }
  }

  // The failure is put down to the group of the connection.
  method Mark(p: Params, c: Client, kind: set<nat>)
    requires p.Valid() && c.On(p) && c.dp != null
    modifies c.dp`failCount, c`mask, c`detect
    ensures c.dp.failCount == old(c.dp.failCount) + 1
    ensures p.Valid() && c.mask == old(c.mask) + {c.dp.id} && c.mask <= p.fullMask && c.detect == kind
  {
    var dp := c.dp;
    dp.failCount := dp.failCount + 1;
    assert dp.id in p.fullMask;
    c.mask := c.mask + {dp.id};
    c.detect := kind;
  }

  // And another one is looked for.
  method Blame(p: Params, c: Client, kind: set<nat>, can: bool) returns (next: Group?, unchecked: set<nat>,
               ghost k: nat)
    requires p.Valid() && c.On(p) && Bounded(c.dp, c.mask, c.reconnects) && c.dp != null
    modifies c.dp`failCount, c`mask, c`detect
    ensures p.Valid() && c.On(p) && Bounded(c.dp, c.mask, c.reconnects)
    ensures old(c.mask) + {c.dp.id} <= c.mask && c.detect == kind && c.dp.failCount == old(c.dp.failCount) + 1
    ensures Scanned(p.order, p.levels, old(c.mask) + {c.dp.id}, kind, can, k, c.mask, unchecked)
    ensures Aimed(p.order, p.levels, old(c.mask) + {c.dp.id}, kind, can, k, next)
  {
    hide Listed;
    hide Bounded;
    hide Suits;
    hide Halts;
    ghost var mask0 := c.mask;
    Mark(p, c, kind);
    next, unchecked, k := Scan(p, c, kind, can);
    BoundKept(c.dp, mask0, c.reconnects, c.dp, c.mask);
  }

  method Settle(p: Params, c: Client, kind: set<nat>, can: bool, cached: set<nat>)
    returns (next: Group?, ghost swopped: bool, ghost i: int, ghost j: nat)
    requires p.Valid() && c.On(p) && Bounded(c.dp, c.mask, c.reconnects) && c.dp != null
    modifies p, p.all`next, p.all`prev, p.all`detect, p.all`auto, c.dp`pri, c.dp`failCount, c`mask, c`detect
    ensures p.all == old(p.all) && p.fullMask == old(p.fullMask)
    ensures p.Valid() && c.On(p) && Bounded(c.dp, c.mask, c.reconnects)
    ensures c.detect == kind && (next != null ==> next in p.all) && j <= |old(p.order)|
    ensures Moved(p.order, old(p.order), swopped, i, j) && InPlace(p.order, p.levels, old(p.order), old(p.levels))
    ensures swopped ==> old(p.order)[i] == c.dp
    ensures Aimed(old(p.order), old(p.levels), old(c.mask) + {c.dp.id}, kind, can, j, next)
    ensures c.mask == old(c.mask) + {c.dp.id} + Ids(old(p.order)[..j])
    ensures c.dp.failCount == old(c.dp.failCount) + 1
    ensures c.dp.pri == old(c.dp.pri) + if c.dp.id in cached then 0 else 1
    ensures swopped <==>
      Overtakes(old(p.levels), c.dp, next, old(c.dp.pri), if next == null then 0 else old(p.order[j].pri), cached,
                Ids(old(p.order)[..j]))
  {
    hide Bounded;
    ghost var mask := c.mask + {c.dp.id};
    var unchecked;
    next, unchecked, j := Blame(p, c, kind, can);
    swopped, i := Rank(p, c.dp, next, unchecked, cached, mask, c.mask, kind, can, j);
  }

  // The entry remembers the next group, or forgets.
  method Remember(p: Params, c: Client, cache: Entry, next: Group?)
    requires p.dp == null || p.dp in p.all
    requires cache.On(p) && c.mask <= p.fullMask && (next == null || next in p.all)
    modifies cache
    ensures cache.On(p) && cache.dp == (if next != null then next else p.dp)
    ensures cache.mask == (if next != null then old(cache.mask) + c.mask else {})
    ensures cache.detect == if next != null then c.detect else {}
  {
    if next == null {
      cache.mask := {};
      cache.detect := {};
      cache.dp := p.dp;
    } else {
      cache.mask := cache.mask + c.mask;
      cache.detect := c.detect;
      cache.dp := next;
    }
  }

  // The failing group changes places with the next one: it was not known to fail, lies in front of it, and
  // has failed more often.
  ghost predicate Overtakes(levels: map<Group, Level>, dp: Group, next: Group?, pri: int, nextPri: int,
                            cached: set<nat>, front: set<nat>) {
    && next != null && dp.id !in cached && next in levels && levels[next].auto.sort && pri > nextPri
    && dp.id in front
  }

  // The entry of the address remembers the next group and what has been masked, or forgets.
  ghost predicate Remembers(dp: Group?, mask: set<nat>, detect: set<nat>, next: Group?, head: Group?, mask0: set<nat>,
                            marked: set<nat>, kind: set<nat>) {
    if next == null then dp == head && mask == {} && detect == {}
    else dp == next && mask == mask0 + marked && detect == kind
  }

  // When a failure ends in a new connection.
  ghost predicate Resumes(order: seq<Group>, levels: map<Group, Level>, dp: Group, mask: set<nat>, kind: set<nat>,
                          can: bool, next: Group?, fits: nat -> bool, connects: bool) {
    && can && connects && next != null && next in levels && !levels[next].auto.noReconn
    && Usable(order, levels, dp, mask, kind, fits)
  }

  // What is tried next is settled and remembered.
  method GoOn(p: Params, c: Client, kind: set<nat>, can: bool, cache: Entry) returns (again: bool, ghost next: Group?,
              ghost swopped: bool, ghost i: int, ghost j: nat)
    requires p.Valid() && p.order != [] && c.On(p) && Bounded(c.dp, c.mask, c.reconnects) && c.dp != null && cache.On(p)
    modifies p, p.all`next, p.all`prev, p.all`detect, p.all`auto, c.dp`pri, c.dp`failCount, c`mask, c`detect, cache
    ensures p.all == old(p.all) && p.fullMask == old(p.fullMask)
    ensures p.Valid() && p.order != [] && c.On(p) && Bounded(c.dp, c.mask, c.reconnects)
    ensures cache.On(p) && c.detect == kind && j <= |old(p.order)| && c.dp in p.order
    ensures c.mask == old(c.mask) + {c.dp.id} + Ids(old(p.order)[..j])
    ensures Aimed(old(p.order), old(p.levels), old(c.mask) + {c.dp.id}, kind, can, j, next)
    ensures Moved(p.order, old(p.order), swopped, i, j) && InPlace(p.order, p.levels, old(p.order), old(p.levels))
    ensures swopped ==> old(p.order)[i] == c.dp
    ensures swopped <==>
      Overtakes(old(p.levels), c.dp, next, old(c.dp.pri), if next == null then 0 else old(p.order[j].pri),
                old(cache.mask), Ids(old(p.order)[..j]))
    ensures c.dp.failCount == old(c.dp.failCount) + 1
    ensures c.dp.pri == old(c.dp.pri) + if c.dp.id in old(cache.mask) then 0 else 1
    ensures Remembers(cache.dp, cache.mask, cache.detect, next, p.dp, old(cache.mask),
                      old(c.mask) + {c.dp.id} + Ids(old(p.order)[..j]), kind)
    ensures again <==> can && next != null && next in p.levels && !p.levels[next].auto.noReconn
  {
    hide Aimed;
    hide Ids;
    var on;
    on, swopped, i, j := Settle(p, c, kind, can, cache.mask);
    next := on;
    Remember(p, c, cache, on);
    if on != null {
      assert p.levels[on] == Level(on.detect, on.auto);
    }
    again := on != null && !on.auto.noReconn && can;
  }

  method Fail(p: Params, c: Client, kind: set<nat>, can: bool, cache: Entry, fits: nat -> bool, connects: bool)
    returns (r: int, ghost next: Group?, ghost swopped: bool, ghost i: int, ghost j: nat, ghost k: nat)
    requires p.Valid() && p.order != [] && c.On(p) && Bounded(c.dp, c.mask, c.reconnects) && c.dp != null && cache.On(p)
    modifies p, p.all`next, p.all`prev, p.all`detect, p.all`auto, c.dp`pri, c.dp`failCount, c, cache
    ensures p.all == old(p.all) && p.fullMask == old(p.fullMask)
    ensures p.Valid() && p.order != [] && c.On(p) && Bounded(c.dp, c.mask, c.reconnects) && c.dp != null
    ensures cache.On(p) && c.detect == kind && j <= |old(p.order)| && old(c.mask) + {old(c.dp).id} <= c.mask
    ensures old(c.dp) in p.order
    ensures Aimed(old(p.order), old(p.levels), old(c.mask) + {old(c.dp).id}, kind, can, j, next)
    ensures Moved(p.order, old(p.order), swopped, i, j) && InPlace(p.order, p.levels, old(p.order), old(p.levels))
    ensures swopped ==> old(p.order)[i] == old(c.dp)
    ensures swopped <==>
      Overtakes(old(p.levels), old(c.dp), next, old(c.dp.pri), if next == null then 0 else old(p.order[j].pri),
                old(cache.mask), Ids(old(p.order)[..j]))
    ensures old(c.dp).failCount == old(c.dp.failCount) + 1
    ensures old(c.dp).pri == old(c.dp.pri) + if old(c.dp).id in old(cache.mask) then 0 else 1
    ensures Remembers(cache.dp, cache.mask, cache.detect, next, p.dp, old(cache.mask),
                      old(c.mask) + {old(c.dp).id} + Ids(old(p.order)[..j]), kind)
    ensures var mask := old(c.mask) + {old(c.dp).id} + Ids(old(p.order)[..j]);
      && (r == 0 <==> Resumes(p.order, p.levels, old(c.dp), mask, kind, can, next, fits, connects))
      && (r == 0 ==> Sought(p, old(c.dp), mask, kind, fits, k, true, c.dp, c.mask))
    ensures r == 0 ==> c.dp.id !in c.mask && c.reconnects == old(c.reconnects) + 1
    ensures r != 0 ==> c.reconnects == old(c.reconnects)
  {
    hide Bounded;
    hide Ids;
    hide Aimed;
    hide Usable;
    hide InPlace;
    hide Overtakes;
    hide Remembers;
    hide Search;
    hide Takes;
    hide Params.Valid;
    var again;
    again, next, swopped, i, j := GoOn(p, c, kind, can, cache);
    r, k := -1, 0;
    if again {
      r, k := Reconnect(p, c, fits, connects);
    }
  }

  // The next group can be used if it fits and the list has not changed.
  lemma NextUsable(order: seq<Group>, levels: map<Group, Level>, dp: Group, mask: set<nat>, kind: set<nat>, can: bool,
                   k: int, next: Group, fits: nat -> bool)
    requires Distinct(order) && Aimed(order, levels, mask, kind, can, k, next) && fits(next.id)
    ensures Usable(order, levels, dp, mask + Ids(order[..k]), kind, fits)
  {
    forall i | 0 <= i < k
      ensures order[i].id != next.id
    {
      Apart(order, i, k);
    }
    assert next.id !in Ids(order[..k]);
    assert Takes(levels, next, dp, mask + Ids(order[..k]), kind, fits);
  }

  // on_trigger; `cache` is the entry of the address, or null when there is no memory for one.
  method OnTrigger(p: Params, c: Client, kind: set<nat>, can: bool, cache: Entry?, fits: nat -> bool, connects: bool)
    returns (r: int, ghost next: Group?, ghost swopped: bool, ghost i: int, ghost j: nat, ghost k: nat)
    requires p.Valid() && p.order != [] && c.On(p) && Bounded(c.dp, c.mask, c.reconnects) && c.dp != null
    requires cache != null ==> cache.On(p)
    modifies p, p.all`next, p.all`prev, p.all`detect, p.all`auto, c.dp`pri, c.dp`failCount, c, cache
    ensures p.all == old(p.all) && p.fullMask == old(p.fullMask)
    ensures p.Valid() && p.order != [] && c.On(p) && Bounded(c.dp, c.mask, c.reconnects) && c.dp != null
    ensures cache != null ==> cache.On(p) && old(c.mask) + {old(c.dp).id} <= c.mask
    ensures old(c.mask) <= c.mask
    // The list changes by one exchange at most, of the failing group with one behind it.
    ensures Moved(p.order, old(p.order), swopped, i, j) && InPlace(p.order, p.levels, old(p.order), old(p.levels))
    ensures swopped ==> old(p.order)[i] == old(c.dp)
    // Which group is next, when the two are exchanged, and what the entry remembers.
    ensures j <= |old(p.order)| && (cache != null ==>
      Aimed(old(p.order), old(p.levels), old(c.mask) + {old(c.dp).id}, kind, can, j, next))
    ensures cache != null ==> (swopped <==>
      Overtakes(old(p.levels), old(c.dp), next, old(c.dp.pri), if next == null then 0 else old(p.order[j].pri),
                old(cache.mask), Ids(old(p.order)[..j])))
    ensures cache != null ==>
      && old(c.dp).failCount == old(c.dp.failCount) + 1
      && old(c.dp).pri == old(c.dp.pri) + (if old(c.dp).id in old(cache.mask) then 0 else 1)
      && Remembers(cache.dp, cache.mask, cache.detect, next, p.dp, old(cache.mask),
                   old(c.mask) + {old(c.dp).id} + Ids(old(p.order)[..j]), kind)
    // There is a new connection if and only if it may be made, the next group does not forbid it, and some
    // group can be used in the list as it is now: the first such one after the failing group.
    ensures old(c.dp) in p.order
    ensures var mask := old(c.mask) + {old(c.dp).id} + Ids(old(p.order)[..j]);
      && (r == 0 <==>
            cache != null && Resumes(p.order, p.levels, old(c.dp), mask, kind, can, next, fits, connects))
      && (r == 0 ==> Sought(p, old(c.dp), mask, kind, fits, k, true, c.dp, c.mask))
    ensures r == 0 ==> c.dp.id !in c.mask && c.reconnects == old(c.reconnects) + 1
    ensures r != 0 ==> c.reconnects == old(c.reconnects)
    // Where nothing is exchanged it is enough that the next group fits.
    ensures cache != null && can && connects && next != null && !swopped && fits(next.id) ==>
      (r == 0 <==> next in p.levels && !p.levels[next].auto.noReconn)
  {
    hide Bounded;
    hide Usable;
    r, next, swopped, i, j, k := -1, null, false, 0, 0, 0;
    if cache == null {
      Unmoved(p.order, p.levels);
    } else {
      ghost var order, levels, dp, mask := p.order, p.levels, c.dp, c.mask + {c.dp.id};
      r, next, swopped, i, j, k := Fail(p, c, kind, can, cache, fits, connects);
      if next != null && !swopped && fits(next.id) {
        SameLevels(order, p.levels, levels);
        NextUsable(order, levels, dp, mask, kind, can, j, next, fits);
      }
    }
  }

  lemma SameLevels(order: seq<Group>, levels: map<Group, Level>, levels0: map<Group, Level>)
    requires InPlace(order, levels, order, levels0) && levels.Keys == levels0.Keys == Elems(order)
    ensures levels == levels0
  {
    forall g | g in levels
      ensures levels[g] == levels0[g]
    {
      var i :| 0 <= i < |order| && order[i] == g;
      assert SameLevel(order, levels, order, levels0, i);
    }
  }

  // A group that is masked, or that the response does not set off.
  ghost predicate Unmoving(order: seq<Group>, levels: map<Group, Level>, mask: set<nat>, hits: set<nat> -> bool,
                           m: int) {
    0 <= m < |order| ==> order[m].id in mask || (order[m] in levels && !hits(levels[order[m]].detect))
  }

  // The first group that the response sets off; `hits` says which of the detections it does.
  method FirstHit(p: Params, mask: set<nat>, hits: set<nat> -> bool) returns (dp: Group?, ghost k: nat)
    requires p.Valid()
    ensures dp == At(p.order, k) && k <= |p.order|
    ensures forall m {:trigger Unmoving(p.order, p.levels, mask, hits, m)} :: m < k ==>
      Unmoving(p.order, p.levels, mask, hits, m)
    ensures dp != null ==> !Unmoving(p.order, p.levels, mask, hits, k)
  {
    dp, k := p.dp, 0;
    while dp != null
      invariant 0 <= k <= |p.order| && dp == At(p.order, k)
      invariant forall m {:trigger Unmoving(p.order, p.levels, mask, hits, m)} :: m < k ==>
        Unmoving(p.order, p.levels, mask, hits, m)
      decreases |p.order| - k
    {
      assert dp in p.all && p.levels[dp] == Level(dp.detect, dp.auto);
      if dp.id !in mask && hits(dp.detect) {
        return;
      }
      assert Linked(p.order, p.nexts, p.prevs, k) && p.nexts[dp] == dp.next;
      dp := dp.next;
      k := k + 1;
    }
  }

  // on_response: the first group that the response sets off makes it a failure.
  method OnResponse(p: Params, c: Client, hits: set<nat> -> bool, can: bool, cache: Entry?, fits: nat -> bool,
                    connects: bool)
    returns (r: int, ghost k: nat, ghost next: Group?, ghost swopped: bool, ghost i: int, ghost j: nat, ghost n: nat)
    requires p.Valid() && p.order != [] && c.On(p) && Bounded(c.dp, c.mask, c.reconnects) && c.dp != null
    requires cache != null ==> cache.On(p)
    modifies p, p.all, c, cache
    ensures p.all == old(p.all) && p.fullMask == old(p.fullMask)
    ensures p.Valid() && |p.order| == old(|p.order|) && c.On(p) && Bounded(c.dp, c.mask, c.reconnects) && c.dp != null
    ensures cache != null ==> cache.On(p)
    ensures old(c.mask) + {old(c.dp).id} <= c.mask
    ensures var mask := old(c.mask) + {old(c.dp).id};
      forall m {:trigger Unmoving(old(p.order), old(p.levels), mask, hits, m)} :: m < k ==>
        Unmoving(old(p.order), old(p.levels), mask, hits, m)
    ensures k < |old(p.order)| ==> !Unmoving(old(p.order), old(p.levels), old(c.mask) + {old(c.dp).id}, hits, k)
    ensures k >= |old(p.order)| ==> r != 0 && !swopped && c.dp == old(c.dp)
    ensures Moved(p.order, old(p.order), swopped, i, j) && InPlace(p.order, p.levels, old(p.order), old(p.levels))
    ensures swopped ==> old(p.order)[i] == old(c.dp)
    // It is then a failure of the kind that group looks for.
    ensures k < |old(p.order)| ==> old(p.order)[k] in old(p.levels) && j <= |old(p.order)| && old(c.dp) in p.order
    ensures k < |old(p.order)| ==>
      var mask, kind := old(c.mask) + {old(c.dp).id}, old(p.levels)[old(p.order)[k]].detect;
      && (cache != null ==>
            && Aimed(old(p.order), old(p.levels), mask, kind, can, j, next)
            && Remembers(cache.dp, cache.mask, cache.detect, next, p.dp, old(cache.mask),
                         mask + Ids(old(p.order)[..j]), kind))
      && (r == 0 <==>
            && cache != null
            && Resumes(p.order, p.levels, old(c.dp), mask + Ids(old(p.order)[..j]), kind, can, next, fits, connects))
      && (r == 0 ==> Sought(p, old(c.dp), mask + Ids(old(p.order)[..j]), kind, fits, n, true, c.dp, c.mask))
    ensures r == 0 ==> c.dp.id !in c.mask && c.reconnects == old(c.reconnects) + 1
    ensures r != 0 ==> c.reconnects == old(c.reconnects)
  {
    hide Unmoving;
    hide InPlace;
    hide Listed;
    hide Bounded;
    assert c.dp.id in p.fullMask;
    BoundKept(c.dp, c.mask, c.reconnects, c.dp, c.mask + {c.dp.id});
    c.mask := c.mask + {c.dp.id};
    var dp;
    dp, k := FirstHit(p, c.mask, hits);
    r, next, swopped, i, j, n := -1, null, false, 0, 0, 0;
    if dp != null {
      r, next, swopped, i, j, n := OnTrigger(p, c, dp.detect, can, cache, fits, connects);
    } else {
      Unmoved(p.order, p.levels);
    }
  }

  // ---- Whole runs ---------------------------------------------------------------

  datatype Event =
    | Connect(who: nat, entry: nat, fits: nat -> bool, connects: bool)
    | Setup(who: nat, fits: nat -> bool)
    | Failure(who: nat, kind: set<nat>, can: bool, entry: nat, fits: nat -> bool, connects: bool)
    | Response(who: nat, hits: set<nat> -> bool, can: bool, entry: nat, fits: nat -> bool, connects: bool)

  ghost predicate ClientFine(p: Params, c: Client)
    reads p`all, p`fullMask, c
  {
    c.On(p) && Bounded(c.dp, c.mask, c.reconnects)
  }

  ghost predicate AllFine(p: Params, clients: seq<Client>, entries: seq<Entry>)
    reads p`all, p`fullMask, set c | c in clients, set e | e in entries
  {
    && (forall c {:trigger ClientFine(p, c)} :: c in clients ==> ClientFine(p, c))
    && (forall e {:trigger EntryFine(p, e)} :: e in entries ==> EntryFine(p, e))
  }

  ghost predicate EntryFine(p: Params, e: Entry)
    reads p`all, p`fullMask, e
  {
    e.On(p)
  }

  // One event; `again` says that the connection has been made again.
  method Occur(p: Params, c: Client, cache: Entry?, ev: Event) returns (again: bool)
    requires p.Valid() && p.order != [] && ClientFine(p, c) && (cache != null ==> cache.On(p))
    modifies p, p.all, c, cache
    ensures p.all == old(p.all) && p.fullMask == old(p.fullMask) && |p.order| == old(|p.order|)
    ensures p.Valid() && ClientFine(p, c) && (cache != null ==> cache.On(p))
    ensures c.reconnects == old(c.reconnects) + if again then 1 else 0
  {
    hide Bounded;
    hide Ids;
    hide Search;
    again := false;
    if ev.Connect? {
      ghost var found, k, dp0, mask0;
      var r;
      r, found, k, dp0, mask0 := ConnectHook(p, c, cache, ev.fits, ev.connects);
    } else if c.dp != null {
      if ev.Setup? {
        ghost var k;
        var r;
        r, k := SetupConn(p, c, ev.fits);
      } else {
        again := Fall(p, c, cache, ev);
      }
    }
  }

  // A failure, or a response that may be one.
  method Fall(p: Params, c: Client, cache: Entry?, ev: Event) returns (again: bool)
    requires p.Valid() && p.order != [] && ClientFine(p, c) && (cache != null ==> cache.On(p)) && c.dp != null
    requires ev.Failure? || ev.Response?
    modifies p, p.all, c, cache
    ensures p.all == old(p.all) && p.fullMask == old(p.fullMask) && |p.order| == old(|p.order|)
    ensures p.Valid() && ClientFine(p, c) && (cache != null ==> cache.On(p))
    ensures c.reconnects == old(c.reconnects) + if again then 1 else 0
  {
    hide InPlace;
    ghost var next, swopped, i, j, k, n;
    var r;
    if ev.Failure? {
      r, next, swopped, i, j, k := OnTrigger(p, c, ev.kind, ev.can, cache, ev.fits, ev.connects);
    } else {
      r, k, next, swopped, i, j, n := OnResponse(p, c, ev.hits, ev.can, cache, ev.fits, ev.connects);
    }
    again := r == 0;
  }

  ghost predicate AllApart(clients: seq<Client>) {
    forall i, j {:trigger OtherThan(clients, i, j)} :: OtherThan(clients, i, j)
  }

  ghost predicate OtherThan(clients: seq<Client>, i: int, j: int) {
    0 <= i < j < |clients| ==> clients[i] != clients[j]
  }

  // An event on the connection `c`, as connection `x` sees it.
  method OccurOn(p: Params, clients: seq<Client>, entries: seq<Entry>, c: Client, cache: Entry?, ev: Event,
                 ghost x: Client) returns (again: bool)
    requires p.Valid() && p.order != [] && AllFine(p, clients, entries)
    requires c in clients && x in clients && (cache == null || cache in entries)
    modifies p, p.all, c, cache
    ensures p.all == old(p.all) && p.fullMask == old(p.fullMask) && |p.order| == old(|p.order|)
    ensures p.Valid() && AllFine(p, clients, entries)
    ensures x.reconnects == old(x.reconnects) + if again && x == c then 1 else 0
  {
    hide Bounded;
    assert ClientFine(p, c) && (cache != null ==> EntryFine(p, cache));
    hide Listed;
    hide ClientFine;
    again := Occur(p, c, cache, ev);
    assert cache != null ==> EntryFine(p, cache);
    hide EntryFine;
    forall y | y in clients
      ensures ClientFine(p, y)
    {
      if y != c { assert old(ClientFine(p, y)); }
    }
    forall e | e in entries
      ensures EntryFine(p, e)
    {
      if e != cache { assert old(EntryFine(p, e)); }
    }
  }

  // An event on one of many connections, as connection `i` sees it.
  method OccurIn(p: Params, clients: seq<Client>, entries: seq<Entry>, ev: Event, ghost i: nat) returns (again: bool)
    requires p.Valid() && p.order != [] && AllFine(p, clients, entries) && AllApart(clients) && i < |clients|
    modifies p, p.all, set c | c in clients, set e | e in entries
    ensures p.all == old(p.all) && p.fullMask == old(p.fullMask) && |p.order| == old(|p.order|)
    ensures p.Valid() && AllFine(p, clients, entries)
    ensures clients[i].reconnects == old(clients[i].reconnects) + if again && ev.who == i then 1 else 0
  {
    again := false;
    if ev.who < |clients| {
      var cache: Entry? := null;
      if !ev.Setup? && ev.entry < |entries| {
        cache := entries[ev.entry];
      }
      assert OtherThan(clients, i, ev.who) && OtherThan(clients, ev.who, i);
      hide AllFine;
      hide Listed;
      again := OccurOn(p, clients, entries, clients[ev.who], cache, ev, clients[i]);
    }
  }

  lemma AllFewer(p: Params, clients: seq<Client>, entries: seq<Entry>)
    requires p.Valid() && p.order != [] && AllFine(p, clients, entries)
    ensures forall i :: 0 <= i < |clients| ==> clients[i].reconnects < |p.order|
  {
    forall i | 0 <= i < |clients|
      ensures clients[i].reconnects < |p.order|
    {
      var c := clients[i];
      assert c in clients && ClientFine(p, c);
      if c.dp != null { FewerReconnects(p.order, c.dp, c.mask, c.reconnects); }
    }
  }

  // How often connection `i` has been made again.
  ghost function Count(events: seq<Event>, again: seq<bool>, i: nat): nat
    requires |again| <= |events|
    decreases |again|
  {
    if again == [] then 0 else
      var k := |again| - 1;
      Count(events, again[..k], i) + if again[k] && events[k].who == i then 1 else 0
  }

  lemma CountOn(events: seq<Event>, again: seq<bool>, b: bool, i: nat)
    requires |again| < |events|
    ensures Count(events, again + [b], i) == Count(events, again, i) + if b && events[|again|].who == i then 1 else 0
  {
    assert (again + [b])[..|again|] == again;
  }

  // Every run of any number of connections over one list of groups: the list stays whole, and no
  // connection `i` is made again as often as there are groups.
  method Live(p: Params, clients: seq<Client>, entries: seq<Entry>, events: seq<Event>, ghost i: nat)
    returns (again: seq<bool>)
    requires p.Valid() && p.order != [] && AllFine(p, clients, entries) && AllApart(clients) && i < |clients|
    modifies p, p.all, set c | c in clients, set e | e in entries
    ensures p.Valid() && p.all == old(p.all) && p.fullMask == old(p.fullMask) && |p.order| == old(|p.order|)
    ensures |again| == |events| && clients[i].reconnects == old(clients[i].reconnects) + Count(events, again, i)
    ensures Count(events, again, i) <= clients[i].reconnects < |p.order|
  {
    again := [];
    hide Listed;
    hide Bounded;
    hide AllApart;
    hide ClientFine;
    for t := 0 to |events|
      invariant p.Valid() && AllFine(p, clients, entries)
      invariant p.all == old(p.all) && p.fullMask == old(p.fullMask) && |p.order| == old(|p.order|)
      invariant |again| == t && clients[i].reconnects == old(clients[i].reconnects) + Count(events, again, i)
    {
      var b := OccurIn(p, clients, entries, events[t], i);
      CountOn(events, again, b, i);
      again := again + [b];
    }
    AllFewer(p, clients, entries);
  }
}
