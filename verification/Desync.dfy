/**
 Sending one buffer in parts: the segment loop of `desync` in `desync.c` and its resumption by
 `on_tunnel` in `proxy.c`.

 The buffer has been rewritten already, and `gen_offset` gives a part the same position in every
 call. The socket is an oracle: for each part it says how the send of that part ends.
 */
module Desync {
  import opened Common

  // struct part; `start` is the OFFSET_START flag.
  datatype Part = Part(r: int, s: int, start: bool)

  // One turn of the loop: a part, or one repetition of it.
  datatype Item = Item(pos: int, start: bool)

  // How a send ends: all bytes accepted (`notsent`: some still queued), no slot for it (ERR_WAIT),
  // EAGAIN, fewer bytes than asked for, or an error.
  datatype Outcome = Whole(notsent: bool) | Busy | Again | Short(s: nat) | Dead

  function Min(a: int, b: int): int { if a < b then a else b }

  function Max(a: int, b: int): int { if a < b then b else a }

  // ---- The turns the loop makes -------------------------------------------------

  // Those left of a part when `r` repetitions are.
  ghost function Remaining(part: Part, base: int, r: int): seq<Item>
    decreases r
  {
    if r <= 0 then [] else [Item(base + part.s * (part.r - r), part.start)] + Remaining(part, base, r - 1)
  }

  // Those of the parts from `i` on.
  ghost function Turns(parts: seq<Part>, gen: nat -> int, i: nat): seq<Item>
    requires i <= |parts|
    decreases |parts| - i
  {
    if i == |parts| then [] else
      [Item(gen(i), parts[i].start)] + Remaining(parts[i], gen(i), parts[i].r - 1) + Turns(parts, gen, i + 1)
  }

  // The turns after the first `cur`, as the loop makes them.
  ghost predicate AtTurn(items: seq<Item>, parts: seq<Part>, gen: nat -> int, cur: int, part: Part, base: int, r: int,
                         i: nat)
    decreases |parts| - i, r
  {
    i <= |parts| &&
    if r > 0 then
      && 0 <= cur < |items| && items[cur] == Item(base + part.s * (part.r - r), part.start)
      && AtTurn(items, parts, gen, cur + 1, part, base, r - 1, i)
    else if i < |parts| then
      && 0 <= cur < |items| && items[cur] == Item(gen(i), parts[i].start)
      && AtTurn(items, parts, gen, cur + 1, parts[i], gen(i), parts[i].r - 1, i + 1)
    else
      cur == |items|
  }

  lemma {:induction false} TurnsAhead(items: seq<Item>, parts: seq<Part>, gen: nat -> int, cur: int, part: Part,
                                      base: int, r: int, i: nat)
    requires 0 <= cur <= |items| && i <= |parts| && items[cur..] == Remaining(part, base, r) + Turns(parts, gen, i)
    ensures AtTurn(items, parts, gen, cur, part, base, r, i)
    decreases |parts| - i, r
  {
    var rest := items[cur..];
    if r > 0 {
      assert rest == [Item(base + part.s * (part.r - r), part.start)] +
        (Remaining(part, base, r - 1) + Turns(parts, gen, i));
      assert rest[0] == items[cur] && rest[1..] == items[cur + 1..];
      TurnsAhead(items, parts, gen, cur + 1, part, base, r - 1, i);
    } else if i < |parts| {
      assert rest == [Item(gen(i), parts[i].start)] +
        (Remaining(parts[i], gen(i), parts[i].r - 1) + Turns(parts, gen, i + 1));
      assert rest[0] == items[cur] && rest[1..] == items[cur + 1..];
      TurnsAhead(items, parts, gen, cur + 1, parts[i], gen(i), parts[i].r - 1, i + 1);
    }
  }

  lemma TurnsDone(items: seq<Item>, parts: seq<Part>, gen: nat -> int, cur: int, part: Part, base: int, r: int, i: nat)
    requires AtTurn(items, parts, gen, cur, part, base, r, i) && r <= 0 && i >= |parts|
    ensures cur == |items|
  {
  }

  // The next part, when the repetitions of this one are over.
  method Fetch(ghost items: seq<Item>, parts: seq<Part>, gen: nat -> int, ghost cur: nat, part: Part, base: int,
               r: int, i: nat)
    returns (part': Part, base': int, r': int, i': nat, pos: int)
    requires AtTurn(items, parts, gen, cur, part, base, r, i) && (r > 0 || i < |parts|)
    ensures cur < |items| && items[cur] == Item(pos, part'.start)
    ensures AtTurn(items, parts, gen, cur + 1, part', base', r' - 1, i')
    ensures (r > 0 && i' == i && r' == r) || i' == i + 1 <= |parts|
  {
    part', base', r', i' := part, base, r, i;
    if r <= 0 {
      part', base', r', i' := parts[i], gen(i), parts[i].r, i + 1;
    }
    pos := base' + part'.s * (part'.r - r');
  }

  // ---- What a call may resume from ----------------------------------------------

  // The place the next call sends from: the part last counted as sent is not sent again.
  ghost function From(items: seq<Item>, n: int, offset: int, k: nat): int
    requires k <= |items|
  {
    if k == 0 then offset else Max(offset, Min(items[k - 1].pos, n))
  }

  ghost predicate Behind(items: seq<Item>, n: int, offset: int, lp: int, j: int) {
    0 <= j < |items| && items[j].start ==> Min(items[j].pos, n) <= lp && (offset == 0 ==> items[j].pos >= 0)
  }

  ghost predicate AllBehind(items: seq<Item>, n: int, offset: int, lp: int, k: int) {
    forall j {:trigger Behind(items, n, offset, lp, j)} :: j < k ==> Behind(items, n, offset, lp, j)
  }

  ghost predicate Resumable(items: seq<Item>, n: int, offset: int, k: nat) {
    && k <= |items| && 0 <= offset <= n && AllBehind(items, n, offset, offset, k - 1)
    && (k > 0 && offset == 0 ==> items[k - 1].pos >= 0)
  }

  ghost predicate NoStart(items: seq<Item>) {
    forall j {:trigger Fixed(items, j)} :: Fixed(items, j)
  }

  ghost predicate Fixed(items: seq<Item>, j: int) {
    0 <= j < |items| ==> !items[j].start
  }

  // What has been sent so far is what lies before the place to go on from; after a send that was
  // cut off, less than that.
  ghost predicate Sound(items: seq<Item>, buffer: seq<Byte>, offset: int, k: nat, out: seq<Byte>, intact: bool) {
    && Resumable(items, |buffer|, offset, k)
    && (intact ==> out == buffer[..offset] && From(items, |buffer|, offset, k) == offset)
    && (!intact && NoStart(items) ==> |out| < From(items, |buffer|, offset, k))
  }

  // ---- Inside a call ------------------------------------------------------------

  // `cur` turns made: before turn `skip` nothing is sent, from it on everything up to `lp` is.
  ghost predicate Mid(items: seq<Item>, buffer: seq<Byte>, offset: int, skip: nat, cur: nat, lp: int, k: nat,
                      out0: seq<Byte>, out: seq<Byte>) {
    && Resumable(items, |buffer|, offset, skip) && cur <= |items| && offset <= lp <= |buffer|
    && AllBehind(items, |buffer|, offset, lp, cur)
    && k <= |items| && (k <= cur || k == skip)
    && (cur < skip ==> lp == offset && out == out0)
    && (cur >= skip ==>
          var from := From(items, |buffer|, offset, skip); from <= lp && out == out0 + buffer[from..lp])
    && (cur < skip && k != skip ==> k > 0 && items[k - 1].start)
    && (k > 0 && (cur >= skip || k != skip) ==>
          Min(items[k - 1].pos, |buffer|) <= lp && (offset == 0 ==> items[k - 1].pos >= 0))
  }

  lemma MidStart(items: seq<Item>, buffer: seq<Byte>, offset: int, skip: nat, out: seq<Byte>)
    requires Resumable(items, |buffer|, offset, skip)
    ensures Mid(items, buffer, offset, skip, 0, offset, skip, out, out)
  {
  }

  // A turn that is passed over.
  lemma MidPass(items: seq<Item>, buffer: seq<Byte>, offset: int, skip: nat, cur: nat, lp: int, k: nat,
                out0: seq<Byte>, out: seq<Byte>)
    requires Mid(items, buffer, offset, skip, cur, lp, k, out0, out) && cur < |items|
    requires var it := items[cur];
      (((offset > 0 && it.pos < offset) || cur + 1 < skip) && !it.start) || (offset > 0 && it.pos < offset)
    ensures Mid(items, buffer, offset, skip, cur + 1, lp, k, out0, out)
  {
  }

  // A turn that moves on to its position, sent now or counted as sent before.
  lemma MidGo(items: seq<Item>, buffer: seq<Byte>, offset: int, skip: nat, cur: nat, lp: int, k: nat, out0: seq<Byte>,
              out: seq<Byte>)
    requires Mid(items, buffer, offset, skip, cur, lp, k, out0, out) && cur < |items|
    requires var it := items[cur];
      && !(((offset > 0 && it.pos < offset) || cur + 1 < skip) && !it.start) && !(offset > 0 && it.pos < offset)
      && 0 <= it.pos && lp <= it.pos
    ensures var pos := Min(items[cur].pos, |buffer|);
      && lp <= pos
      && Mid(items, buffer, offset, skip, cur + 1, pos, cur + 1, out0,
             if cur + 1 == skip then out else out + buffer[lp..pos])
      && (cur + 1 <= skip && From(items, |buffer|, offset, skip) == offset ==> pos == lp)
  {
    var n, pos, f := |buffer|, Min(items[cur].pos, |buffer|), From(items, |buffer|, offset, skip);
    assert cur + 1 < skip ==> Behind(items, n, offset, offset, cur);
    forall j | j < cur + 1
      ensures Behind(items, n, offset, pos, j)
    {
      assert Behind(items, n, offset, lp, j) || j == cur;
    }
    if cur >= skip {
      assert buffer[f..lp] + buffer[lp..pos] == buffer[f..pos];
    }
  }

  // Where the loop ends or the call returns with all it has counted sent.
  lemma MidStop(items: seq<Item>, buffer: seq<Byte>, offset: int, skip: nat, cur: nat, lp: int, k: nat,
                out0: seq<Byte>, out: seq<Byte>, intact: bool)
    requires Sound(items, buffer, offset, skip, out0, intact) && Mid(items, buffer, offset, skip, cur, lp, k, out0, out)
    requires cur >= skip || k != skip
    ensures Sound(items, buffer, lp, k, out, intact) && From(items, |buffer|, lp, k) == lp
    ensures cur >= skip && NoStart(items) ==> |out| <= lp
  {
    var n, f := |buffer|, From(items, |buffer|, offset, skip);
    forall j | j < k - 1
      ensures Behind(items, n, lp, lp, j)
    {
      assert Behind(items, n, offset, lp, j);
    }
    assert NoStart(items) ==> Fixed(items, k - 1);
    if intact && cur >= skip {
      assert buffer[..f] + buffer[f..lp] == buffer[..lp];
    }
  }

  // A send that takes `s` bytes of a longer part.
  lemma MidCut(items: seq<Item>, buffer: seq<Byte>, offset: int, skip: nat, cur: nat, lp: int, k: nat,
               out0: seq<Byte>, out: seq<Byte>, intact: bool, s: nat)
    requires Sound(items, buffer, offset, skip, out0, intact) && Mid(items, buffer, offset, skip, cur, lp, k, out0, out)
    requires cur < |items| && cur + 1 != skip && (cur + 1 < skip ==> items[cur].start)
    requires 0 <= items[cur].pos && s < Min(items[cur].pos, |buffer|) - lp
    ensures Sound(items, buffer, lp + s, cur + 1, out + buffer[lp..lp + s], false)
  {
    var n, o := |buffer|, lp + s;
    assert NoStart(items) ==> Fixed(items, cur);
    forall j | j < cur
      ensures Behind(items, n, o, o, j)
    {
      assert Behind(items, n, offset, lp, j);
    }
  }

  // The conditions under which the loop passes a turn over; the call began at `offset`.
  predicate PassedOver(pos: int, start: bool, turn: nat, offset: nat, skip: nat) {
    (((offset > 0 && pos < offset) || turn < skip) && !start) || (offset > 0 && pos < offset)
  }

  ghost predicate AllWhole(socket: nat -> Outcome) {
    forall k :: socket(k).Whole?
  }

  // Whole, and nothing left in the queue.
  ghost predicate AllQuiet(socket: nat -> Outcome) {
    forall k :: socket(k) == Whole(false)
  }

  ghost predicate EveryWhole(sockets: seq<nat -> Outcome>) {
    forall c :: 0 <= c < |sockets| ==> AllWhole(sockets[c])
  }

  ghost predicate EveryQuiet(sockets: seq<nat -> Outcome>) {
    forall c :: 0 <= c < |sockets| ==> AllQuiet(sockets[c])
  }

  datatype Progress = Done | Later | Closed

  // A send of the bytes from `lo` to `hi`, of which `taken` are accepted, for a turn of the loop by its
  // number or, as number 0, for the bytes after the last part.
  datatype Send = Send(lo: int, hi: int, taken: nat, part: nat)

  ghost function Bytes(buffer: seq<Byte>, e: Send): seq<Byte> {
    if 0 <= e.lo <= e.lo + e.taken <= |buffer| then buffer[e.lo..e.lo + e.taken] else []
  }

  // The bytes that the sends have got across.
  ghost function Gathered(buffer: seq<Byte>, sends: seq<Send>): seq<Byte> {
    if sends == [] then [] else
      Gathered(buffer, sends[..|sends| - 1]) + Bytes(buffer, sends[|sends| - 1])
  }

  lemma GatheredOn(buffer: seq<Byte>, sends: seq<Send>, e: Send)
    ensures Gathered(buffer, sends + [e]) == Gathered(buffer, sends) + Bytes(buffer, e)
  {
    hide Bytes;
    assert (sends + [e])[..|sends|] == sends;
  }

  // How many of `len` bytes are accepted.
  function Accepted(o: Outcome, len: nat): (s: nat)
    ensures s <= len && (o.Whole? ==> s == len)
  {
    match o
    case Whole(_) => len
    case Short(s) => Min(s, len)
    case _ => 0
  }

  // After a part of which `s` bytes have been accepted.
  lemma PartSound(items: seq<Item>, buffer: seq<Byte>, offset: int, skip: nat, cur: nat, lp: int, k: nat,
                  out0: seq<Byte>, out: seq<Byte>, intact: bool, s: nat) returns (out': seq<Byte>, intact': bool)
    requires Sound(items, buffer, offset, skip, out0, intact) && Mid(items, buffer, offset, skip, cur, lp, k, out0, out)
    requires cur < |items| && !PassedOver(items[cur].pos, items[cur].start, cur + 1, offset, skip)
    requires lp <= items[cur].pos
    requires lp + s <= Min(items[cur].pos, |buffer|) && (cur + 1 == skip ==> lp + s == Min(items[cur].pos, |buffer|))
    ensures out' == (if cur + 1 == skip then out else out + buffer[lp..lp + s])
    ensures intact' == (intact && lp + s == Min(items[cur].pos, |buffer|))
    ensures Sound(items, buffer, lp + s, cur + 1, out', intact')
    ensures lp + s == Min(items[cur].pos, |buffer|) ==>
      Mid(items, buffer, offset, skip, cur + 1, lp + s, cur + 1, out0, out')
  {
    var pos := Min(items[cur].pos, |buffer|);
    out', intact' := if cur + 1 == skip then out else out + buffer[lp..lp + s], intact && lp + s == pos;
    if lp + s < pos {
      MidCut(items, buffer, offset, skip, cur, lp, k, out0, out, intact, s);
    } else {
      MidGo(items, buffer, offset, skip, cur, lp, k, out0, out);
      MidStop(items, buffer, offset, skip, cur + 1, pos, cur + 1, out0, out', intact);
    }
  }

  // How a turn ends: the loop goes on, is left, or the call returns.
  datatype End = On | Left | Returned(wait: bool)

  // ---- What becomes of a call, from what the socket answers ---------------------

  // How a turn or a call ends, the place it gets to (negative if the connection is lost), the part
  // counted as sent last, whether a send was cut short, and the sends that were made.
  datatype Play = Play(end: End, at: int, k: nat, cut: bool, sends: seq<Send>)

  function After(head: seq<Send>, p: Play): Play {
    p.(sends := head + p.sends)
  }

  lemma AfterSends(head: seq<Send>, p: Play)
    ensures After(head, p).sends == head + p.sends
    ensures After(head, p).end == p.end && After(head, p).at == p.at && After(head, p).k == p.k
    ensures After(head, p).cut == p.cut
  {
  }

  lemma AfterTwo(a: seq<Send>, b: seq<Send>, p: Play)
    ensures After(a, After(b, p)) == After(a + b, p) && After([], p) == p
  {
    assert a + (b + p.sends) == a + b + p.sends && [] + p.sends == p.sends;
  }

  ghost function PlayTurn(it: Item, cur: nat, n: int, offset: nat, skip: nat, lp: int, k: nat, o: Outcome,
                          waitSend: bool): (p: Play)
    requires 0 <= lp <= n
    ensures p.at <= n && (p.at >= 0 ==> lp <= p.at) && (!p.end.Returned? ==> p.at >= 0 && !p.cut)
  {
    if PassedOver(it.pos, it.start, cur + 1, offset, skip) then Play(On, lp, k, false, [])
    else if it.pos < 0 || it.pos < lp then Play(Left, lp, k, false, [])
    else
      var pos, mine := Min(it.pos, n), cur + 1 != skip;
      var s := if mine then Accepted(o, pos - lp) else pos - lp;
      var wait := (mine && o.Busy?)
        || (s == pos - lp && ((o.Whole? && o.notsent) || (waitSend && cur + 1 > skip)));
      var sends := if mine then [Send(lp, pos, s, cur + 1)] else [];
      if wait || s != pos - lp || (mine && (o.Again? || o.Dead?)) then
        Play(Returned(wait), if mine && o.Dead? then -1 else lp + s, cur + 1, s != pos - lp, sends)
      else
        Play(On, pos, cur + 1, false, sends)
  }

  ghost function PlayLoop(items: seq<Item>, n: int, offset: nat, skip: nat, socket: nat -> Outcome, waitSend: bool,
                          cur: nat, lp: int, k: nat): (p: Play)
    requires cur <= |items| && 0 <= lp <= n
    ensures p.at <= n && (p.at >= 0 ==> lp <= p.at) && (!p.end.Returned? ==> p.at >= 0 && !p.cut && p.end == Left)
    decreases |items| - cur
  {
    if cur == |items| then Play(Left, lp, k, false, []) else
      var p := PlayTurn(items[cur], cur, n, offset, skip, lp, k, socket(cur + 1), waitSend);
      if p.end == On then After(p.sends, PlayLoop(items, n, offset, skip, socket, waitSend, cur + 1, p.at, p.k)) else p
  }

  // With a socket that takes everything the call is not cut off, and returns only to wait: where nothing is
  // left in its queue, only after a part that had not been counted.
  lemma {:induction false} PlayWhole(items: seq<Item>, n: int, offset: nat, skip: nat, socket: nat -> Outcome,
                                     waitSend: bool, cur: nat, lp: int, k: nat)
    requires cur <= |items| && 0 <= lp <= n && AllWhole(socket)
    ensures var p := PlayLoop(items, n, offset, skip, socket, waitSend, cur, lp, k);
      && p.at >= 0 && !p.cut && (p.end.Returned? ==> p.end.wait)
      && (AllQuiet(socket) && p.end.Returned? ==> waitSend && p.k > skip)
    decreases |items| - cur
  {
    if cur < |items| {
      var p := PlayTurn(items[cur], cur, n, offset, skip, lp, k, socket(cur + 1), waitSend);
      if p.end == On {
        PlayWhole(items, n, offset, skip, socket, waitSend, cur + 1, p.at, p.k);
      }
    }
  }

  ghost function PlayRest(lp: int, k: nat, n: int, o: Outcome): (p: Play)
    requires 0 <= lp <= n
    ensures p.at <= n && (p.at >= 0 ==> lp <= p.at) && p.end == Left
  {
    if lp == n then Play(Left, n, k, false, []) else
      var sends := [Send(lp, n, Accepted(o, n - lp), 0)];
      match o
      case Dead => Play(Left, -1, k, false, sends)
      case Whole(_) => Play(Left, n, k, false, sends)
      case Short(s) => Play(Left, n, k, s < n - lp, sends)
      case _ => Play(Left, lp, k, false, sends)
  }

  ghost function PlayCall(items: seq<Item>, n: int, offset: nat, skip: nat, socket: nat -> Outcome,
                          waitSend: bool): (p: Play)
    requires offset <= n
    ensures p.at <= n && (p.at >= 0 ==> offset <= p.at)
  {
    var p := PlayLoop(items, n, offset, skip, socket, waitSend, 0, offset, skip);
    if p.end.Returned? then p else After(p.sends, PlayRest(p.at, p.k, n, socket(0)))
  }

  datatype Plays = Plays(progress: Progress, cut: bool)

  // All the calls of on_tunnel for one buffer.
  ghost function PlayAll(items: seq<Item>, n: int, sockets: seq<nat -> Outcome>, waitSend: bool, offset: nat,
                         k: nat): Plays
    requires offset <= n
    decreases |sockets|
  {
    if sockets == [] then Plays(Later, false) else
      var p := PlayCall(items, n, offset, k, sockets[0], waitSend);
      if p.at < 0 then Plays(Closed, p.cut)
      else if p.at < n || (p.end.Returned? && p.end.wait) then
        var rest := PlayAll(items, n, sockets[1..], waitSend, p.at, p.k);
        Plays(rest.progress, p.cut || rest.cut)
      else Plays(Done, p.cut)
  }

  // ---- What is sent together ----------------------------------------------------

  // Only the last send of a call is for a part that had not been counted.
  ghost predicate OneNew(sends: seq<Send>, skip: nat) {
    forall i :: 0 <= i < |sends| - 1 ==> sends[i].part <= skip
  }

  // Taken whole, with nothing left in the queue.
  ghost predicate Clean(e: Send, socket: nat -> Outcome) {
    e.taken == e.hi - e.lo && socket(e.part) != Whole(true)
  }

  ghost predicate AllClean(sends: seq<Send>, socket: nat -> Outcome, m: int) {
    forall i :: 0 <= i < |sends| && i < m ==> Clean(sends[i], socket)
  }

  lemma CleanOn(head: seq<Send>, p: Play, socket: nat -> Outcome, m: int)
    requires AllClean(head, socket, |head|) && AllClean(p.sends, socket, m)
    ensures AllClean(After(head, p).sends, socket, |head| + m)
  {
  }

  lemma TurnClean(it: Item, cur: nat, n: int, offset: nat, skip: nat, lp: int, k: nat, socket: nat -> Outcome,
                  waitSend: bool)
    requires 0 <= lp <= n
    ensures var p := PlayTurn(it, cur, n, offset, skip, lp, k, socket(cur + 1), waitSend);
      |p.sends| <= 1 && (!p.end.Returned? ==> AllClean(p.sends, socket, |p.sends|))
  {
  }

  // A call goes no further after a send that did not go through.
  lemma {:induction false} PlayClean(items: seq<Item>, n: int, offset: nat, skip: nat, socket: nat -> Outcome,
                                     waitSend: bool, cur: nat, lp: int, k: nat)
    requires cur <= |items| && 0 <= lp <= n
    ensures var p := PlayLoop(items, n, offset, skip, socket, waitSend, cur, lp, k);
      AllClean(p.sends, socket, if p.end.Returned? then |p.sends| - 1 else |p.sends|)
    decreases |items| - cur
  {
    hide PlayTurn;
    hide Clean;
    if cur < |items| {
      var p := PlayTurn(items[cur], cur, n, offset, skip, lp, k, socket(cur + 1), waitSend);
      TurnClean(items[cur], cur, n, offset, skip, lp, k, socket, waitSend);
      if p.end == On {
        var q := PlayLoop(items, n, offset, skip, socket, waitSend, cur + 1, p.at, p.k);
        PlayClean(items, n, offset, skip, socket, waitSend, cur + 1, p.at, p.k);
        CleanOn(p.sends, q, socket, if q.end.Returned? then |q.sends| - 1 else |q.sends|);
      }
    }
  }

  ghost predicate EndsNew(sends: seq<Send>, skip: nat) {
    sends != [] && sends[|sends| - 1].part > skip
  }

  lemma {:induction false} PlayWaits(items: seq<Item>, n: int, offset: nat, skip: nat, socket: nat -> Outcome,
                                     cur: nat, lp: int, k: nat)
    requires cur <= |items| && 0 <= lp <= n
    ensures var p := PlayLoop(items, n, offset, skip, socket, true, cur, lp, k);
      && OneNew(p.sends, skip) && (!p.end.Returned? ==> !EndsNew(p.sends, skip))
      && (AllQuiet(socket) && p.end.Returned? ==> EndsNew(p.sends, skip))
    decreases |items| - cur
  {
    if cur < |items| {
      var p := PlayTurn(items[cur], cur, n, offset, skip, lp, k, socket(cur + 1), true);
      if p.end == On {
        PlayWaits(items, n, offset, skip, socket, cur + 1, p.at, p.k);
      }
    }
  }

  // A call that waits after each part sends one of them and goes no further; without, a quiet socket takes
  // everything that is left.
  lemma CallWaits(items: seq<Item>, n: int, offset: nat, skip: nat, socket: nat -> Outcome, waitSend: bool)
    requires offset <= n
    ensures var p := PlayCall(items, n, offset, skip, socket, waitSend);
      && (waitSend ==> OneNew(p.sends, skip)) && AllClean(p.sends, socket, |p.sends| - 1)
      && (AllQuiet(socket) ==> (p.end.Returned? <==> waitSend && EndsNew(p.sends, skip)))
      && (AllQuiet(socket) ==> if p.end.Returned? then p.end.wait else p.at == n)
  {
    hide PlayTurn;
    PlayWaits(items, n, offset, skip, socket, 0, offset, skip);
    PlayClean(items, n, offset, skip, socket, waitSend, 0, offset, skip);
    hide PlayLoop;
    hide Clean;
    if AllQuiet(socket) {
      PlayWhole(items, n, offset, skip, socket, waitSend, 0, offset, skip);
    }
  }

  // ---- Where the buffer is cut --------------------------------------------------

  // Positions that go up.
  ghost predicate Rising(items: seq<Item>, n: int) {
    && (forall j :: 0 <= j < |items| ==> 0 <= items[j].pos && (items[j].start ==> items[j].pos < n))
    && (forall i, j :: 0 <= i < j < |items| ==> items[i].pos < items[j].pos)
  }

  // Where the first `k` turns end.
  ghost function Edge(items: seq<Item>, n: nat, k: nat): (e: nat)
    requires Rising(items, n) && k <= |items|
    ensures e <= n
  {
    if k == 0 then 0 else Min(items[k - 1].pos, n)
  }

  // The stretches between the edges from `a` to `b`.
  ghost function Stretches(items: seq<Item>, n: nat, a: nat, b: nat): seq<Send>
    requires Rising(items, n) && b <= |items|
    decreases b - a
  {
    if a >= b then [] else
      var lo, hi := Edge(items, n, a), Edge(items, n, a + 1);
      assert a > 0 ==> items[a - 1].pos < items[a].pos;
      [Send(lo, hi, hi - lo, a + 1)] + Stretches(items, n, a + 1, b)
  }

  ghost function Remainder(items: seq<Item>, n: nat): seq<Send>
    requires Rising(items, n)
  {
    var e := Edge(items, n, |items|);
    if e < n then [Send(e, n, n - e, 0)] else []
  }

  lemma {:induction false} StretchesJoin(items: seq<Item>, n: nat, a: nat, b: nat, c: nat)
    requires Rising(items, n) && a <= b <= c <= |items|
    ensures Stretches(items, n, a, b) + Stretches(items, n, b, c) == Stretches(items, n, a, c)
    decreases b - a
  {
    hide Rising;
    hide Edge;
    if a < b { StretchesJoin(items, n, a + 1, b, c); }
  }

  // A turn that has been counted moves nothing,
  lemma TurnCounted(it: Item, cur: nat, n: nat, offset: nat, skip: nat, waitSend: bool)
    requires cur < skip && 0 <= offset <= n && 0 <= it.pos
    requires if cur + 1 < skip then !it.start || it.pos < offset else offset == Min(it.pos, n)
    ensures PlayTurn(it, cur, n, offset, skip, offset, skip, Whole(false), waitSend) ==
      Play(On, offset, skip, false, [])
  {
  }

  // and any other sends its stretch.
  lemma TurnNew(it: Item, cur: nat, n: nat, offset: nat, skip: nat, lp: nat, k: nat, waitSend: bool)
    requires cur >= skip && offset <= it.pos && lp <= it.pos && lp <= n
    ensures PlayTurn(it, cur, n, offset, skip, lp, k, Whole(false), waitSend) ==
      var hi := Min(it.pos, n);
      Play(if waitSend then Returned(true) else On, hi, cur + 1, false, [Send(lp, hi, hi - lp, cur + 1)])
  {
  }

  lemma TurnRising(items: seq<Item>, n: nat, skip: nat, waitSend: bool, cur: nat)
    requires Rising(items, n) && skip <= |items| && cur < |items|
    ensures var j := Max(skip, cur);
      PlayTurn(items[cur], cur, n, Edge(items, n, skip), skip, Edge(items, n, j), j, Whole(false), waitSend) ==
        if cur < skip then Play(On, Edge(items, n, skip), skip, false, [])
        else Play(if waitSend then Returned(true) else On, Edge(items, n, cur + 1), cur + 1, false,
                  Stretches(items, n, cur, cur + 1))
  {
    hide PlayTurn;
    if cur < skip {
      assert cur + 1 < skip ==> items[cur].pos < items[skip - 1].pos;
      TurnCounted(items[cur], cur, n, Edge(items, n, skip), skip, waitSend);
    } else {
      assert cur > 0 ==> items[cur - 1].pos < items[cur].pos;
      assert 0 < skip < cur ==> items[skip - 1].pos < items[cur].pos;
      assert Stretches(items, n, cur + 1, cur + 1) == [];
      TurnNew(items[cur], cur, n, Edge(items, n, skip), skip, Edge(items, n, cur), cur, waitSend);
    }
  }

  lemma LoopOn(items: seq<Item>, n: int, offset: nat, skip: nat, socket: nat -> Outcome, waitSend: bool, cur: nat,
               lp: int, k: nat)
    requires cur <= |items| && 0 <= lp <= n
    ensures PlayLoop(items, n, offset, skip, socket, waitSend, cur, lp, k) ==
      if cur == |items| then Play(Left, lp, k, false, []) else
        var p := PlayTurn(items[cur], cur, n, offset, skip, lp, k, socket(cur + 1), waitSend);
        if p.end != On then p
        else After(p.sends, PlayLoop(items, n, offset, skip, socket, waitSend, cur + 1, p.at, p.k))
  {
  }

  // What the loop comes to with a quiet socket from turn `j` on.
  ghost function Onward(items: seq<Item>, n: nat, waitSend: bool, j: nat): Play
    requires Rising(items, n) && j <= |items|
  {
    if waitSend && j < |items| then
      Play(Returned(true), Edge(items, n, j + 1), j + 1, false, Stretches(items, n, j, j + 1))
    else Play(Left, Edge(items, n, |items|), |items|, false, Stretches(items, n, j, |items|))
  }

  lemma OnwardNext(items: seq<Item>, n: nat, j: nat)
    requires Rising(items, n) && j < |items|
    ensures After(Stretches(items, n, j, j + 1), Onward(items, n, false, j + 1)) == Onward(items, n, false, j)
  {
    StretchesJoin(items, n, j, j + 1, |items|);
  }

  lemma {:induction false} PlayRising(items: seq<Item>, n: nat, skip: nat, socket: nat -> Outcome, waitSend: bool,
                                      cur: nat)
    requires Rising(items, n) && skip <= |items| && cur <= |items| && AllQuiet(socket)
    ensures var j := Max(skip, cur);
      PlayLoop(items, n, Edge(items, n, skip), skip, socket, waitSend, cur, Edge(items, n, j), j) ==
        Onward(items, n, waitSend, j)
    decreases |items| - cur
  {
    hide PlayTurn;
    hide Edge;
    hide Rising;
    hide After;
    var j := Max(skip, cur);
    LoopOn(items, n, Edge(items, n, skip), skip, socket, waitSend, cur, Edge(items, n, j), j);
    hide PlayLoop;
    if cur < |items| {
      TurnRising(items, n, skip, waitSend, cur);
      PlayRising(items, n, skip, socket, waitSend, cur + 1);
      if cur < skip {
        AfterTwo([], [], Onward(items, n, waitSend, skip));
      } else if !waitSend {
        OnwardNext(items, n, cur);
      }
    }
  }

  // One call after `k` turns.
  lemma CallRising(items: seq<Item>, n: nat, k: nat, socket: nat -> Outcome, waitSend: bool)
    requires Rising(items, n) && k <= |items| && AllQuiet(socket)
    ensures PlayCall(items, n, Edge(items, n, k), k, socket, waitSend) ==
      if waitSend && k < |items| then Onward(items, n, true, k)
      else Play(Left, n, |items|, false, Stretches(items, n, k, |items|) + Remainder(items, n))
  {
    hide PlayLoop;
    hide Stretches;
    hide Rising;
    PlayRising(items, n, k, socket, waitSend, 0);
  }

  // After `calls` calls that began behind the first `k0` turns.
  ghost predicate InStep(items: seq<Item>, n: nat, waitSend: bool, k0: nat, calls: nat, r: Progress, offset: int,
                         k: nat, sends: seq<Send>) {
    && Rising(items, n) && k0 <= k <= |items|
    && (r == Later ==>
          && offset == Edge(items, n, k) && sends == Stretches(items, n, k0, k)
          && if waitSend then calls == k - k0 else calls == 0)
    && (r != Later ==>
          && r == Done && sends == Stretches(items, n, k0, |items|) + Remainder(items, n)
          && calls == if waitSend then |items| - k0 + 1 else 1)
  }

  // Sockets that keep nothing queued, positions that go up, and a start behind the first `k` of them.
  ghost predicate Regular(items: seq<Item>, n: nat, sockets: seq<nat -> Outcome>, offset: int, k: nat) {
    EveryQuiet(sockets) && Rising(items, n) && k <= |items| && offset == Edge(items, n, k)
  }

  lemma InStepOn(items: seq<Item>, n: nat, waitSend: bool, k0: nat, calls: nat, offset: nat, k: nat, sends: seq<Send>,
                 socket: nat -> Outcome)
    requires InStep(items, n, waitSend, k0, calls, Later, offset, k, sends) && AllQuiet(socket)
    ensures offset <= n
    ensures var p := PlayCall(items, n, offset, k, socket, waitSend);
      && p.at >= 0
      && InStep(items, n, waitSend, k0, calls + 1, if p.at < n || (p.end.Returned? && p.end.wait) then Later else Done,
                p.at, p.k, sends + p.sends)
  {
    CallRising(items, n, k, socket, waitSend);
    StretchesJoin(items, n, k0, k, if waitSend && k < |items| then k + 1 else |items|);
    assert sends + (Stretches(items, n, k, |items|) + Remainder(items, n)) ==
      sends + Stretches(items, n, k, |items|) + Remainder(items, n);
  }

  class Sender {
    // What is to be sent, rewritten already.
    const buffer: seq<Byte>
    var offset: nat
    var roundSent: nat
    var partSent: nat
    // What the socket has accepted, and whether it took every part whole.
    var out: seq<Byte>
    var sends: seq<Send>
    ghost var intact: bool

    constructor (buffer: seq<Byte>)
      ensures this.buffer == buffer && intact && offset == 0 && partSent == 0 && sends == [] && out == []
      ensures forall items :: Ready(items)
    {
      this.buffer := buffer;
      this.offset, this.roundSent, this.partSent := 0, 0, 0;
      this.out, this.sends, this.intact := [], [], true;
    }

    ghost predicate Ready(items: seq<Item>)
      reads this
    {
      roundSent == offset && Sound(items, buffer, offset, partSent, out, intact) && Told()
    }

    // What has been accepted is what the sends have got across.
    ghost predicate Told()
      reads this`out, this`sends
    {
      out == Gathered(buffer, sends)
    }

    // One part: the send, and the place it gets to.
    method SendPart(ghost items: seq<Item>, cur: nat, skip: nat, lp: nat, pos: nat, o: Outcome, waitSend: bool,
                    ghost out0: seq<Byte>)
      returns (end: End, at: int)
      requires Sound(items, buffer, offset, skip, out0, intact)
      requires Mid(items, buffer, offset, skip, cur, lp, partSent, out0, out)
      requires cur < |items| && !PassedOver(items[cur].pos, items[cur].start, cur + 1, offset, skip)
      requires 0 <= items[cur].pos && lp <= items[cur].pos && pos == Min(items[cur].pos, |buffer|)
      requires Told()
      modifies this`partSent, this`out, this`sends, this`intact
      ensures Told()
      ensures end != Left && (end == On ==> Mid(items, buffer, offset, skip, cur + 1, at, partSent, out0, out))
      ensures end == On ==> intact == old(intact) && 0 <= at
      ensures end.Returned? && at >= 0 ==> offset <= at && Sound(items, buffer, at, partSent, out, intact)
      ensures var p := PlayTurn(items[cur], cur, |buffer|, offset, skip, lp, old(partSent), o, waitSend);
        && p.end == end && p.at == at && p.k == partSent && intact == (old(intact) && !p.cut)
        && sends == old(sends) + p.sends
    {
      hide Told;
      var mine := cur + 1 != skip;
      var s := if mine then Accepted(o, pos - lp) else pos - lp;
      Count(items, cur, skip, lp, pos, s, out0);
      end, at := On, lp + s;
      var wait := (mine && o.Busy?) || (s == pos - lp && ((o.Whole? && o.notsent) || (waitSend && cur + 1 > skip)));
      if wait || s != pos - lp || (mine && (o.Again? || o.Dead?)) {
        end := Returned(wait);
      }
      if mine && o.Dead? {
        at := -1;
      }
    }

    // A send.
    method Transmit(e: Send)
      requires Told() && 0 <= e.lo <= e.lo + e.taken <= |buffer|
      modifies this`out, this`sends
      ensures Told() && out == old(out) + buffer[e.lo..e.lo + e.taken] && sends == old(sends) + [e]
    {
      GatheredOn(buffer, sends, e);
      out, sends := out + buffer[e.lo..e.lo + e.taken], sends + [e];
    }

    // The part counts as sent, whatever of it was accepted.
    method Count(ghost items: seq<Item>, cur: nat, skip: nat, lp: nat, pos: nat, s: nat, ghost out0: seq<Byte>)
      requires Sound(items, buffer, offset, skip, out0, intact)
      requires Mid(items, buffer, offset, skip, cur, lp, partSent, out0, out)
      requires cur < |items| && !PassedOver(items[cur].pos, items[cur].start, cur + 1, offset, skip)
      requires lp <= items[cur].pos && pos == Min(items[cur].pos, |buffer|)
      requires lp + s <= pos && (cur + 1 == skip ==> lp + s == pos)
      requires Told()
      modifies this`partSent, this`out, this`sends, this`intact
      ensures Told()
      ensures Sound(items, buffer, lp + s, partSent, out, intact) && partSent == cur + 1
      ensures lp + s == pos ==> Mid(items, buffer, offset, skip, cur + 1, pos, partSent, out0, out)
      ensures intact == (old(intact) && lp + s == pos)
      ensures sends == old(sends) + if cur + 1 != skip then [Send(lp, pos, s, cur + 1)] else []
    {
      hide Sound;
      hide Mid;
      hide PassedOver;
      hide Told;
      ghost var out', intact' := PartSound(items, buffer, offset, skip, cur, lp, partSent, out0, out, intact, s);
      if cur + 1 != skip {
        Transmit(Send(lp, pos, s, cur + 1));
      }
      partSent, intact := cur + 1, intact';
    }

    // The bytes after the last part.
    method SendRest(ghost items: seq<Item>, lp: nat, o: Outcome) returns (at: int)
      requires Sound(items, buffer, lp, partSent, out, intact) && From(items, |buffer|, lp, partSent) == lp
      requires NoStart(items) ==> |out| <= lp
      requires Told()
      modifies this`out, this`sends, this`intact
      ensures Told()
      ensures at >= 0 ==> lp <= at && Sound(items, buffer, at, partSent, out, intact)
      ensures (at < 0 ==> o.Dead?) && (intact ==> old(intact))
      ensures o.Whole? ==> intact == old(intact) && at == |buffer|
      ensures var p := PlayRest(lp, partSent, |buffer|, o);
        at == p.at && intact == (old(intact) && !p.cut) && sends == old(sends) + p.sends
    {
      hide Gathered;
      assert lp <= |buffer|;
      hide Sound;
      hide Told;
      if lp < |buffer| {
        var s := Accepted(o, |buffer| - lp);
        SoundRest(items, buffer, lp, partSent, out, intact, s);
        assert s == 0 ==> out + buffer[lp..lp + s] == out;
        Transmit(Send(lp, |buffer|, s, 0));
        if o.Dead? {
          return -1;
        }
        if o.Busy? || o.Again? {
          return lp;
        }
        intact := intact && s == |buffer| - lp;
      }
      at := |buffer|;
    }

    // One turn: passed over, the end of the loop, or a part.
    method Turn(ghost items: seq<Item>, cur: nat, skip: nat, lp: nat, pos: int, start: bool, o: Outcome,
                waitSend: bool, ghost out0: seq<Byte>)
      returns (end: End, at: int)
      requires Sound(items, buffer, offset, skip, out0, intact)
      requires Mid(items, buffer, offset, skip, cur, lp, partSent, out0, out)
      requires cur < |items| && items[cur] == Item(pos, start) && roundSent == offset
      requires Told()
      modifies this`partSent, this`out, this`sends, this`intact
      ensures Told()
      ensures end == On ==> 0 <= at && Mid(items, buffer, offset, skip, cur + 1, at, partSent, out0, out)
      ensures end == Left ==> at == lp && cur >= skip && Mid(items, buffer, offset, skip, cur, at, partSent, out0, out)
      ensures end == On || end == Left ==> intact == old(intact)
      ensures end.Returned? && at >= 0 ==> offset <= at && Sound(items, buffer, at, partSent, out, intact)
      ensures var p := PlayTurn(items[cur], cur, |buffer|, offset, skip, lp, old(partSent), o, waitSend);
        && p.end == end && p.at == at && p.k == partSent && intact == (old(intact) && !p.cut)
        && sends == old(sends) + p.sends
    {
      hide Mid;
      hide Sound;
      var passed := (((roundSent > 0 && pos < roundSent) || cur + 1 < skip) && !start) || (offset > 0 && pos < offset);
      assert passed <==> PassedOver(pos, start, cur + 1, offset, skip);
      hide PassedOver;
      if passed {
        MidPass(items, buffer, offset, skip, cur, lp, partSent, out0, out);
        return On, lp;
      }
      if pos < 0 || pos < lp {
        MidBreak(items, buffer, offset, skip, cur, lp, partSent, out0, out);
        return Left, lp;
      }
      hide PlayTurn;
      end, at := SendPart(items, cur, skip, lp, Min(pos, |buffer|), o, waitSend, out0);
    }

    // The segment loop.
    method Loop(ghost items: seq<Item>, parts: seq<Part>, gen: nat -> int, socket: nat -> Outcome, waitSend: bool,
                skip: nat, ghost out0: seq<Byte>)
      returns (end: End, at: int, ghost cur: nat)
      requires AtTurn(items, parts, gen, 0, Part(0, 0, false), 0, 0, 0) && roundSent == offset
      requires offset <= |buffer| && skip <= |items|
      requires Sound(items, buffer, offset, skip, out0, intact)
      requires Mid(items, buffer, offset, skip, 0, offset, partSent, out0, out)
      requires Told()
      modifies this`partSent, this`out, this`sends, this`intact
      ensures Told()
      ensures end.Returned? && at >= 0 ==> offset <= at && Sound(items, buffer, at, partSent, out, intact)
      ensures !end.Returned? ==>
        at >= 0 && cur >= skip && Mid(items, buffer, offset, skip, cur, at, partSent, out0, out)
      ensures !end.Returned? ==> intact == old(intact)
      ensures var p := PlayLoop(items, |buffer|, offset, skip, socket, waitSend, 0, offset, old(partSent));
        && p.end == (if end.Returned? then end else Left) && p.at == at && p.k == partSent
        && intact == (old(intact) && !p.cut) && sends == old(sends) + p.sends
    {
      hide Mid;
      hide Sound;
      hide After;
      hide Told;
      hide PlayLoop;
      hide AtTurn;
      ghost var whole := PlayLoop(items, |buffer|, offset, skip, socket, waitSend, 0, offset, partSent);
      ghost var made: seq<Send> := [];
      AfterTwo([], [], whole);
      var turn, i, r := 0, 0, 0;
      var part, base := Part(0, 0, false), 0;
      end, at, cur := On, offset, 0;
      while r > 0 || i < |parts|
        invariant turn == cur && AtTurn(items, parts, gen, cur, part, base, r, i)
        invariant 0 <= at <= |buffer| && end == On && intact == old(intact) && cur <= |items|
        invariant Mid(items, buffer, offset, skip, cur, at, partSent, out0, out)
        invariant After(made, PlayLoop(items, |buffer|, offset, skip, socket, waitSend, cur, at, partSent)) == whole
        invariant sends == old(sends) + made && Told()
        decreases |parts| - i, r
      {
        ghost var extra;
        end, at, part, base, r, i, extra :=
          Advance(items, parts, gen, socket, waitSend, skip, out0, turn, at, part, base, r, i, whole, made);
        if end != On {
          return;
        }
        turn, cur, made := turn + 1, cur + 1, made + extra;
      }
      TurnsDone(items, parts, gen, cur, part, base, r, i);
      LoopOn(items, |buffer|, offset, skip, socket, waitSend, cur, at, partSent);
      AfterSends(made, PlayLoop(items, |buffer|, offset, skip, socket, waitSend, cur, at, partSent));
    }

    // The next turn of the loop, which comes to `whole`, after the sends `made`.
    method Advance(ghost items: seq<Item>, parts: seq<Part>, gen: nat -> int, socket: nat -> Outcome, waitSend: bool,
                   skip: nat, ghost out0: seq<Byte>, turn: nat, lp: int, part: Part, base: int, r: int, i: nat,
                   ghost whole: Play, ghost made: seq<Send>)
      returns (end: End, at: int, part': Part, base': int, r': int, i': nat, ghost extra: seq<Send>)
      requires Sound(items, buffer, offset, skip, out0, intact) && roundSent == offset && Told()
      requires AtTurn(items, parts, gen, turn, part, base, r, i) && (r > 0 || i < |parts|) && 0 <= lp <= |buffer|
      requires Mid(items, buffer, offset, skip, turn, lp, partSent, out0, out) && turn <= |items|
      requires After(made, PlayLoop(items, |buffer|, offset, skip, socket, waitSend, turn, lp, partSent)) == whole
      modifies this`partSent, this`out, this`sends, this`intact
      ensures Told() && sends == old(sends) + extra
      ensures (r > 0 && i' == i && r' == r - 1) || i' == i + 1 <= |parts|
      ensures end == On ==>
        && turn < |items| && AtTurn(items, parts, gen, turn + 1, part', base', r', i') && 0 <= at <= |buffer|
        && Mid(items, buffer, offset, skip, turn + 1, at, partSent, out0, out)
        && whole ==
           After(made + extra, PlayLoop(items, |buffer|, offset, skip, socket, waitSend, turn + 1, at, partSent))
      ensures end == Left ==>
        at >= 0 && turn >= skip && Mid(items, buffer, offset, skip, turn, at, partSent, out0, out)
      ensures !end.Returned? ==> intact == old(intact)
      ensures end.Returned? && at >= 0 ==> offset <= at && Sound(items, buffer, at, partSent, out, intact)
      ensures end != On ==>
        && whole.end == end && whole.at == at && whole.k == partSent && intact == (old(intact) && !whole.cut)
        && whole.sends == made + extra
    {
      hide Mid;
      hide Sound;
      hide PlayTurn;
      hide After;
      hide Told;
      hide PlayLoop;
      hide AtTurn;
      hide PassedOver;
      var pos;
      part', base', r', i', pos := Fetch(items, parts, gen, turn, part, base, r, i);
      r' := r' - 1;
      LoopOn(items, |buffer|, offset, skip, socket, waitSend, turn, lp, partSent);
      ghost var p := PlayTurn(items[turn], turn, |buffer|, offset, skip, lp, partSent, socket(turn + 1), waitSend);
      end, at := Turn(items, turn, skip, lp, pos, part'.start, socket(turn + 1), waitSend, out0);
      extra := p.sends;
      if end == On {
        AfterTwo(made, p.sends, PlayLoop(items, |buffer|, offset, skip, socket, waitSend, turn + 1, at, partSent));
      } else {
        AfterSends(made, p);
      }
    }

    method Parts(ghost items: seq<Item>, parts: seq<Part>, gen: nat -> int, socket: nat -> Outcome, waitSend: bool)
      returns (end: End, at: int)
      requires AtTurn(items, parts, gen, 0, Part(0, 0, false), 0, 0, 0) && Ready(items)
      modifies this`partSent, this`out, this`sends, this`intact
      ensures Told()
      ensures at >= 0 ==> offset <= at && Sound(items, buffer, at, partSent, out, intact)
      ensures !end.Returned? ==> at >= 0 && From(items, |buffer|, at, partSent) == at
      ensures !end.Returned? && NoStart(items) ==> |out| <= at
      ensures intact ==> old(intact)
      ensures AllWhole(socket) ==> intact == old(intact) && at >= 0 && (end.Returned? ==> end.wait)
      ensures AllQuiet(socket) && end.Returned? ==> partSent > old(partSent)
      ensures var p := PlayLoop(items, |buffer|, offset, old(partSent), socket, waitSend, 0, offset, old(partSent));
        && p.end == (if end.Returned? then end else Left) && p.at == at && p.k == partSent
        && intact == (old(intact) && !p.cut) && sends == old(sends) + p.sends
    {
      ghost var out0, cur;
      out0 := out;
      var skip := partSent;
      MidStart(items, buffer, offset, skip, out0);
      end, at, cur := Loop(items, parts, gen, socket, waitSend, skip, out0);
      if AllWhole(socket) {
        PlayWhole(items, |buffer|, offset, skip, socket, waitSend, 0, offset, skip);
      }
      if !end.Returned? {
        MidStop(items, buffer, offset, skip, cur, at, partSent, out0, out, intact);
      }
    }

    // desync: `ret` more bytes of the buffer are dealt with, or the connection is lost. The socket
    // answers for each turn by its number, and for the bytes after the last part as number 0.
    method Desync(ghost items: seq<Item>, parts: seq<Part>, gen: nat -> int, socket: nat -> Outcome, waitSend: bool)
      returns (ret: int, wait: bool)
      requires AtTurn(items, parts, gen, 0, Part(0, 0, false), 0, 0, 0) && Ready(items)
      modifies this`partSent, this`out, this`sends, this`intact
      ensures Told()
      ensures ret >= 0 ==> Sound(items, buffer, offset + ret, partSent, out, intact)
      ensures intact ==> old(intact)
      ensures AllWhole(socket) ==> intact == old(intact) && ret >= 0
      ensures AllWhole(socket) && !wait ==> ret == |buffer| - offset
      ensures AllQuiet(socket) && wait ==> partSent > old(partSent)
      // With `waitSend` a part that had not been counted is the last thing it sends.
      ensures old(sends) <= sends && (waitSend ==> OneNew(sends[|old(sends)|..], old(partSent)))
      ensures AllClean(sends[|old(sends)|..], socket, |sends| - |old(sends)| - 1)
      ensures AllQuiet(socket) ==> (wait <==> waitSend && EndsNew(sends[|old(sends)|..], old(partSent)))
      ensures var p := PlayCall(items, |buffer|, offset, old(partSent), socket, waitSend);
        && ret == (if p.at < 0 then -1 else p.at - offset) && (wait <==> p.end.Returned? && p.end.wait)
        && partSent == p.k && intact == (old(intact) && !p.cut) && sends == old(sends) + p.sends
    {
      hide PlayLoop;
      hide Gathered;
      assert offset <= |buffer|;
      hide Sound;
      ghost var skip0, sends0 := partSent, sends;
      var end, at := Parts(items, parts, gen, socket, waitSend);
      wait := end.Returned? && end.wait;
      if !end.Returned? {
        at := SendRest(items, at, socket(0));
      }
      ret := if at < 0 then -1 else at - offset;
      CallWaits(items, |buffer|, offset, skip0, socket, waitSend);
      assert sends[|sends0|..] == PlayCall(items, |buffer|, offset, skip0, socket, waitSend).sends;
    }

    // The sending side of on_tunnel: the buffer is done with, or kept for the next event.
    method OnTunnel(ghost items: seq<Item>, parts: seq<Part>, gen: nat -> int, socket: nat -> Outcome, waitSend: bool)
      returns (r: Progress)
      requires AtTurn(items, parts, gen, 0, Part(0, 0, false), 0, 0, 0) && Ready(items)
      modifies this
      ensures r != Closed ==> Ready(items) && old(offset) <= offset
      ensures r == Done ==> offset == |buffer|
      ensures intact ==> old(intact)
      ensures AllWhole(socket) ==> intact == old(intact) && r != Closed
      ensures AllQuiet(socket) && r == Later ==> partSent > old(partSent)
      ensures old(sends) <= sends && (waitSend ==> OneNew(sends[|old(sends)|..], old(partSent)))
      ensures AllClean(sends[|old(sends)|..], socket, |sends| - |old(sends)| - 1)
      ensures AllQuiet(socket) ==> (r == Later <==> waitSend && EndsNew(sends[|old(sends)|..], old(partSent)))
      ensures var p := PlayCall(items, |buffer|, old(offset), old(partSent), socket, waitSend);
        && (r == Closed <==> p.at < 0)
        && (r == Later <==> 0 <= p.at && (p.at < |buffer| || (p.end.Returned? && p.end.wait)))
        && offset == (if r != Closed then p.at else old(offset)) && partSent == p.k && intact == (old(intact) && !p.cut)
        && sends == old(sends) + p.sends
    {
      hide After;
      hide Gathered;
      hide PlayLoop;
      var n := |buffer| - offset;
      var ret, wait := Desync(items, parts, gen, socket, waitSend);
      if ret < 0 {
        return Closed;
      }
      roundSent := roundSent + ret;
      offset := offset + ret;
      r := if ret < n || wait then Later else Done;
    }

    // All the calls for one buffer. With sockets that take each part whole, what has been sent is
    // always the bytes before the offset, and all of the buffer when it is done with.
    method Run(parts: seq<Part>, gen: nat -> int, sockets: seq<nat -> Outcome>, waitSend: bool)
      returns (r: Progress, calls: nat)
      requires Ready(Turns(parts, gen, 0))
      modifies this
      ensures calls <= |sockets| && (r == Later ==> calls == |sockets|)
      ensures r != Closed ==> Ready(Turns(parts, gen, 0))
      ensures r != Closed && intact ==> out == buffer[..offset]
      ensures EveryWhole(sockets) ==> intact == old(intact) && r != Closed
      // How it ends and whether a send is cut short follows from what the sockets answer,
      ensures old(offset) <= |buffer|
      ensures var plays := PlayAll(Turns(parts, gen, 0), |buffer|, sockets, waitSend, old(offset), old(partSent));
        r == plays.progress && intact == (old(intact) && !plays.cut)
      // and a send cut short, and only that, loses bytes for good.
      ensures r == Done && NoStart(Turns(parts, gen, 0)) ==> (out == buffer <==> intact)
      // Where the positions go up and nothing stays queued, what is sent together are the stretches between
      // them, one in each call if it is to wait and all in one call if not.
      ensures old(sends) <= sends && old(partSent) <= |Turns(parts, gen, 0)|
      ensures Regular(Turns(parts, gen, 0), |buffer|, sockets, old(offset), old(partSent)) ==>
        InStep(Turns(parts, gen, 0), |buffer|, waitSend, old(partSent), calls, r, offset, partSent,
               sends[|old(sends)|..])
      // Once the socket has nothing queued, every call gets further.
      ensures EveryQuiet(sockets) && |sockets| > |Turns(parts, gen, 0)| ==> r == Done
    {
      hide Edge;
      hide PlayCall;
      hide AtTurn;
      hide Rising;
      hide Told;
      hide Turns;
      ghost var items := Turns(parts, gen, 0);
      TurnsAhead(items, parts, gen, 0, Part(0, 0, false), 0, 0, 0);
      ghost var whole, cut := PlayAll(items, |buffer|, sockets, waitSend, offset, partSent), false;
      r, calls := Later, 0;
      ghost var k0, sends0 := partSent, sends;
      ghost var regular := Regular(items, |buffer|, sockets, offset, k0);
      assert sockets[0..] == sockets && sends[|sends0|..] == [] && k0 <= |items|;
      assert regular ==> EveryQuiet(sockets) && InStep(items, |buffer|, waitSend, k0, 0, Later, offset, k0, []);
      assert EveryQuiet(sockets) ==> EveryWhole(sockets);
      hide Regular;
      assert Playing(whole, cut, r, items, |buffer|, sockets[0..], waitSend, offset, partSent);
      hide PlayAll;
      hide Playing;
      hide EveryWhole;
      hide EveryQuiet;
      hide Sound;
      hide InStep;
      while calls < |sockets| && r == Later
        invariant calls <= |sockets| && (r != Closed ==> Ready(items)) && (r == Done ==> offset == |buffer|)
        invariant Playing(whole, cut, r, items, |buffer|, sockets[calls..], waitSend, offset, partSent)
        invariant intact == (old(intact) && !cut)
        invariant EveryWhole(sockets) ==> intact == old(intact) && r != Closed
        invariant EveryQuiet(sockets) && r == Later ==> partSent >= calls
        invariant sends0 <= sends
        invariant regular ==>
          InStep(items, |buffer|, waitSend, k0, calls, r, offset, partSent, sends[|sends0|..])
        decreases |sockets| - calls
      {
        r, cut := CallAgain(items, parts, gen, sockets, calls, waitSend, whole, cut, k0, sends0);
        calls := calls + 1;
      }
      PlayEnd(whole, cut, r, items, |buffer|, sockets[calls..], waitSend, offset, partSent);
      if r != Closed { RunEnd(items, buffer, offset, partSent, out, intact); }
    }

    // The next of the calls.
    method CallAgain(ghost items: seq<Item>, parts: seq<Part>, gen: nat -> int, sockets: seq<nat -> Outcome>,
                     calls: nat, waitSend: bool, ghost whole: Plays, ghost cut: bool, ghost k0: nat,
                     ghost sends0: seq<Send>)
      returns (r: Progress, ghost cut': bool)
      requires sends0 <= sends
      requires calls < |sockets| && AtTurn(items, parts, gen, 0, Part(0, 0, false), 0, 0, 0) && Ready(items)
      requires Playing(whole, cut, Later, items, |buffer|, sockets[calls..], waitSend, offset, partSent)
      modifies this
      ensures (r != Closed ==> Ready(items)) && (r == Done ==> offset == |buffer|)
      ensures Playing(whole, cut', r, items, |buffer|, sockets[calls + 1..], waitSend, offset, partSent)
      ensures (cut ==> cut') && (!cut ==> intact == (old(intact) && !cut')) && (!old(intact) ==> !intact)
      ensures EveryWhole(sockets) ==> intact == old(intact) && r != Closed
      ensures EveryQuiet(sockets) && r == Later ==> partSent > old(partSent)
      ensures old(sends) <= sends
      ensures EveryQuiet(sockets) ==>
        old(InStep(items, |buffer|, waitSend, k0, calls, Later, offset, partSent, sends[|sends0|..])) ==>
        InStep(items, |buffer|, waitSend, k0, calls + 1, r, offset, partSent, sends[|sends0|..])
    {
      assert offset <= |buffer|;
      hide Sound;
      hide PlayCall;
      hide Playing;
      hide InStep;
      hide EveryWhole;
      hide EveryQuiet;
      hide AllClean;
      hide OneNew;
      hide EndsNew;
      ghost var p := PlayCall(items, |buffer|, offset, partSent, sockets[calls], waitSend);
      ghost var since, was := sends[|sends0|..], sends;
      CallStep(whole, cut, items, |buffer|, sockets, calls, waitSend, offset, partSent, k0, since);
      r := OnTunnel(items, parts, gen, sockets[calls], waitSend);
      SinceOn(sends0, was, p.sends);
      cut' := cut || p.cut;
    }
  }

  lemma RunEnd(items: seq<Item>, buffer: seq<Byte>, offset: int, k: nat, out: seq<Byte>, intact: bool)
    requires Sound(items, buffer, offset, k, out, intact)
    ensures (intact ==> out == buffer[..offset]) && offset <= |buffer| && k <= |items|
    ensures offset == |buffer| && NoStart(items) ==> (out == buffer <==> intact)
  {
  }

  // The calls so far came to `r`, with a send cut short or not, and those left make up the rest of `whole`.
  ghost predicate Playing(whole: Plays, cut: bool, r: Progress, items: seq<Item>, n: int, left: seq<nat -> Outcome>,
                          waitSend: bool, offset: nat, k: nat) {
    if r != Later then whole == Plays(r, cut) else
      && offset <= n
      && var rest := PlayAll(items, n, left, waitSend, offset, k); whole == Plays(rest.progress, cut || rest.cut)
  }

  lemma PlayNext(whole: Plays, cut: bool, items: seq<Item>, n: int, left: seq<nat -> Outcome>, waitSend: bool,
                 offset: nat, k: nat)
    requires Playing(whole, cut, Later, items, n, left, waitSend, offset, k) && left != [] && offset <= n
    ensures var p := PlayCall(items, n, offset, k, left[0], waitSend);
      if p.at < 0 then Playing(whole, cut || p.cut, Closed, items, n, left[1..], waitSend, offset, p.k)
      else if p.at < n || (p.end.Returned? && p.end.wait) then
        Playing(whole, cut || p.cut, Later, items, n, left[1..], waitSend, p.at, p.k)
      else Playing(whole, cut || p.cut, Done, items, n, left[1..], waitSend, p.at, p.k)
  {
  }

  ghost function Upshot(p: Play, n: int): Progress {
    if p.at < 0 then Closed else if p.at < n || (p.end.Returned? && p.end.wait) then Later else Done
  }

  // What the next call comes to, from what its socket answers.
  lemma CallStep(whole: Plays, cut: bool, items: seq<Item>, n: nat, sockets: seq<nat -> Outcome>, calls: nat,
                 waitSend: bool, offset: nat, k: nat, k0: nat, since: seq<Send>)
    requires calls < |sockets| && offset <= n
    requires Playing(whole, cut, Later, items, n, sockets[calls..], waitSend, offset, k)
    ensures (EveryWhole(sockets) ==> AllWhole(sockets[calls])) && (EveryQuiet(sockets) ==> AllQuiet(sockets[calls]))
    ensures var p := PlayCall(items, n, offset, k, sockets[calls], waitSend);
      && Playing(whole, cut || p.cut, Upshot(p, n), items, n, sockets[calls + 1..], waitSend,
                 if p.at < 0 then offset else p.at, p.k)
      && (EveryQuiet(sockets) && InStep(items, n, waitSend, k0, calls, Later, offset, k, since) ==>
            p.at >= 0 && InStep(items, n, waitSend, k0, calls + 1, Upshot(p, n), p.at, p.k, since + p.sends))
  {
    hide PlayCall;
    PlayNext(whole, cut, items, n, sockets[calls..], waitSend, offset, k);
    assert sockets[calls..][0] == sockets[calls] && sockets[calls..][1..] == sockets[calls + 1..];
    hide Playing;
    if EveryQuiet(sockets) && InStep(items, n, waitSend, k0, calls, Later, offset, k, since) {
      InStepOn(items, n, waitSend, k0, calls, offset, k, since, sockets[calls]);
    }
  }

  lemma SinceOn(sends0: seq<Send>, sends: seq<Send>, more: seq<Send>)
    requires sends0 <= sends
    ensures (sends + more)[|sends0|..] == sends[|sends0|..] + more
  {
  }

  lemma PlayEnd(whole: Plays, cut: bool, r: Progress, items: seq<Item>, n: int, left: seq<nat -> Outcome>,
                waitSend: bool, offset: nat, k: nat)
    requires Playing(whole, cut, r, items, n, left, waitSend, offset, k) && (r == Later ==> left == [])
    ensures whole == Plays(r, cut)
  {
  }

  // The loop is not left before the turn it resumes at.
  lemma MidBreak(items: seq<Item>, buffer: seq<Byte>, offset: int, skip: nat, cur: nat, lp: int, k: nat,
                 out0: seq<Byte>, out: seq<Byte>)
    requires Mid(items, buffer, offset, skip, cur, lp, k, out0, out) && cur < |items|
    requires !PassedOver(items[cur].pos, items[cur].start, cur + 1, offset, skip)
    requires (items[cur].pos < 0 || items[cur].pos < lp)
    ensures cur >= skip
  {
    assert cur < skip - 1 ==> Behind(items, |buffer|, offset, offset, cur);
  }

  lemma SoundRest(items: seq<Item>, buffer: seq<Byte>, lp: int, k: nat, out: seq<Byte>, intact: bool, s: int)
    requires Sound(items, buffer, lp, k, out, intact) && From(items, |buffer|, lp, k) == lp && 0 <= s <= |buffer| - lp
    requires NoStart(items) ==> |out| <= lp
    ensures Sound(items, buffer, |buffer|, k, out + buffer[lp..lp + s], intact && s == |buffer| - lp)
  {
    var n := |buffer|;
    forall j | j < k - 1
      ensures Behind(items, n, n, n, j)
    {
      assert Behind(items, n, lp, lp, j);
    }
    if intact { assert out + buffer[lp..n] == buffer[..n]; }
  }

  // ---- A send cut short ---------------------------------------------------------

  // One part that the socket takes less than whole, and then a socket that takes everything.
  lemma CutPlays(n: int, pos: int, s: nat, first: nat -> Outcome, second: nat -> Outcome)
    requires 0 <= s < pos <= n && first(1) == Short(s) && second(0) == second(1) == Whole(false)
    ensures PlayAll([Item(pos, false)], n, [first, second], false, 0, 0) == Plays(Done, true)
  {
    var items := [Item(pos, false)];
    var rest := if pos < n then [Send(pos, n, n - pos, 0)] else [];
    assert PlayCall(items, n, 0, 0, first, false) == Play(Returned(false), s, 1, true, [Send(0, pos, s, 1)]);
    assert PlayTurn(items[0], 0, n, s, 1, s, 1, second(1), false) == Play(On, pos, 1, false, []);
    assert PlayLoop(items, n, s, 1, second, false, 1, pos, 1) == Play(Left, pos, 1, false, []);
    assert PlayCall(items, n, s, 1, second, false) == Play(Left, n, 1, false, rest);
    assert [first, second][1..] == [second] && [second][1..] == [];
    assert PlayAll(items, n, [second], false, s, 1) == Plays(Done, false);
  }

  // For every buffer and every part of it, a first send that takes fewer bytes than the part has
  // loses bytes: the buffer is done with, and has not been sent.
  method CutShort(buffer: seq<Byte>, pos: int, s: nat) returns (sender: Sender, r: Progress)
    requires 0 <= s < pos <= |buffer|
    ensures fresh(sender) && sender.buffer == buffer && r == Done && sender.out != buffer
  {
    sender := new Sender(buffer);
    var parts, gen := [Part(1, 0, false)], (_: nat) => pos;
    var first, second := (_: nat) => Short(s), (_: nat) => Whole(false);
    assert Remaining(parts[0], pos, 0) == [] && Turns(parts, gen, 1) == [];
    assert Turns(parts, gen, 0) == [Item(pos, false)];
    assert NoStart([Item(pos, false)]);
    CutPlays(|buffer|, pos, s, first, second);
    var calls;
    r, calls := sender.Run(parts, gen, [first, second], false);
  }
}
