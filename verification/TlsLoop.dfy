/**
 The record loop of `tamp` in `desync.c`: one TLS record is split at a list of positions.
 */
module TlsLoop {
  import opened Common
  import opened TlsSplit
  import TlsTracker

  datatype Part = Part(pos: int, flag: int, r: int, s: int)

  // ---- The positions the loop asks for ------------------------------------------

  // The position of turn `rc`, on which gen_offset answers `g`.
  function Position(part: Part, r: int, g: int, rc: int): int {
    rc * 5 + g - (if part.pos < 0 || part.flag != 0 then 5 else 0) + part.s * (part.r - r)
  }

  // Those from turn `rc` on, when `r` repetitions of `part` are left and then the parts from `i` on.
  ghost function Positions(parts: seq<Part>, gen: nat -> int, rc: nat, part: Part, r: int, i: nat): seq<int>
    decreases |parts| - i, r
  {
    if r > 0 then [Position(part, r, gen(rc), rc)] + Positions(parts, gen, rc + 1, part, r - 1, i)
    else if i < |parts| then
      [Position(parts[i], parts[i].r, gen(rc), rc)] + Positions(parts, gen, rc + 1, parts[i], parts[i].r - 1, i + 1)
    else []
  }

  // No room for another header, or no such position: the loop ends.
  ghost predicate Stops(size: int, n: int, lp: int, pos: int) {
    pos < lp || size - n < 5 || pos + 5 > n
  }

  // Where the payload is to be cut: the positions up to the one that ends the loop, each without
  // the headers before it.
  ghost function Cuts(ps: seq<int>, rc: int, lp: int, n: int, size: int): seq<int> {
    if ps == [] || Stops(size, n, lp, ps[0]) then [] else
      [ps[0] - 5 * rc] + Cuts(ps[1..], rc + 1, ps[0] + 5, n + 5, size)
  }

  // ---- The pieces ---------------------------------------------------------------

  ghost function Prev(cs: seq<int>): int {
    if cs == [] then 0 else cs[|cs| - 1]
  }

  ghost predicate Rising(cs: seq<int>, len: int) {
    cs == [] || (var k := |cs| - 1; Rising(cs[..k], len) && Prev(cs[..k]) <= cs[k] <= len)
  }

  lemma {:induction false} PrevIn(cs: seq<int>, len: int)
    requires Rising(cs, len) && len >= 0
    ensures 0 <= Prev(cs) <= len
    decreases |cs|
  {
    if cs != [] { PrevIn(cs[..|cs| - 1], len); }
  }

  // The payload cut at `cs`, but for what follows the last cut.
  ghost function PiecesOf(p: seq<Byte>, cs: seq<int>): (r: seq<seq<Byte>>)
    requires Rising(cs, |p|)
    ensures |r| == |cs|
    decreases |cs|
  {
    if cs == [] then [] else
      var k := |cs| - 1;
      PrevIn(cs[..k], |p|);
      PiecesOf(p, cs[..k]) + [p[Prev(cs[..k])..cs[k]]]
  }

  // The pieces and what follows the last cut are the payload.
  lemma {:induction false} PiecesJoin(p: seq<Byte>, cs: seq<int>)
    requires Rising(cs, |p|)
    ensures 0 <= Prev(cs) <= |p| && Concat(PiecesOf(p, cs)) + p[Prev(cs)..] == p
    decreases |cs|
  {
    PrevIn(cs, |p|);
    if cs != [] {
      var k := |cs| - 1;
      PiecesJoin(p, cs[..k]);
      ConcatOn(PiecesOf(p, cs[..k]), p, Prev(cs[..k]), cs[k]);
    }
  }

  lemma ConcatOn(ps: seq<seq<Byte>>, p: seq<Byte>, a: int, b: int)
    requires 0 <= a <= b <= |p| && Concat(ps) + p[a..] == p
    ensures Concat(ps + [p[a..b]]) + p[b..] == p
  {
    assert (ps + [p[a..b]])[..|ps|] == ps;
    assert p[a..b] + p[b..] == p[a..];
  }

  lemma RisingOn(cs: seq<int>, len: int, c: int)
    requires Rising(cs, len) && Prev(cs) <= c <= len
    ensures Rising(cs + [c], len) && Prev(cs + [c]) == c
  {
    assert (cs + [c])[..|cs|] == cs;
  }

  lemma PiecesOn(p: seq<Byte>, cs: seq<int>, c: int)
    requires Rising(cs, |p|) && Prev(cs) <= c <= |p|
    ensures Rising(cs + [c], |p|) && Prev(cs) >= 0 && PiecesOf(p, cs + [c]) == PiecesOf(p, cs) + [p[Prev(cs)..c]]
  {
    PrevIn(cs, |p|);
    RisingOn(cs, |p|, c);
    assert (cs + [c])[..|cs|] == cs;
  }

  // ---- What the loop leaves -----------------------------------------------------

  // The complete records are the pieces asked for.
  ghost predicate AsAsked(h: seq<Byte>, p: seq<Byte>, cs: seq<int>, b: seq<Byte>) {
    && |h| == 3 && Rising(cs, |p|) && Small(PiecesOf(p, cs)) && 0 <= Prev(cs) + 5 * |cs| <= |b|
    && b[0..Prev(cs) + 5 * |cs|] == Whole(h, PiecesOf(p, cs))
  }

  // The buffer is one record for each cut and one for the rest, of `declared` bytes in all.
  ghost predicate Kept(h: seq<Byte>, p: seq<Byte>, declared: int, cs: seq<int>, b: seq<Byte>, n: int) {
    && Rising(cs, |p|) && 0 <= Prev(cs) && n == 5 + |p| + 5 * |cs|
    && Split(b, n, Prev(cs) + 5 * |cs|, h, PiecesOf(p, cs), p[Prev(cs)..], declared - |p|)
  }

  // Cut `j` lies past the declared end, and its header has been left as it was.
  ghost predicate Spoilt(cs: seq<int>, len: int, declared: int, b: seq<Byte>, j: int) {
    && Rising(cs, len) && 0 <= j < |cs| && 0 <= Prev(cs[..j])
    && var at := Prev(cs[..j]) + 5 * j;
       at + 5 <= |b| && Ntohs(b, at + 3) == declared - Prev(cs[..j]) < cs[j] - Prev(cs[..j])
  }

  lemma KeptAsked(h: seq<Byte>, p: seq<Byte>, declared: int, cs: seq<int>, b: seq<Byte>, n: int)
    requires Kept(h, p, declared, cs, b, n)
    ensures AsAsked(h, p, cs, b)
  {
  }

  lemma {:induction false} WholeLength(h: seq<Byte>, p: seq<Byte>, cs: seq<int>)
    requires |h| == 3 && Rising(cs, |p|) && Small(PiecesOf(p, cs))
    ensures |Whole(h, PiecesOf(p, cs))| == Prev(cs) + 5 * |cs|
    decreases |cs|
  {
    if cs != [] {
      var k := |cs| - 1;
      var ps := PiecesOf(p, cs);
      PrevIn(cs[..k], |p|);
      assert ps[..k] == PiecesOf(p, cs[..k]);
      WholeLength(h, p, cs[..k]);
    }
  }

  // The length field of record `j`.
  lemma {:induction false} WholeField(h: seq<Byte>, p: seq<Byte>, cs: seq<int>, j: nat)
    requires |h| == 3 && Rising(cs, |p|) && Small(PiecesOf(p, cs)) && j < |cs|
    ensures var at, w := Prev(cs[..j]) + 5 * j, Whole(h, PiecesOf(p, cs));
      0 <= at && at + 5 <= |w| && Ntohs(w, at + 3) == cs[j] - Prev(cs[..j])
    decreases |cs|
  {
    var k := |cs| - 1;
    var ps, front := PiecesOf(p, cs), cs[..k];
    PrevIn(front, |p|);
    assert ps[..k] == PiecesOf(p, front);
    WholeLength(h, p, front);
    if j < k {
      WholeField(h, p, front, j);
      assert front[..j] == cs[..j] && front[j] == cs[j];
    } else {
      FieldAfter(Whole(h, ps[..k]), h, ps[k]);
      assert cs[..j] == front;
    }
  }

  lemma FieldAfter(w: seq<Byte>, h: seq<Byte>, piece: seq<Byte>)
    requires |h| == 3 && |piece| < 0x1_0000
    ensures Ntohs(w + Record(h, |piece|, piece), |w| + 3) == |piece|
  {
    CutRecord(h, |piece|, piece, 0);
    var r := Record(h, |piece|, piece);
    assert (w + r)[|w| + 3] == r[3] && (w + r)[|w| + 4] == r[4];
  }

  lemma SpoiltNotAsked(h: seq<Byte>, p: seq<Byte>, declared: int, cs: seq<int>, b: seq<Byte>, j: int)
    requires Spoilt(cs, |p|, declared, b, j)
    ensures !AsAsked(h, p, cs, b)
  {
    if AsAsked(h, p, cs, b) {
      WholeField(h, p, cs, j);
      WholeLength(h, p, cs);
    }
  }

  // The header of a cut past the end survives what happens behind it.
  lemma SpoiltStays(cs: seq<int>, len: int, declared: int, b: seq<Byte>, j: int, c: int, b': seq<Byte>, lp: int)
    requires Spoilt(cs, len, declared, b, j) && Prev(cs[..j]) + 5 * j + 5 <= lp <= |b| == |b'| && b'[0..lp] == b[0..lp]
    requires Prev(cs) <= c <= len
    ensures Spoilt(cs + [c], len, declared, b', j)
  {
    RisingOn(cs, len, c);
    var at := Prev(cs[..j]) + 5 * j;
    assert (cs + [c])[..j] == cs[..j];
    assert b'[at + 3] == b'[0..lp][at + 3] && b'[at + 4] == b'[0..lp][at + 4];
  }

  lemma KeptStart(b: seq<Byte>, n: int)
    requires 5 <= n <= |b|
    ensures Kept(b[0..3], b[5..n], Ntohs(b[0..n], 3), [], b, n)
  {
    SplitStart(b, n);
    assert b[5..n][0..] == b[5..n];
  }

  // ---- The loop -----------------------------------------------------------------

  // After the cuts `cs`; `bad` is the first of them past the declared end, if there is one.
  ghost predicate Made(h: seq<Byte>, p: seq<Byte>, declared: int, cs: seq<int>, b: seq<Byte>, n: int, lp: int,
                       bad: int) {
    && Rising(cs, |p|) && n == 5 + |p| + 5 * |cs| && n <= |b| && lp == Prev(cs) + 5 * |cs| && 0 <= lp
    && if Prev(cs) <= declared then Kept(h, p, declared, cs, b, n)
       else Spoilt(cs, |p|, declared, b, bad) && Prev(cs[..bad]) + 5 * bad + 5 <= lp
  }

  // What part_tls has done to the bytes from `lp` to `n`.
  ghost predicate Parted(b: seq<Byte>, b': seq<Byte>, n: int, lp: int, pos: int) {
    && 0 <= lp <= pos && pos + 5 <= n && n + 5 <= |b| == |b'| && b'[0..lp] == b[0..lp]
    && if Ntohs(b[lp..n], 3) < pos - lp then b' == b else b'[lp..n + 5] == CutBytes(b[lp..n], pos - lp)
  }

  lemma TailCut(p: seq<Byte>, a: int, c: int)
    requires 0 <= a <= c <= |p|
    ensures p[a..][..c - a] == p[a..c] && p[a..][c - a..] == p[c..]
  {
  }

  // A cut within the declared length makes one more record: what has been cut so far is `pieces`,
  // and what follows it `last`.
  lemma SplitAt(h: seq<Byte>, pieces: seq<seq<Byte>>, last: seq<Byte>, missing: int, b: seq<Byte>, b': seq<Byte>,
                n: int, lp: int, pos: int)
    requires Split(b, n, lp, h, pieces, last, missing) && Parted(b, b', n, lp, pos) && pos - lp <= |last| + missing
    ensures pos - lp <= |last| && Split(b', n + 5, pos + 5, h, pieces + [last[..pos - lp]], last[pos - lp..], missing)
  {
    SplitFits(b, n, lp, h, pieces, last, missing);
    SplitTurn(b, b', n, lp, pos - lp, h, pieces, last, missing);
  }

  lemma KeptTurn(h: seq<Byte>, p: seq<Byte>, declared: int, cs: seq<int>, b: seq<Byte>, b': seq<Byte>, n: int, c: int)
    requires Kept(h, p, declared, cs, b, n) && Prev(cs) <= c <= |p| && c <= declared
    requires Parted(b, b', n, Prev(cs) + 5 * |cs|, c + 5 * |cs|)
    ensures Kept(h, p, declared, cs + [c], b', n + 5)
  {
    hide Split;
    hide Parted;
    SplitAt(h, PiecesOf(p, cs), p[Prev(cs)..], declared - |p|, b, b', n, Prev(cs) + 5 * |cs|, c + 5 * |cs|);
    PiecesOn(p, cs, c);
    RisingOn(cs, |p|, c);
    TailCut(p, Prev(cs), c);
  }

  // The first cut past it leaves the buffer and its header as they were.
  lemma SpoiltTurn(h: seq<Byte>, p: seq<Byte>, declared: int, cs: seq<int>, b: seq<Byte>, b': seq<Byte>, n: int, c: int)
    requires Kept(h, p, declared, cs, b, n) && Prev(cs) <= declared < c <= |p|
    requires Parted(b, b', n, Prev(cs) + 5 * |cs|, c + 5 * |cs|)
    ensures b' == b && Spoilt(cs + [c], |p|, declared, b', |cs|) && (cs + [c])[..|cs|] == cs
  {
    var lp, last := Prev(cs) + 5 * |cs|, p[Prev(cs)..];
    SplitFits(b, n, lp, h, PiecesOf(p, cs), last, declared - |p|);
    RisingOn(cs, |p|, c);
    assert (cs + [c])[..|cs|] == cs;
    assert b[lp..n][3] == b[lp + 3] && b[lp..n][4] == b[lp + 4];
  }

  lemma MadeTurn(h: seq<Byte>, p: seq<Byte>, declared: int, cs: seq<int>, b: seq<Byte>, b': seq<Byte>, n: int,
                 lp: int, bad: int, c: int)
    returns (bad': int)
    requires Made(h, p, declared, cs, b, n, lp, bad) && Parted(b, b', n, lp, c + 5 * |cs|)
    ensures Made(h, p, declared, cs + [c], b', n + 5, c + 5 * |cs| + 5, bad')
    ensures Prev(cs) <= declared < c ==> b' == b
  {
    bad' := bad;
    RisingOn(cs, |p|, c);
    if Prev(cs) > declared {
      assert (cs + [c])[..bad] == cs[..bad];
      SpoiltStays(cs, |p|, declared, b, bad, c, b', lp);
    } else if c <= declared {
      KeptTurn(h, p, declared, cs, b, b', n, c);
    } else {
      bad' := |cs|;
      SpoiltTurn(h, p, declared, cs, b, b', n, c);
    }
  }

  // part_tls at `pos`, unless that ends the loop.
  method PartAt(buffer: array<Byte>, n: nat, lp: nat, pos: int) returns (done: bool)
    requires lp <= n <= buffer.Length
    modifies buffer
    ensures done <==> !Stops(buffer.Length, n, lp, pos)
    ensures !done ==> buffer[..] == old(buffer[..])
    ensures done ==> Parted(old(buffer[..]), buffer[..], n, lp, pos)
  {
    done := false;
    if pos < lp {
      return;
    }
    ghost var b := buffer[..];
    assert b[lp..n] == buffer[lp..n];
    var r := PartTls(buffer, lp, n - lp, pos - lp);
    if r != 0 {
      done := true;
      assert buffer[..][0..lp] == b[0..lp] && buffer[..][lp..n + 5] == buffer[lp..n + 5];
    }
  }

  method Turn(buffer: array<Byte>, n: nat, lp: nat, pos: int, ghost h: seq<Byte>, ghost p: seq<Byte>,
              ghost declared: int,
              ghost cs: seq<int>, ghost bad: int, ghost c: int) returns (done: bool, ghost bad': int)
    requires pos == c + 5 * |cs|
    requires lp <= n <= buffer.Length && Made(h, p, declared, cs, buffer[..], n, lp, bad)
    modifies buffer
    ensures done <==> !Stops(buffer.Length, n, lp, pos)
    ensures !done ==> buffer[..] == old(buffer[..]) && bad' == bad
    ensures done ==> Made(h, p, declared, cs + [c], buffer[..], n + 5, pos + 5, bad')
    ensures Prev(cs) <= declared < c ==> buffer[..] == old(buffer[..])
  {
    ghost var b := buffer[..];
    bad' := bad;
    done := PartAt(buffer, n, lp, pos);
    if done {
      bad' := MadeTurn(h, p, declared, cs, b, buffer[..], n, lp, bad, c);
    }
  }

  // Reading a turn off the list of parts.
  lemma CutsOn(parts: seq<Part>, gen: nat -> int, rc: nat, part: Part, r: int, i: nat, lp: int, n: int, size: int,
               pos: int, part': Part, r': int, i': nat)
    requires r > 0 || i < |parts|
    requires part' == (if r > 0 then part else parts[i]) && r' == (if r > 0 then r else parts[i].r)
    requires i' == (if r > 0 then i else i + 1)
    requires pos == Position(part', r', gen(rc), rc)
    ensures var cs := Cuts(Positions(parts, gen, rc, part, r, i), rc, lp, n, size);
      if Stops(size, n, lp, pos) then cs == []
      else cs == [pos - 5 * rc] + Cuts(Positions(parts, gen, rc + 1, part', r' - 1, i'), rc + 1, pos + 5, n + 5, size)
  {
    var ps, rest := Positions(parts, gen, rc, part, r, i), Positions(parts, gen, rc + 1, part', r' - 1, i');
    assert ps == [pos] + rest;
    assert ps[1..] == rest;
  }

  ghost predicate LonePast(cs: seq<int>, declared: int) {
    |cs| == 1 && declared < cs[0]
  }

  // Of all cuts, `cs` have been made.
  ghost predicate Todo(all: seq<int>, cs: seq<int>, parts: seq<Part>, gen: nat -> int, rc: nat, part: Part, r: int,
                       i: nat, lp: int, n: int, size: int) {
    all == cs + Cuts(Positions(parts, gen, rc, part, r, i), rc, lp, n, size)
  }

  lemma TodoOn(all: seq<int>, cs: seq<int>, parts: seq<Part>, gen: nat -> int, rc: nat, part: Part, r: int, i: nat,
               lp: int, n: int, size: int,
               pos: int, part': Part, r': int, i': nat)
    requires Todo(all, cs, parts, gen, rc, part, r, i, lp, n, size) && (r > 0 || i < |parts|)
    requires part' == (if r > 0 then part else parts[i]) && r' == (if r > 0 then r else parts[i].r)
    requires i' == (if r > 0 then i else i + 1)
    requires pos == Position(part', r', gen(rc), rc)
    ensures if Stops(size, n, lp, pos) then cs == all
      else Todo(all, cs + [pos - 5 * rc], parts, gen, rc + 1, part', r' - 1, i', pos + 5, n + 5, size)
  {
    CutsOn(parts, gen, rc, part, r, i, lp, n, size, pos, part', r', i');
  }

  // The next position, and the part it belongs to.
  method Next(parts: seq<Part>, gen: nat -> int, rc: nat, part: Part, r: int, i: nat,
              ghost all: seq<int>, ghost cs: seq<int>, ghost lp: int, ghost n: int, ghost size: int)
    returns (part': Part, r': int, i': nat, pos: int, ghost c: int)
    requires Todo(all, cs, parts, gen, rc, part, r, i, lp, n, size) && (r > 0 || i < |parts|)
    ensures (r > 0 && i' == i && r' == r) || i' == i + 1 <= |parts|
    ensures pos == c + 5 * rc
    ensures if Stops(size, n, lp, pos) then cs == all
      else Todo(all, cs + [c], parts, gen, rc + 1, part', r' - 1, i', pos + 5, n + 5, size)
  {
    part', r', i' := part, r, i;
    if r <= 0 {
      part' := parts[i];
      r' := part'.r;
      i' := i + 1;
    }
    pos := rc * 5 + gen(rc);
    if part'.pos < 0 || part'.flag != 0 {
      pos := pos - 5;
    }
    pos := pos + part'.s * (part'.r - r');
    c := pos - 5 * rc;
    TodoOn(all, cs, parts, gen, rc, part, r, i, lp, n, size, pos, part', r', i');
  }

  method Loop(buffer: array<Byte>, n0: nat, parts: seq<Part>, gen: nat -> int, ghost all: seq<int>,
              ghost h: seq<Byte>, ghost p: seq<Byte>, ghost declared: int)
    returns (n: nat, ghost lp: nat, ghost bad: int)
    requires n0 <= buffer.Length && declared >= 0 && Made(h, p, declared, [], buffer[..], n0, 0, 0)
    requires Todo(all, [], parts, gen, 0, Part(0, 0, 0, 0), 0, 0, 0, n0, buffer.Length)
    modifies buffer
    ensures n <= buffer.Length && Made(h, p, declared, all, buffer[..], n, lp, bad)
    ensures LonePast(all, declared) ==> buffer[..] == old(buffer[..])
  {
    hide Made;
    ghost var cs := [];
    n, lp, bad := n0, 0, 0;
    var at, i, r, rc := 0, 0, 0, 0;
    var part := Part(0, 0, 0, 0);
    while r > 0 || i < |parts|
      invariant i <= |parts| && |cs| == rc && at == lp <= n <= buffer.Length
      invariant Made(h, p, declared, cs, buffer[..], n, lp, bad)
      invariant Todo(all, cs, parts, gen, rc, part, r, i, lp, n, buffer.Length)
      invariant cs == [] || LonePast(cs, declared) ==> buffer[..] == old(buffer[..])
      decreases |parts| - i, r
    {
      var pos, done;
      ghost var c;
      part, r, i, pos, c := Next(parts, gen, rc, part, r, i, all, cs, lp, n, buffer.Length);
      done, bad := Turn(buffer, n, at, pos, h, p, declared, cs, bad, c);
      if !done {
        return;
      }
      cs, lp := cs + [c], pos + 5;
      n, at, rc, r := n + 5, pos + 5, rc + 1, r - 1;
    }
    assert cs == all;
  }

  // The record loop of tamp; `gen` stands for what gen_offset answers on each turn. The complete
  // records it leaves are the pieces asked for if and only if no cut lies past the declared length,
  // and then what follows the last cut is a record too.
  method SplitRecords(buffer: array<Byte>, n0: nat, parts: seq<Part>, gen: nat -> int) returns (n: nat,
                      ghost cs: seq<int>)
    requires 5 < n0 <= buffer.Length
    modifies buffer
    ensures cs == Cuts(Positions(parts, gen, 0, Part(0, 0, 0, 0), 0, 0), 0, 0, n0, buffer.Length)
    ensures Rising(cs, n0 - 5) && n == n0 + 5 * |cs| <= buffer.Length
    ensures AsAsked(old(buffer[0..3]), old(buffer[5..n0]), cs, buffer[..]) <==> Prev(cs) <= old(Ntohs(buffer[0..n0], 3))
    ensures LonePast(cs, old(Ntohs(buffer[0..n0], 3))) ==> buffer[..] == old(buffer[..])
    ensures Prev(cs) <= old(Ntohs(buffer[0..n0], 3)) ==>
      OneRecordEach(old(buffer[0..3]), old(buffer[5..n0]), old(Ntohs(buffer[0..n0], 3)), cs, buffer[0..n])
  {
    ghost var b0 := buffer[..];
    ghost var h, p, declared := b0[0..3], b0[5..n0], Ntohs(b0[0..n0], 3);
    assert old(buffer[0..3]) == h && old(buffer[5..n0]) == p && old(buffer[0..n0]) == b0[0..n0];
    KeptStart(b0, n0);
    cs := Cuts(Positions(parts, gen, 0, Part(0, 0, 0, 0), 0, 0), 0, 0, n0, buffer.Length);
    ghost var lp, bad;
    n, lp, bad := Loop(buffer, n0, parts, gen, cs, h, p, declared);
    MadeMeans(h, p, declared, cs, buffer[..], n, lp, bad);
    assert buffer[..][0..n] == buffer[0..n];
  }

  // Records of one type and version whose payloads are the pieces and what follows the last cut.
  ghost predicate OneRecordEach(h: seq<Byte>, p: seq<Byte>, declared: int, cs: seq<int>, out: seq<Byte>) {
    && |h| == 3 && Rising(cs, |p|) && 0 <= Prev(cs) <= |p|
    && Declared(PiecesOf(p, cs), p[Prev(cs)..], declared - |p|) && Concat(PiecesOf(p, cs)) + p[Prev(cs)..] == p
    && out == Wire(h, PiecesOf(p, cs), p[Prev(cs)..], declared - |p|)
  }

  lemma MadeMeans(h: seq<Byte>, p: seq<Byte>, declared: int, cs: seq<int>, b: seq<Byte>, n: int, lp: int, bad: int)
    requires Made(h, p, declared, cs, b, n, lp, bad)
    ensures AsAsked(h, p, cs, b) <==> Prev(cs) <= declared
    ensures Prev(cs) <= declared ==> OneRecordEach(h, p, declared, cs, b[0..n])
  {
    PiecesJoin(p, cs);
    if Prev(cs) <= declared {
      KeptAsked(h, p, declared, cs, b, n);
      SplitWire(b, n, lp, h, PiecesOf(p, cs), p[Prev(cs)..], declared - |p|);
    } else {
      SpoiltNotAsked(h, p, declared, cs, b, bad);
    }
  }

  // A message with bytes after its record, and one part past the end of the record: nothing is
  // written, and the message is five bytes longer.
  method PastTheEnd(buffer: array<Byte>, n0: nat, pos: int) returns (n: nat)
    requires 5 < n0 && n0 + 5 <= buffer.Length && Ntohs(buffer[0..n0], 3) < pos <= n0 - 5
    modifies buffer
    ensures n == n0 + 5 && buffer[..] == old(buffer[..])
  {
    var parts, gen := [Part(pos, 0, 1, 0)], (_: nat) => pos;
    assert Positions(parts, gen, 1, parts[0], 0, 1) == [];
    assert Positions(parts, gen, 0, Part(0, 0, 0, 0), 0, 0) == [pos];
    assert Cuts([pos], 0, 0, n0, buffer.Length) == [pos];
    ghost var cs;
    n, cs := SplitRecords(buffer, n0, parts, gen);
  }

  // ---- Where the records lie ----------------------------------------------------

  // The cut before piece `k`, or the start.
  ghost function Since(cs: seq<int>, k: nat): int
    requires k <= |cs|
  {
    if k == 0 then 0 else cs[k - 1]
  }

  // Where record `k` begins in the message, after as many headers as there are records before it.
  ghost function Begin(cs: seq<int>, k: nat): int
    requires k <= |cs|
  {
    Since(cs, k) + 5 * k
  }

  // A record that declares `len` bytes stands at `at`.
  ghost predicate RecordAt(w: seq<Byte>, at: int, h: seq<Byte>, len: int, piece: seq<Byte>) {
    && |h| == 3 && 0 <= len < 0x1_0000 && 0 <= at && at + 5 + |piece| <= |w|
    && w[at..at + 5 + |piece|] == Record(h, len, piece)
  }

  lemma RecordStays(w: seq<Byte>, x: seq<Byte>, at: int, h: seq<Byte>, len: int, piece: seq<Byte>)
    requires RecordAt(w, at, h, len, piece)
    ensures RecordAt(w + x, at, h, len, piece)
  {
    JoinedSlice(w, x, at, at + 5 + |piece|);
  }

  lemma RecordLast(w: seq<Byte>, h: seq<Byte>, len: int, piece: seq<Byte>)
    requires |h| == 3 && 0 <= len < 0x1_0000
    ensures RecordAt(w + Record(h, len, piece), |w|, h, len, piece)
  {
    JoinedSlice(w, Record(h, len, piece), |w|, |w| + 5 + |piece|);
  }

  lemma JoinedSlice<T>(a: seq<T>, b: seq<T>, i: int, j: int)
    requires 0 <= i <= j <= |a + b|
    ensures j <= |a| ==> (a + b)[i..j] == a[i..j]
    ensures |a| <= i ==> (a + b)[i..j] == b[i - |a|..j - |a|]
    ensures b[0..|b|] == b
  {
  }

  // Record `k` stands where it begins.
  ghost predicate Standing(h: seq<Byte>, p: seq<Byte>, cs: seq<int>, k: nat, w: seq<Byte>) {
    && k < |cs| && 0 <= Since(cs, k) <= cs[k] <= |p|
    && RecordAt(w, Begin(cs, k), h, cs[k] - Since(cs, k), p[Since(cs, k)..cs[k]])
  }

  lemma StandingStays(h: seq<Byte>, p: seq<Byte>, cs: seq<int>, cs': seq<int>, k: nat, w: seq<Byte>, x: seq<Byte>)
    requires Standing(h, p, cs, k, w) && cs <= cs'
    ensures Standing(h, p, cs', k, w + x)
  {
    RecordStays(w, x, Begin(cs, k), h, cs[k] - Since(cs, k), p[Since(cs, k)..cs[k]]);
  }

  // The last of complete records is the piece before the last cut.
  lemma WholeLast(h: seq<Byte>, p: seq<Byte>, cs: seq<int>)
    requires |h| == 3 && Rising(cs, |p|) && Small(PiecesOf(p, cs)) && cs != []
    ensures var k := |cs| - 1;
      var a := Since(cs, k);
      && Rising(cs[..k], |p|) && Small(PiecesOf(p, cs[..k]))
      && 0 <= a <= cs[k] <= |p| && cs[k] - a < 0x1_0000 && |Whole(h, PiecesOf(p, cs[..k]))| == Begin(cs, k)
      && Whole(h, PiecesOf(p, cs)) == Whole(h, PiecesOf(p, cs[..k])) + Record(h, cs[k] - a, p[a..cs[k]])
  {
    var k, ps := |cs| - 1, PiecesOf(p, cs);
    PrevIn(cs[..k], |p|);
    assert ps[..k] == PiecesOf(p, cs[..k]) && ps[k] == p[Prev(cs[..k])..cs[k]];
    WholeLength(h, p, cs[..k]);
  }

  // Each of complete records is the piece between two cuts.
  lemma {:induction false} WholeRecord(h: seq<Byte>, p: seq<Byte>, cs: seq<int>, k: nat)
    requires |h| == 3 && Rising(cs, |p|) && Small(PiecesOf(p, cs)) && k < |cs|
    ensures Standing(h, p, cs, k, Whole(h, PiecesOf(p, cs)))
    decreases |cs|
  {
    var last := |cs| - 1;
    var front, a := cs[..last], Since(cs, last);
    WholeLast(h, p, cs);
    var w, x := Whole(h, PiecesOf(p, front)), Record(h, cs[last] - a, p[a..cs[last]]);
    hide Whole;
    hide Record;
    hide PiecesOf;
    hide Rising;
    hide Small;
    hide RecordAt;
    if k < last {
      hide Standing;
      WholeRecord(h, p, front, k);
      StandingStays(h, p, front, cs, k, w, x);
    } else {
      RecordLast(w, h, cs[last] - a, p[a..cs[last]]);
    }
  }

  // The cuts of one part: the first at `base` in the payload, and each repetition `s` further.
  ghost function Spaced(base: int, s: int, m: nat): (cs: seq<int>)
    ensures |cs| == m && forall k :: 0 <= k < m ==> cs[k] == base + s * k
  {
    seq(m, k => base + s * k)
  }

  // How often a part is used.
  function Times(part: Part): nat {
    if part.r < 1 then 1 else part.r
  }

  // Where the first cut of a part lies in the payload if gen_offset answers `g`: a position counted from
  // the end or from the host counts the header too.
  function First(part: Part, g: int): int {
    if part.pos < 0 || part.flag != 0 then g - 5 else g
  }

  lemma StepsUp(s: int, k: int, m: int)
    requires s >= 0 && k <= m
    ensures s * k <= s * m && s * (k + 1) == s * k + s
  {
  }

  // The turns of one part from repetition `k` on.
  lemma {:induction false} SpacedOn(part: Part, gen: nat -> int, g: int, k: nat, n0: int, size: int)
    requires (forall rc :: gen(rc) == g) && 1 <= k <= Times(part) && part.s >= 0 && First(part, g) >= 0
    requires First(part, g) + part.s * (Times(part) - 1) <= n0 - 5 && n0 + 5 * Times(part) <= size
    ensures var base := First(part, g);
      Cuts(Positions([part], gen, k, part, part.r - k, 1), k, base + part.s * (k - 1) + 5 * k, n0 + 5 * k, size) ==
        Spaced(base, part.s, Times(part))[k..]
    decreases Times(part) - k
  {
    var base, m := First(part, g), Times(part);
    var ps := Positions([part], gen, k, part, part.r - k, 1);
    if k < m {
      var pos, rest := base + part.s * k + 5 * k, Positions([part], gen, k + 1, part, part.r - (k + 1), 1);
      SpacedOn(part, gen, g, k + 1, n0, size);
      StepsUp(part.s, k, m - 1);
      StepsUp(part.s, k - 1, k);
      assert Position(part, part.r - k, g, k) == pos;
      assert ps == [pos] + rest && ps[1..] == rest;
      assert Spaced(base, part.s, m)[k..] == [base + part.s * k] + Spaced(base, part.s, m)[k + 1..];
    }
  }

  lemma SpacedCuts(part: Part, gen: nat -> int, g: int, n0: int, size: int)
    requires (forall rc :: gen(rc) == g) && part.s >= 0 && First(part, g) >= 0
    requires First(part, g) + part.s * (Times(part) - 1) <= n0 - 5 && n0 + 5 * Times(part) <= size
    ensures Cuts(Positions([part], gen, 0, Part(0, 0, 0, 0), 0, 0), 0, 0, n0, size) ==
      Spaced(First(part, g), part.s, Times(part))
  {
    var base, m := First(part, g), Times(part);
    var ps, rest := Positions([part], gen, 0, Part(0, 0, 0, 0), 0, 0), Positions([part], gen, 1, part, part.r - 1, 1);
    SpacedOn(part, gen, g, 1, n0, size);
    StepsUp(part.s, 0, m - 1);
    assert Position(part, part.r, g, 0) == base;
    assert ps == [base] + rest && ps[1..] == rest;
    assert Spaced(base, part.s, m) == [base] + Spaced(base, part.s, m)[1..];
  }

  // The record of the bytes from `a` to `b` of a message stands at `at` in another.
  ghost predicate Placed(b0: seq<Byte>, b: seq<Byte>, at: int, from: int, to: int, len: int) {
    && 5 <= from <= to <= |b0| && 0 <= len < 0x1_0000 && 0 <= at && at + 5 + to - from <= |b|
    && b[at..at + 5 + to - from] == Record(b0[0..3], len, b0[from..to])
  }

  // Where the message bytes of record `k` begin.
  ghost function Source(cs: seq<int>, k: nat): int
    requires k <= |cs|
  {
    5 + Since(cs, k)
  }

  // A message seen from behind its header.
  lemma PlacedFrom(b0: seq<Byte>, b: seq<Byte>, at: int, from: int, to: int, len: int)
    requires |b0| >= 5 && 0 <= from <= to <= |b0| - 5 && RecordAt(b, at, b0[0..3], len, b0[5..][from..to])
    ensures Placed(b0, b, at, 5 + from, 5 + to, len)
  {
    assert b0[5..][from..to] == b0[5 + from..5 + to];
  }

  lemma PlacedStanding(b0: seq<Byte>, b: seq<Byte>, cs: seq<int>, k: nat)
    requires |b0| >= 5 && Standing(b0[0..3], b0[5..], cs, k, b)
    ensures Placed(b0, b, Begin(cs, k), Source(cs, k), Source(cs, k + 1), Source(cs, k + 1) - Source(cs, k))
  {
    PlacedFrom(b0, b, Begin(cs, k), Since(cs, k), cs[k], cs[k] - Since(cs, k));
  }

  lemma PrevSince(cs: seq<int>)
    ensures Prev(cs) == Since(cs, |cs|)
  {
  }

  // Each record holds the bytes of the message between two cuts,
  lemma PlacedEach(b0: seq<Byte>, declared: int, cs: seq<int>, b: seq<Byte>, k: nat)
    requires |b0| >= 5 && OneRecordEach(b0[0..3], b0[5..], declared, cs, b) && k < |cs|
    ensures Placed(b0, b, Begin(cs, k), Source(cs, k), Source(cs, k + 1), Source(cs, k + 1) - Source(cs, k))
  {
    var h, p, a := b0[0..3], b0[5..], Since(cs, |cs|);
    PiecesEnd(h, p, declared, cs, b);
    WholeRecord(h, p, cs, k);
    StandingStays(h, p, cs, cs, k, Whole(h, PiecesOf(p, cs)), Record(h, declared - a, p[a..|p|]));
    hide *;
    PlacedStanding(b0, b, cs, k);
  }

  // and the last one those behind them.
  lemma PlacedRest(b0: seq<Byte>, declared: int, cs: seq<int>, b: seq<Byte>)
    requires |b0| >= 5 && OneRecordEach(b0[0..3], b0[5..], declared, cs, b)
    ensures Placed(b0, b, Begin(cs, |cs|), Source(cs, |cs|), |b0|, declared - (Source(cs, |cs|) - 5))
  {
    var h, p, a := b0[0..3], b0[5..], Since(cs, |cs|);
    PiecesEnd(h, p, declared, cs, b);
    RecordLast(Whole(h, PiecesOf(p, cs)), h, declared - a, p[a..|p|]);
    PlacedFrom(b0, b, Begin(cs, |cs|), a, |p|, declared - a);
  }

  lemma PiecesEnd(h: seq<Byte>, p: seq<Byte>, declared: int, cs: seq<int>, b: seq<Byte>)
    requires OneRecordEach(h, p, declared, cs, b)
    ensures var a := Since(cs, |cs|);
      && Rising(cs, |p|) && Small(PiecesOf(p, cs)) && 0 <= a <= |p| && 0 <= declared - a < 0x1_0000
      && b == Whole(h, PiecesOf(p, cs)) + Record(h, declared - a, p[a..|p|])
      && |Whole(h, PiecesOf(p, cs))| == Begin(cs, |cs|)
  {
    WholeLength(h, p, cs);
    assert p[Prev(cs)..] == p[Prev(cs)..|p|];
  }

  // Where the cuts of one part lie: the first at `at` in the message, and each repetition `s` further.
  lemma SpacedPrev(at: int, s: int, m: nat, k: nat)
    requires m >= 1 && k <= m
    ensures var cs := Spaced(at - 5, s, m);
      && Source(cs, k) == (if k == 0 then 5 else at + s * (k - 1))
      && Begin(cs, k) == (if k == 0 then 0 else at + s * (k - 1) + 5 * (k - 1))
  {
  }

  // The message `b0` as records: the first up to `at`, then `m - 1` of `s` bytes each, and the rest.
  ghost predicate Evenly(b0: seq<Byte>, declared: int, at: int, s: int, m: nat, b: seq<Byte>) {
    && Placed(b0, b, 0, 5, at, at - 5)
    && (forall k {:trigger s * (k - 1)} :: 1 <= k < m ==>
          Placed(b0, b, at + s * (k - 1) + 5 * (k - 1), at + s * (k - 1), at + s * (k - 1) + s, s))
    && Placed(b0, b, at + s * (m - 1) + 5 * (m - 1), at + s * (m - 1), |b0|, declared - (at + s * (m - 1) - 5))
  }

  lemma EvenlyCut(b0: seq<Byte>, declared: int, at: int, s: int, m: nat, b: seq<Byte>)
    requires |b0| >= 5 && m >= 1 && s >= 0
    requires OneRecordEach(b0[0..3], b0[5..], declared, Spaced(at - 5, s, m), b)
    ensures Evenly(b0, declared, at, s, m, b)
  {
    hide OneRecordEach;
    hide Placed;
    hide Begin;
    hide Source;
    hide Spaced;
    var cs := Spaced(at - 5, s, m);
    SpacedPrev(at, s, m, m);
    PlacedRest(b0, declared, cs, b);
    SpacedPrev(at, s, m, 0);
    SpacedPrev(at, s, m, 1);
    PlacedEach(b0, declared, cs, b, 0);
    forall k {:trigger s * (k - 1)} | 1 <= k < m
      ensures Placed(b0, b, at + s * (k - 1) + 5 * (k - 1), at + s * (k - 1), at + s * (k - 1) + s, s)
    {
      SpacedPrev(at, s, m, k);
      SpacedPrev(at, s, m, k + 1);
      StepsUp(s, k - 1, k);
      PlacedEach(b0, declared, cs, b, k);
    }
  }

  // One part that is used `m` times: its first record is the message up to `at`, which is what gen_offset
  // answered if that counts from the start of the message, each further one the next `s` bytes, and the
  // last one the rest.
  method SplitEvery(buffer: array<Byte>, n0: nat, part: Part, g: int, ghost at: int, ghost m: nat) returns (n: nat)
    requires 5 < n0 <= buffer.Length && at == (if part.pos < 0 || part.flag != 0 then g else g + 5)
    requires 5 <= at && part.s >= 0 && m == (if part.r < 1 then 1 else part.r) && n0 + 5 * m <= buffer.Length
    requires at + part.s * (m - 1) <= n0 && at + part.s * (m - 1) - 5 <= Ntohs(buffer[0..n0], 3)
    modifies buffer
    ensures n == n0 + 5 * m <= buffer.Length
    ensures Evenly(old(buffer[0..n0]), old(Ntohs(buffer[0..n0], 3)), at, part.s, m, buffer[0..n])
  {
    hide PiecesOf;
    hide Positions;
    hide Prev;
    ghost var b0, declared := buffer[0..n0], Ntohs(buffer[0..n0], 3);
    ghost var cs;
    var gen := (_: nat) => g;
    SpacedCuts(part, gen, g, n0, buffer.Length);
    SpacedPrev(at, part.s, m, m);
    assert b0[0..3] == buffer[0..3] && b0[5..] == buffer[5..n0];
    hide OneRecordEach;
    hide Evenly;
    n, cs := SplitRecords(buffer, n0, [part], gen);
    PrevSince(cs);
    EvenlyCut(b0, declared, at, part.s, m, buffer[0..n]);
  }

  // ---- What the tracker makes of it ---------------------------------------------

  // A record of a known type that is not empty is whole for the tracker,
  lemma RecordIdle(h: seq<Byte>, payload: seq<Byte>)
    requires |h| == 3 && TlsTracker.KnownType(h[0]) && 0 < |payload| < 0x1_0000
    ensures TlsTracker.Run(TlsTracker.Idle, Record(h, |payload|, payload)) == TlsTracker.Idle
  {
    var s := Record(h, |payload|, payload);
    CutRecord(h, |payload|, payload, 0);
    assert TlsTracker.RecordSize(s[..5]) == |s| && s[|s|..] == [];
    TlsTracker.IdleMeansWhole(s);
  }

  lemma {:induction false} WholeIdle(h: seq<Byte>, pieces: seq<seq<Byte>>)
    requires |h| == 3 && TlsTracker.KnownType(h[0]) && Small(pieces)
    requires forall i :: 0 <= i < |pieces| ==> pieces[i] != []
    ensures TlsTracker.Run(TlsTracker.Idle, Whole(h, pieces)) == TlsTracker.Idle
    decreases |pieces|
  {
    if pieces != [] {
      var k := |pieces| - 1;
      WholeIdle(h, pieces[..k]);
      RecordIdle(h, pieces[k]);
      TlsTracker.RunSplit(TlsTracker.Idle, Whole(h, pieces[..k]), Record(h, |pieces[k]|, pieces[k]));
    }
  }

  // and so is a record that has been split where no piece is empty.
  lemma SplitTracked(h: seq<Byte>, p: seq<Byte>, cs: seq<int>, out: seq<Byte>)
    requires OneRecordEach(h, p, |p|, cs, out) && TlsTracker.KnownType(h[0]) && Prev(cs) < |p|
    requires forall k :: 0 <= k < |cs| ==> PiecesOf(p, cs)[k] != []
    ensures TlsTracker.WholeRecords(out)
  {
    var last := p[Prev(cs)..];
    WholeIdle(h, PiecesOf(p, cs));
    RecordIdle(h, last);
    TlsTracker.RunSplit(TlsTracker.Idle, Whole(h, PiecesOf(p, cs)), Record(h, |last|, last));
    TlsTracker.IdleMeansWhole(out);
  }
}
