/**
 Splitting a TLS record in place: `part_tls` of `packets.c` (section 5.1 of RFC 8446).
 */
module TlsSplit {
  import opened Common

  // ANTOHS
  function Ntohs(s: seq<Byte>, i: nat): int
    requires i + 2 <= |s|
  {
    var hi: int, lo: int := s[i], s[i + 1];
    hi * 256 + lo
  }

  // SHTONA
  function Htons(x: int): (s: seq<Byte>)
    requires 0 <= x < 0x1_0000
    ensures |s| == 2 && Ntohs(s, 0) == x
  {
    [x / 256, x % 256]
  }

  // The byte of more weight comes first: numbers are in the order of their bytes.
  lemma NetworkOrder(x: int, y: int)
    requires 0 <= x < 0x1_0000 && 0 <= y < 0x1_0000
    ensures x < y <==> Htons(x)[0] < Htons(y)[0] || (Htons(x)[0] == Htons(y)[0] && Htons(x)[1] < Htons(y)[1])
  {
    var a, b, c, d := x / 256, x % 256, y / 256, y % 256;
    assert x == 256 * a + b && y == 256 * c + d && 0 <= b < 256 && 0 <= d < 256;
  }

  // ---- Records as they are on the wire ------------------------------------------

  // One record: type and version `h`, a length field, and payload.
  function Record(h: seq<Byte>, len: int, payload: seq<Byte>): seq<Byte>
    requires |h| == 3 && 0 <= len < 0x1_0000
  {
    h + Htons(len) + payload
  }

  ghost predicate Small(pieces: seq<seq<Byte>>) {
    forall i :: 0 <= i < |pieces| ==> |pieces[i]| < 0x1_0000
  }

  // Complete records of one type and version.
  ghost function Whole(h: seq<Byte>, pieces: seq<seq<Byte>>): seq<Byte>
    requires |h| == 3 && Small(pieces)
    decreases |pieces|
  {
    if pieces == [] then [] else
      Whole(h, pieces[..|pieces| - 1]) + Record(h, |pieces[|pieces| - 1]|, pieces[|pieces| - 1])
  }

  ghost function Concat(pieces: seq<seq<Byte>>): seq<Byte> {
    if pieces == [] then [] else Concat(pieces[..|pieces| - 1]) + pieces[|pieces| - 1]
  }

  // Complete records and then `last`, whose record declares `missing` bytes more than are there,
  // or fewer when `missing` is negative.
  ghost predicate Declared(pieces: seq<seq<Byte>>, last: seq<Byte>, missing: int) {
    Small(pieces) && 0 <= |last| + missing < 0x1_0000
  }

  ghost function Wire(h: seq<Byte>, pieces: seq<seq<Byte>>, last: seq<Byte>, missing: int): seq<Byte>
    requires |h| == 3 && Declared(pieces, last, missing)
  {
    Whole(h, pieces) + Record(h, |last| + missing, last)
  }

  // Cutting the last record in two at `pos`.
  lemma CutWire(h: seq<Byte>, pieces: seq<seq<Byte>>, last: seq<Byte>, pos: int, missing: int)
    requires |h| == 3 && Declared(pieces, last, missing) && 0 <= pos <= |last| && pos <= |last| + missing
    ensures Declared(pieces + [last[..pos]], last[pos..], missing)
    ensures Concat(pieces + [last[..pos]]) + last[pos..] == Concat(pieces) + last
    ensures Whole(h, pieces + [last[..pos]]) == Whole(h, pieces) + Record(h, pos, last[..pos])
  {
    var front := pieces + [last[..pos]];
    assert front[..|pieces|] == pieces;
    assert last[..pos] + last[pos..] == last;
  }

  // ---- part_tls -----------------------------------------------------------------

  // The bytes of one record, and of the same record cut at `pos`.
  ghost function CutBytes(s: seq<Byte>, pos: int): seq<Byte>
    requires |s| >= 5 && 0 <= pos <= |s| - 5 && pos <= Ntohs(s, 3)
  {
    s[0..3] + Htons(pos) + s[5..5 + pos] + s[0..3] + Htons(Ntohs(s, 3) - pos) + s[5 + pos..|s|]
  }

  // memmove towards the end of the buffer.
  method MoveUp(buffer: array<Byte>, dst: nat, src: nat, len: nat)
    requires src <= dst && dst + len <= buffer.Length
    modifies buffer
    ensures buffer[dst..dst + len] == old(buffer[src..src + len])
    ensures buffer[..dst] == old(buffer[..dst]) && buffer[dst + len..] == old(buffer[dst + len..])
  {
    ghost var was := buffer[..];
    var i := len;
    while i > 0
      invariant 0 <= i <= len
      invariant buffer[..dst + i] == was[..dst + i] && buffer[dst + len..] == was[dst + len..]
      invariant buffer[dst + i..dst + len] == was[src + i..src + len]
    {
      i := i - 1;
      assert buffer[src + i] == buffer[..dst + i + 1][src + i] == was[src + i];
      buffer[dst + i] := buffer[src + i];
      assert buffer[dst + i..dst + len] == [was[src + i]] + was[src + i + 1..src + len];
    }
  }

  // The record header of the second half, and both length fields.
  method StoreHeaders(buffer: array<Byte>, lp: nat, at: nat, first: int, second: int)
    requires lp + 5 <= at && at + 5 <= buffer.Length && 0 <= first < 0x1_0000 && 0 <= second < 0x1_0000
    modifies buffer
    ensures buffer[..lp + 3] == old(buffer[..lp + 3]) && buffer[lp + 3..lp + 5] == Htons(first)
    ensures buffer[lp + 5..at] == old(buffer[lp + 5..at])
    ensures buffer[at..at + 3] == old(buffer[lp..lp + 3]) && buffer[at + 3..at + 5] == Htons(second)
    ensures buffer[at + 5..] == old(buffer[at + 5..])
  {
    buffer[at], buffer[at + 1], buffer[at + 2] := buffer[lp], buffer[lp + 1], buffer[lp + 2];
    buffer[lp + 3], buffer[lp + 4] := first / 256, first % 256;
    buffer[at + 3], buffer[at + 4] := second / 256, second % 256;
  }

  lemma SliceOf<T>(a: seq<T>, lo: int, hi: int, x: int, y: int)
    requires 0 <= lo <= hi <= |a| && 0 <= x <= y <= hi - lo
    ensures a[lo..hi][x..y] == a[lo + x..lo + y]
  {
    var s, t := a[lo..hi][x..y], a[lo + x..lo + y];
    forall k | 0 <= k < y - x
      ensures s[k] == t[k]
    {
      assert s[k] == a[lo..hi][x + k] && t[k] == a[lo + x + k];
    }
  }

  lemma Slice<T>(a: seq<T>, b: seq<T>, lo: int, hi: int, i: int, j: int)
    requires 0 <= lo <= i <= j <= hi <= |a| == |b| && a[lo..hi] == b[lo..hi]
    ensures a[i..j] == b[i..j]
  {
    SliceOf(a, lo, hi, i - lo, j - lo);
    SliceOf(b, lo, hi, i - lo, j - lo);
  }

  lemma Assemble(b: seq<Byte>, lp: int, at: int, end: int)
    requires 0 <= lp && lp + 5 <= at && at + 5 <= end <= |b|
    ensures b[lp..end] ==
      b[lp..lp + 3] + b[lp + 3..lp + 5] + b[lp + 5..at] + b[at..at + 3] + b[at + 3..at + 5] + b[at + 5..end]
  {
  }

  // What the two halves are made of.
  lemma PartPieces(b0: seq<Byte>, b1: seq<Byte>, b2: seq<Byte>, lp: int, at: int, n: int, pos: int)
    requires 0 <= lp && 0 <= pos && pos + 5 <= n && at == lp + 5 + pos && lp + n + 5 <= |b0| == |b1| == |b2|
    requires b1[0..at + 5] == b0[0..at + 5] && b1[at + 5..lp + n + 5] == b0[at..lp + n]
    requires b2[0..lp + 3] == b1[0..lp + 3] && b2[lp + 5..at] == b1[lp + 5..at]
    requires b2[at..at + 3] == b1[lp..lp + 3] && b2[at + 5..|b2|] == b1[at + 5..|b2|]
    ensures var s := b0[lp..lp + n];
      && b2[lp..lp + 3] == s[0..3] && b2[lp + 5..at] == s[5..5 + pos] && b2[at..at + 3] == s[0..3]
      && b2[at + 5..lp + n + 5] == s[5 + pos..n] && b2[0..lp] == b0[0..lp]
  {
    Slice(b2, b1, 0, lp + 3, lp, lp + 3);
    Slice(b2, b1, 0, lp + 3, 0, lp);
    Slice(b1, b0, 0, at + 5, lp, lp + 3);
    Slice(b1, b0, 0, at + 5, 0, lp);
    Slice(b1, b0, 0, at + 5, lp + 5, at);
    Slice(b2, b1, at + 5, |b2|, at + 5, lp + n + 5);
    SliceOf(b0, lp, lp + n, 0, 3);
    SliceOf(b0, lp, lp + n, 5, 5 + pos);
    SliceOf(b0, lp, lp + n, 5 + pos, n);
  }

  // The buffer before the move, after it, and after the headers are stored.
  lemma PartResult(b0: seq<Byte>, b1: seq<Byte>, b2: seq<Byte>, lp: int, at: int, n: int, pos: int)
    requires 0 <= lp && 0 <= pos && pos + 5 <= n && at == lp + 5 + pos && lp + n + 5 <= |b0| == |b1| == |b2|
    requires b1[0..at + 5] == b0[0..at + 5] && b1[at + 5..lp + n + 5] == b0[at..lp + n]
    requires pos <= Ntohs(b0[lp..lp + n], 3)
    requires b2[0..lp + 3] == b1[0..lp + 3] && b2[lp + 3..lp + 5] == Htons(pos) && b2[lp + 5..at] == b1[lp + 5..at]
    requires b2[at..at + 3] == b1[lp..lp + 3] && b2[at + 3..at + 5] == Htons(Ntohs(b0[lp..lp + n], 3) - pos)
    requires b2[at + 5..|b2|] == b1[at + 5..|b2|]
    ensures b2[lp..lp + n + 5] == CutBytes(b0[lp..lp + n], pos) && b2[0..lp] == b0[0..lp]
  {
    PartPieces(b0, b1, b2, lp, at, n, pos);
    Assemble(b2, lp, at, lp + n + 5);
  }

  // part_tls on the `n` bytes from `lp` on; the buffer ends where the array does.
  method PartTls(buffer: array<Byte>, lp: nat, n: int, pos: int) returns (r: int)
    requires lp <= buffer.Length && lp + n <= buffer.Length
    modifies buffer
    ensures buffer[..lp] == old(buffer[..lp])
    // Not split: no room, or no such place.
    ensures r == 0 <==> n < 3 || buffer.Length - lp - n < 5 || pos < 0 || pos + 5 > n
    ensures r == 0 ==> buffer[..] == old(buffer[..])
    // Not split, though reported as done: the place lies beyond the record.
    ensures r != 0 && old(Ntohs(buffer[lp..lp + n], 3)) < pos ==> r == n && buffer[..] == old(buffer[..])
    // Split in two records.
    ensures r != 0 && pos <= old(Ntohs(buffer[lp..lp + n], 3)) ==>
      r == 5 && buffer[lp..lp + n + 5] == CutBytes(old(buffer[lp..lp + n]), pos)
  {
    if n < 3 || buffer.Length - lp - n < 5 || pos < 0 || pos + 5 > n {
      return 0;
    }
    ghost var s := buffer[lp..lp + n];
    var hi: int, lo: int := buffer[lp + 3], buffer[lp + 4];
    var size := hi * 256 + lo;
    assert size == Ntohs(s, 3);
    if size < pos {
      return n;
    }
    var at := lp + 5 + pos;
    ghost var b0 := buffer[..];
    MoveUp(buffer, at + 5, at, n - (5 + pos));
    ghost var b1 := buffer[..];
    StoreHeaders(buffer, lp, at, pos, size - pos);
    PartResult(b0, b1, buffer[..], lp, at, n, pos);
    r := 5;
  }

  // ---- A buffer of records ------------------------------------------------------

  // A record split as part_tls splits it is two records.
  lemma CutRecord(h: seq<Byte>, len: int, payload: seq<Byte>, pos: int)
    requires |h| == 3 && 0 <= pos <= |payload| && pos <= len < 0x1_0000
    ensures var s := Record(h, len, payload);
      && |s| >= 5 && Ntohs(s, 3) == len
      && CutBytes(s, pos) == Record(h, pos, payload[..pos]) + Record(h, len - pos, payload[pos..])
  {
    var s := Record(h, len, payload);
    assert s[3] == Htons(len)[0] && s[4] == Htons(len)[1];
    assert s[0..3] == h && s[5..5 + pos] == payload[..pos] && s[5 + pos..|s|] == payload[pos..];
  }

  // The buffer up to `n` is records of one type and version, the last one from `lp` on.
  ghost predicate Split(b: seq<Byte>, n: int, lp: int, h: seq<Byte>, pieces: seq<seq<Byte>>, last: seq<Byte>,
                        missing: int) {
    && |h| == 3 && Declared(pieces, last, missing) && 0 <= lp <= n <= |b|
    && b[0..lp] == Whole(h, pieces) && b[lp..n] == Record(h, |last| + missing, last)
  }

  lemma SplitWire(b: seq<Byte>, n: int, lp: int, h: seq<Byte>, pieces: seq<seq<Byte>>, last: seq<Byte>, missing: int)
    requires Split(b, n, lp, h, pieces, last, missing)
    ensures b[0..n] == Wire(h, pieces, last, missing)
  {
    assert b[0..n] == b[0..lp] + b[lp..n];
  }

  lemma SplitStart(b: seq<Byte>, n: int)
    requires 5 <= n <= |b|
    ensures Split(b, n, 0, b[0..3], [], b[5..n], Ntohs(b[0..n], 3) - (n - 5))
  {
    assert b[0..n] == b[0..3] + b[3..5] + b[5..n];
    assert Htons(Ntohs(b[0..n], 3)) == [b[3], b[4]] == b[3..5];
  }

  lemma SplitFits(b: seq<Byte>, n: int, lp: int, h: seq<Byte>, pieces: seq<seq<Byte>>, last: seq<Byte>, missing: int)
    requires Split(b, n, lp, h, pieces, last, missing)
    ensures n - lp == 5 + |last| && Ntohs(b[lp..n], 3) == |last| + missing
  {
    CutRecord(h, |last| + missing, last, 0);
  }

  lemma SplitOn(b: seq<Byte>, b': seq<Byte>, n: int, lp: int, pos: int, h: seq<Byte>, pieces: seq<seq<Byte>>,
                last: seq<Byte>, missing: int)
    requires Split(b, n, lp, h, pieces, last, missing) && n == lp + 5 + |last|
    requires 0 <= pos <= |last| && pos <= |last| + missing && n + 5 <= |b'|
    requires b'[0..lp] == b[0..lp]
    requires b'[lp..n + 5] == Record(h, pos, last[..pos]) + Record(h, |last| + missing - pos, last[pos..])
    ensures Split(b', n + 5, lp + pos + 5, h, pieces + [last[..pos]], last[pos..], missing)
  {
    var left, right := Record(h, pos, last[..pos]), Record(h, |last| + missing - pos, last[pos..]);
    CutWire(h, pieces, last, pos, missing);
    SliceOf(b', lp, n + 5, 0, pos + 5);
    SliceOf(b', lp, n + 5, pos + 5, n + 5 - lp);
    assert (left + right)[0..pos + 5] == left && (left + right)[pos + 5..n + 5 - lp] == right;
    assert b'[0..lp + pos + 5] == b'[0..lp] + b'[lp..lp + pos + 5];
  }

  lemma SplitTurn(b: seq<Byte>, b': seq<Byte>, n: int, lp: int, pos: int, h: seq<Byte>, pieces: seq<seq<Byte>>,
                  last: seq<Byte>, missing: int)
    requires Split(b, n, lp, h, pieces, last, missing) && 0 <= pos && 5 + pos <= n - lp && n + 5 <= |b'|
    requires pos <= Ntohs(b[lp..n], 3) && b'[0..lp] == b[0..lp] && b'[lp..n + 5] == CutBytes(b[lp..n], pos)
    ensures pos <= |last| && pos <= |last| + missing
    ensures Split(b', n + 5, lp + pos + 5, h, pieces + [last[..pos]], last[pos..], missing)
    ensures Concat(pieces + [last[..pos]]) + last[pos..] == Concat(pieces) + last
  {
    SplitFits(b, n, lp, h, pieces, last, missing);
    CutRecord(h, |last| + missing, last, pos);
    SplitOn(b, b', n, lp, pos, h, pieces, last, missing);
    CutWire(h, pieces, last, pos, missing);
  }
}
