/**
 The record tracker of `try_set_tls_timer` in `extend.c`: it follows the TLS records of a
 stream that arrives in chunks (section 5.1 of RFC 8446).
 */
module TlsTracker {
  import opened Common

  // ---- The same, one byte at a time ---------------------------------------------

  datatype State =
    | Idle                       // between records
    | Header(h: seq<Byte>)       // in the five header bytes
    | Body(size: int, pos: int)  // in the payload, `pos` bytes into a record of `size`
    | Dead                       // not TLS

  function RecordSize(h: seq<Byte>): int
    requires |h| == 5
  {
    var hi: int, lo: int := h[3], h[4];
    hi * 256 + lo + 5
  }

  predicate KnownType(t: Byte) {
    0x14 <= t <= 0x18
  }

  // In a record after `pos` of its bytes.
  function Within(size: int, pos: int): State {
    if pos == size then Idle else Body(size, pos)
  }

  function Step(s: State, b: Byte): State {
    match s
    case Idle => Header([b])
    case Header(h) =>
      if |h| != 5 then Header(h + [b])
      else if !KnownType(h[0]) || RecordSize(h) <= 5 then Dead
      else Within(RecordSize(h), 6)
    case Body(size, pos) => Within(size, pos + 1)
    case Dead => Dead
  }

  function Run(s: State, bytes: seq<Byte>): State
    decreases |bytes|
  {
    if bytes == [] then s else Step(Run(s, bytes[..|bytes| - 1]), bytes[|bytes| - 1])
  }

  // Chunks make no difference.
  lemma {:induction false} RunSplit(s: State, a: seq<Byte>, b: seq<Byte>)
    ensures Run(s, a + b) == Run(Run(s, a), b)
    decreases |b|
  {
    if b == [] {
      assert a + b == a;
    } else {
      var k := |b| - 1;
      assert (a + b)[..|a + b| - 1] == a + b[..k];
      RunSplit(s, a, b[..k]);
    }
  }

  lemma {:induction false} DeadStays(bytes: seq<Byte>)
    ensures Run(Dead, bytes) == Dead
    decreases |bytes|
  {
    if bytes != [] { DeadStays(bytes[..|bytes| - 1]); }
  }

  // A payload is skipped whatever is in it.
  lemma {:induction false} RunBody(size: int, pos: int, bytes: seq<Byte>)
    requires 0 < |bytes| <= size - pos
    ensures Run(Body(size, pos), bytes) == Within(size, pos + |bytes|)
    decreases |bytes|
  {
    var k := |bytes| - 1;
    if k > 0 {
      RunBody(size, pos, bytes[..k]);
    } else {
      assert bytes[..0] == [];
    }
  }

  lemma {:induction false} RunHeader(h: seq<Byte>, bytes: seq<Byte>)
    requires 0 < |h| && |h| + |bytes| <= 5
    ensures Run(Header(h), bytes) == Header(h + bytes)
    decreases |bytes|
  {
    if bytes == [] {
      assert h + bytes == h;
    } else {
      var k := |bytes| - 1;
      RunHeader(h, bytes[..k]);
      assert h + bytes[..k] + [bytes[k]] == h + bytes;
    }
  }

  // ---- Whole records ------------------------------------------------------------

  // `bytes` is a sequence of complete records of known types, none of them empty.
  predicate WholeRecords(bytes: seq<Byte>)
    decreases |bytes|
  {
    bytes == [] ||
    (&& |bytes| > 5 && KnownType(bytes[0])
     && 5 < RecordSize(bytes[..5]) <= |bytes|
     && WholeRecords(bytes[RecordSize(bytes[..5])..]))
  }

  // The first header, once one byte of payload follows it.
  lemma RunFirst(bytes: seq<Byte>)
    requires |bytes| >= 6
    ensures Run(Idle, bytes[..6]) == Step(Header(bytes[..5]), bytes[5])
  {
    assert bytes[..6][..5] == bytes[..5];
    assert bytes[..5] == [bytes[0]] + bytes[1..5];
    RunSplit(Idle, [bytes[0]], bytes[1..5]);
    assert [bytes[0]][..0] == [];
    assert Run(Idle, [bytes[0]]) == Header([bytes[0]]);
    RunHeader([bytes[0]], bytes[1..5]);
  }

  // The first record.
  lemma RunRecord(bytes: seq<Byte>, size: int)
    requires |bytes| > 5 && KnownType(bytes[0]) && size == RecordSize(bytes[..5]) && 5 < size <= |bytes|
    ensures Run(Idle, bytes[..size]) == Idle && Run(Idle, bytes) == Run(Idle, bytes[size..])
  {
    RunFirst(bytes);
    if size > 6 {
      assert bytes[..size] == bytes[..6] + bytes[6..size];
      RunSplit(Idle, bytes[..6], bytes[6..size]);
      RunBody(size, 6, bytes[6..size]);
    }
    assert bytes == bytes[..size] + bytes[size..];
    RunSplit(Idle, bytes[..size], bytes[size..]);
  }

  // The tracker is between records exactly after whole records.
  lemma {:induction false} IdleMeansWhole(bytes: seq<Byte>)
    ensures Run(Idle, bytes) == Idle <==> WholeRecords(bytes)
    decreases |bytes|
  {
    if 0 < |bytes| <= 5 {
      assert bytes == [bytes[0]] + bytes[1..];
      RunSplit(Idle, [bytes[0]], bytes[1..]);
      assert [bytes[0]][..0] == [];
      assert Run(Idle, [bytes[0]]) == Header([bytes[0]]);
      RunHeader([bytes[0]], bytes[1..]);
    } else if |bytes| > 5 {
      var size := RecordSize(bytes[..5]);
      if KnownType(bytes[0]) && 5 < size <= |bytes| {
        RunRecord(bytes, size);
        IdleMeansWhole(bytes[size..]);
      } else {
        RunFirst(bytes);
        assert bytes == bytes[..6] + bytes[6..];
        RunSplit(Idle, bytes[..6], bytes[6..]);
        if !KnownType(bytes[0]) || size <= 5 {
          DeadStays(bytes[6..]);
        } else if |bytes| > 6 {
          RunBody(size, 6, bytes[6..]);
        }
      }
    }
  }

  // ---- In chunks ----------------------------------------------------------------

  lemma RunPayload(h: seq<Byte>, bytes: seq<Byte>)
    requires |h| == 5 && KnownType(h[0]) && 0 < |bytes| <= RecordSize(h) - 5
    ensures Run(Header(h), bytes) == Within(RecordSize(h), 5 + |bytes|)
  {
    assert bytes == [bytes[0]] + bytes[1..];
    RunSplit(Header(h), [bytes[0]], bytes[1..]);
    assert [bytes[0]][..0] == [];
    assert Run(Header(h), [bytes[0]]) == Step(Header(h), bytes[0]);
    if |bytes| > 1 { RunBody(RecordSize(h), 6, bytes[1..]); }
  }

  lemma RunDies(h: seq<Byte>, bytes: seq<Byte>)
    requires |h| == 5 && (!KnownType(h[0]) || RecordSize(h) <= 5) && bytes != []
    ensures Run(Header(h), bytes) == Dead
  {
    assert bytes == [bytes[0]] + bytes[1..];
    RunSplit(Header(h), [bytes[0]], bytes[1..]);
    assert [bytes[0]][..0] == [];
    DeadStays(bytes[1..]);
  }

  lemma RunOn(s: State, buff: seq<Byte>, i: int, j: int)
    requires 0 <= i <= j <= |buff|
    ensures Run(s, buff[..j]) == Run(Run(s, buff[..i]), buff[i..j])
  {
    assert buff[..j] == buff[..i] + buff[i..j];
    RunSplit(s, buff[..i], buff[i..j]);
  }

  lemma RunOne(s: State, b: Byte)
    ensures Run(s, [b]) == Step(s, b)
  {
    assert [b][..0] == [];
  }

  datatype Timer = Keep | Clear | Arm

  ghost function Flatten(chunks: seq<seq<Byte>>): seq<Byte> {
    if chunks == [] then [] else Flatten(chunks[..|chunks| - 1]) + chunks[|chunks| - 1]
  }

  class Tracker {
    var size: int
    var pos: int
    const rec: array<Byte>

    ghost predicate Valid()
      reads this
    {
      && rec.Length == 5
      && ((pos == size && (pos == 0 || 5 < pos)) || (size == 0 && 0 < pos <= 5) || 5 < pos < size)
    }

    ghost function Abs(): State
      requires Valid()
      reads this, rec
    {
      if pos == size then Idle else if pos <= 5 then Header(rec[..pos]) else Body(size, pos)
    }

    constructor ()
      ensures Valid() && Abs() == Idle && fresh(rec)
    {
      size, pos := 0, 0;
      rec := new Byte[5](_ => 0);
    }

    method HeaderByte(b: Byte)
      requires Valid() && pos < 5
      modifies this`pos, rec
      ensures Valid() && Abs() == Step(old(Abs()), b) && pos == old(pos) + 1
    {
      rec[pos] := b;
      pos := pos + 1;
      assert rec[..pos] == old(rec[..pos]) + [b];
    }

    // One turn of the loop over a chunk: a byte of a header, the step to the next record, or payload.
    method FeedStep(buff: seq<Byte>, i: nat) returns (ok: bool, j: nat)
      requires Valid() && i < |buff|
      modifies this, rec
      ensures !ok ==> Run(old(Abs()), buff[i..]) == Dead
      ensures ok ==> i <= j <= |buff| && Valid() && Abs() == Run(old(Abs()), buff[i..j])
      ensures ok && j == i ==> old(0 < pos == size) && pos == 0
    {
      ok, j := true, i;
      if pos < 5 {
        assert buff[i..i + 1] == [buff[i]];
        RunOne(Abs(), buff[i]);
        HeaderByte(buff[i]);
        j := i + 1;
      } else if pos == size {
        pos, size := 0, 0;
      } else {
        var n;
        ok, n := Consume(buff, i);
        if ok {
          j := i + n;
        }
      }
    }

    // The loop over one chunk.
    method Feed(buff: seq<Byte>) returns (ok: bool)
      requires Valid() && buff != []
      modifies this, rec
      ensures ok <==> Run(old(Abs()), buff) != Dead
      ensures ok ==> Valid() && Abs() == Run(old(Abs()), buff)
    {
      ghost var s := Abs();
      var i := 0;
      assert buff[..0] == [];
      while i < |buff|
        invariant 0 <= i <= |buff| && Valid() && Abs() == Run(s, buff[..i])
        decreases |buff| - i, if 0 < pos == size then 1 else 0
      {
        var j;
        ok, j := FeedStep(buff, i);
        if !ok {
          RunOn(s, buff, i, |buff|);
          assert buff[..|buff|] == buff && buff[i..|buff|] == buff[i..];
          return;
        }
        RunOn(s, buff, i, j);
        i := j;
      }
      assert buff[..|buff|] == buff;
      NeverDead();
      ok := true;
    }

    lemma NeverDead()
      requires Valid()
      ensures Abs() != Dead
    {
    }

    // The payload that the chunk holds from `i` on, after a look at the header if it is complete.
    method Consume(buff: seq<Byte>, i: nat) returns (ok: bool, n: nat)
      requires Valid() && pos != size && 5 <= pos && i < |buff|
      modifies this`size, this`pos
      ensures !ok ==> Run(old(Abs()), buff[i..]) == Dead
      ensures ok ==> 0 < n <= |buff| - i && Valid() && Abs() == Run(old(Abs()), buff[i..i + n])
    {
      ok, n := false, 0;
      ghost var h := rec[..];
      ghost var atHeader := pos == 5;
      if pos == 5 {
        assert rec[..5] == h;
        var hi: int, lo: int := rec[3], rec[4];
        size := hi * 256 + lo + 5;
        if rec[0] < 0x14 || rec[0] > 0x18 {
          RunDies(h, buff[i..]);
          return;
        }
      }
      var end := size - pos;
      if end <= 0 {
        RunDies(h, buff[i..]);
        return;
      }
      if i + end > |buff| {
        end := |buff| - i;
      }
      if atHeader {
        RunPayload(h, buff[i..i + end]);
      } else {
        RunBody(size, pos, buff[i..i + end]);
      }
      pos := pos + end;
      ok, n := true, end;
    }

    // try_set_tls_timer: the timer runs exactly while a record is incomplete.
    method TrySetTlsTimer(buff: seq<Byte>, recvCount: int, limit: int, ptimeout: int) returns (ok: bool, timer: Timer)
      requires Valid() && buff != []
      modifies this, rec
      ensures ok <==> !(limit != 0 && recvCount > limit) && Run(old(Abs()), buff) != Dead
      ensures ok ==> Valid() && Abs() == Run(old(Abs()), buff)
      ensures ok ==> timer == if ptimeout == 0 then Keep else if Abs() == Idle then Clear else Arm
      ensures !ok ==> timer == if limit != 0 && recvCount > limit then Clear else Keep
    {
      if limit != 0 && recvCount > limit {
        return false, Clear;
      }
      ok := Feed(buff);
      timer := Keep;
      if ok && ptimeout != 0 {
        timer := if pos != size then Arm else Clear;
      }
    }

    // However a stream is cut into chunks, it is accepted or not as a whole, and the tracker
    // ends between records exactly if the stream is whole records.
    method FeedAll(chunks: seq<seq<Byte>>) returns (ok: bool)
      requires Valid() && Abs() == Idle && forall i :: 0 <= i < |chunks| ==> chunks[i] != []
      modifies this, rec
      ensures ok <==> Run(Idle, Flatten(chunks)) != Dead
      ensures ok ==> Valid() && Abs() == Run(Idle, Flatten(chunks)) && (pos == size <==> WholeRecords(Flatten(chunks)))
    {
      var i := 0;
      assert chunks[..0] == [];
      while i < |chunks|
        invariant 0 <= i <= |chunks| && Valid() && Abs() == Run(Idle, Flatten(chunks[..i]))
      {
        FlattenOn(chunks, i);
        RunSplit(Idle, Flatten(chunks[..i]), chunks[i]);
        ok := Feed(chunks[i]);
        if !ok {
          FlattenDead(chunks, i + 1);
          return;
        }
        i := i + 1;
      }
      assert chunks[..|chunks|] == chunks;
      NeverDead();
      IdleMeansWhole(Flatten(chunks));
      ok := true;
    }
  }

  lemma FlattenOn(chunks: seq<seq<Byte>>, i: int)
    requires 0 <= i < |chunks|
    ensures Flatten(chunks[..i + 1]) == Flatten(chunks[..i]) + chunks[i]
  {
    assert chunks[..i + 1][..i] == chunks[..i];
  }

  // A stream that is rejected stays rejected.
  lemma {:induction false} FlattenDead(chunks: seq<seq<Byte>>, i: int)
    requires 0 <= i <= |chunks| && Run(Idle, Flatten(chunks[..i])) == Dead
    ensures Run(Idle, Flatten(chunks)) == Dead
    decreases |chunks| - i
  {
    if i == |chunks| {
      assert chunks[..i] == chunks;
    } else {
      FlattenOn(chunks, i);
      RunSplit(Idle, Flatten(chunks[..i]), chunks[i]);
      DeadStays(chunks[i]);
      FlattenDead(chunks, i + 1);
    }
  }
}
