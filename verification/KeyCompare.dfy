/**
 `bit_cmp` and `host_cmp` of `mpool.c`, on the bytes they read.
 */
module KeyCompare {
  import opened Common
  import opened KeyOrder

  // ---- bit_cmp ------------------------------------------------------------------

  // c >> (8 - d): the top `d` bits of a byte.
  function Shift(c: Byte, d: nat): (t: nat)
    requires d <= 8
    decreases 8 - d
  {
    if d == 8 then c else Shift(c, d + 1) / 2
  }

  // Bit `i` of the data, the most significant bit of a byte first.
  function Bit(data: seq<Byte>, i: nat): (b: int)
    requires i < 8 * |data|
    ensures 0 <= b <= 1
  {
    Shift(data[i / 8], i % 8 + 1) % 2
  }

  // The first `n` bits.
  function BitWord(data: seq<Byte>, n: nat): (w: Word)
    requires n <= 8 * |data|
    ensures |w| == n
  {
    if n == 0 then [] else BitWord(data, n - 1) + [Bit(data, n - 1)]
  }

  // The number that the first `n` bits spell.
  ghost function Value(data: seq<Byte>, n: nat): nat
    requires n <= 8 * |data|
  {
    if n == 0 then 0 else 2 * Value(data, n - 1) + Bit(data, n - 1)
  }

  lemma {:induction false} BitWordTake(data: seq<Byte>, n: nat, k: nat)
    requires k <= n <= 8 * |data|
    ensures BitWord(data, n)[..k] == BitWord(data, k)
  {
    if k < n {
      BitWordTake(data, n - 1, k);
      assert BitWord(data, n)[..k] == BitWord(data, n - 1)[..k];
    } else {
      assert BitWord(data, n)[..k] == BitWord(data, n);
    }
  }

  function Sign(x: int): int {
    if x < 0 then -1 else if x > 0 then 1 else 0
  }

  // Words of equally many bits compare like the numbers they spell.
  lemma {:induction false} ValueOrder(a: seq<Byte>, b: seq<Byte>, n: nat)
    requires n <= 8 * |a| && n <= 8 * |b|
    ensures Sign(Value(a, n) - Value(b, n)) == Lex(BitWord(a, n), BitWord(b, n))
  {
    if n == 0 {
      LexEqual([], []);
    } else {
      var u, v := BitWord(a, n - 1), BitWord(b, n - 1);
      ValueOrder(a, b, n - 1);
      LexEqual(u, v);
      LexSnoc(u, Bit(a, n - 1), v, Bit(b, n - 1));
    }
  }

  lemma LexSnoc(u: Word, x: int, v: Word, y: int)
    requires |u| == |v|
    ensures Lex(u + [x], v + [y]) == if u == v then Sign(x - y) else Lex(u, v)
  {
    var a, b := u + [x], v + [y];
    if u == v && x == y {
      LexEqual(a, b);
    } else {
      var d := Diff(u, v);
      assert a[..d] == u[..d] && b[..d] == v[..d];
      DiffIs(a, b, d);
    }
  }

  // memcmp
  function MemCmp(a: seq<Byte>, b: seq<Byte>, n: nat): int
    requires n <= |a| && n <= |b|
  {
    if n == 0 then 0 else
      var c := MemCmp(a, b, n - 1);
      var x: int, y: int := a[n - 1], b[n - 1];
      if c != 0 then c else Sign(x - y)
  }

  function Either(c: int, d: int): int {
    if c != 0 then c else d
  }

  lemma ShiftZero(c: Byte)
    ensures Shift(c, 0) == 0
  {
    assert Shift(c, 6) == c / 2 / 2 && Shift(c, 4) == Shift(c, 6) / 2 / 2 && Shift(c, 2) == Shift(c, 4) / 2 / 2;
  }

  lemma ShiftStep(c: Byte, d: nat)
    requires 0 < d <= 8
    ensures Shift(c, d) == 2 * Shift(c, d - 1) + Shift(c, d) % 2
  {
  }

  // The number spelled by `k` bytes and the top `d` bits of the next one.
  ghost function ByteValue(p: seq<Byte>, k: nat, d: nat): nat
    requires k <= |p| && d <= 8 && (d > 0 ==> k < |p|)
    decreases k, d
  {
    if d > 0 then 2 * ByteValue(p, k, d - 1) + Shift(p[k], d) % 2
    else if k > 0 then ByteValue(p, k - 1, 8)
    else 0
  }

  lemma {:induction false} ByteValueIs(p: seq<Byte>, k: nat, d: nat)
    requires k <= |p| && d <= 8 && (d > 0 ==> k < |p|)
    ensures 8 * k + d <= 8 * |p| && ByteValue(p, k, d) == Value(p, 8 * k + d)
    decreases k, d
  {
    if d > 0 {
      ByteValueIs(p, k, d - 1);
      assert (8 * k + d - 1) / 8 == k && (8 * k + d - 1) % 8 == d - 1;
    } else if k > 0 {
      ByteValueIs(p, k - 1, 8);
    }
  }

  lemma {:induction false} ValueTop(p: seq<Byte>, q: seq<Byte>, k: nat, d: nat)
    requires k < |p| && k < |q| && d <= 8
    ensures Sign(ByteValue(p, k, d) - ByteValue(q, k, d)) ==
      Either(Sign(ByteValue(p, k, 0) - ByteValue(q, k, 0)), Sign(Shift(p[k], d) - Shift(q[k], d)))
  {
    if d == 0 {
      ShiftZero(p[k]);
      ShiftZero(q[k]);
    } else {
      ValueTop(p, q, k, d - 1);
      ShiftStep(p[k], d);
      ShiftStep(q[k], d);
      hide Shift;
      hide Sign;
      hide Either;
      TopStep(ByteValue(p, k, d - 1), ByteValue(q, k, d - 1), Shift(p[k], d) % 2, Shift(q[k], d) % 2,
              Shift(p[k], d - 1), Shift(q[k], d - 1), Sign(ByteValue(p, k, 0) - ByteValue(q, k, 0)));
    }
  }

  lemma TopStep(v: int, w: int, b: int, c: int, s: int, t: int, front: int)
    requires 0 <= b <= 1 && 0 <= c <= 1 && Sign(v - w) == Either(front, Sign(s - t))
    ensures Sign(2 * v + b - (2 * w + c)) == Either(front, Sign(2 * s + b - (2 * t + c)))
  {
  }

  lemma {:induction false} MemCmpValue(a: seq<Byte>, b: seq<Byte>, n: nat)
    requires n <= |a| && n <= |b|
    ensures MemCmp(a, b, n) == Sign(ByteValue(a, n, 0) - ByteValue(b, n, 0))
  {
    if n > 0 {
      MemCmpValue(a, b, n - 1);
      ValueTop(a, b, n - 1, 8);
    }
  }

  function BitCmp(p: seq<Byte>, plen: nat, q: seq<Byte>, qlen: nat): (r: int)
    requires plen <= 8 * |p| && qlen <= 8 * |q|
    ensures r == Compare(Bits, BitWord(p, plen), BitWord(q, qlen))
  {
    var len := if qlen < plen then qlen else plen;
    var df, bytes := len % 8, len / 8;
    var cmp := MemCmp(p, q, bytes);
    BitCmpMeans(p, plen, q, qlen, len);
    if cmp != 0 || df == 0 then cmp
    else
      var c1, c2 := Shift(p[bytes], df), Shift(q[bytes], df);
      if c1 != c2 then (if c1 < c2 then -1 else 1) else 0
  }

  // Comparing two bit strings is comparing the numbers in their common length.
  lemma BitCmpMeans(p: seq<Byte>, plen: nat, q: seq<Byte>, qlen: nat, len: nat)
    requires plen <= 8 * |p| && qlen <= 8 * |q| && len == if qlen < plen then qlen else plen
    ensures Compare(Bits, BitWord(p, plen), BitWord(q, qlen)) ==
      Either(MemCmp(p, q, len / 8),
             if len % 8 == 0 then 0 else Sign(Shift(p[len / 8], len % 8) - Shift(q[len / 8], len % 8)))
  {
    BitWordTake(p, plen, len);
    BitWordTake(q, qlen, len);
    ValueOrder(p, q, len);
    LexTake(BitWord(p, plen), BitWord(q, qlen), len);
    CommonValue(p, q, len);
  }

  lemma CommonAt(p: seq<Byte>, q: seq<Byte>, k: nat, d: nat)
    requires k <= |p| && k <= |q| && d < 8 && (d > 0 ==> k < |p| && k < |q|)
    ensures Sign(ByteValue(p, k, d) - ByteValue(q, k, d)) ==
      Either(MemCmp(p, q, k), if d == 0 then 0 else Sign(Shift(p[k], d) - Shift(q[k], d)))
  {
    MemCmpValue(p, q, k);
    if d != 0 { ValueTop(p, q, k, d); }
  }

  lemma ByteValueAt(p: seq<Byte>, len: nat)
    requires len <= 8 * |p|
    ensures ByteValue(p, len / 8, len % 8) == Value(p, len)
  {
    ByteValueIs(p, len / 8, len % 8);
  }

  lemma SignsAgree(p: seq<Byte>, q: seq<Byte>, len: nat)
    requires len <= 8 * |p| && len <= 8 * |q|
    ensures Sign(Value(p, len) - Value(q, len)) ==
      Sign(ByteValue(p, len / 8, len % 8) - ByteValue(q, len / 8, len % 8))
  {
    ByteValueAt(p, len);
    ByteValueAt(q, len);
  }

  lemma CommonValue(p: seq<Byte>, q: seq<Byte>, len: nat)
    requires len <= 8 * |p| && len <= 8 * |q|
    ensures Sign(Value(p, len) - Value(q, len)) ==
      Either(MemCmp(p, q, len / 8),
             if len % 8 == 0 then 0 else Sign(Shift(p[len / 8], len % 8) - Shift(q[len / 8], len % 8)))
  {
    hide ByteValue;
    hide Value;
    CommonAt(p, q, len / 8, len % 8);
    SignsAgree(p, q, len);
  }

  lemma LexTake(a: Word, b: Word, n: nat)
    requires n == if |b| < |a| then |b| else |a|
    ensures Compare(Bits, a, b) == Lex(a[..n], b[..n])
  {
    var u, v := a[..n], b[..n];
    LexEqual(u, v);
    if u != v {
      var d := Diff(u, v);
      assert a[..d] == u[..d] && b[..d] == v[..d];
      DiffIs(a, b, d);
    } else {
      assert n == |a| ==> a == u;
      assert n == |b| ==> b == v;
    }
  }

  // ---- host_cmp -----------------------------------------------------------------

  // A byte read as a signed char.
  function Signed(b: Byte): int {
    if b < 128 then b else b - 256
  }

  // The characters of a name, the last one first.
  function HostWord(name: seq<Byte>): (w: Word)
    ensures Spells(w, name)
  {
    if name == [] then [] else [Signed(name[|name| - 1])] + HostWord(name[..|name| - 1])
  }

  ghost predicate Spells(w: Word, name: seq<Byte>) {
    |w| == |name| && forall i :: 0 <= i < |w| ==> w[i] == Signed(name[|name| - 1 - i])
  }

  lemma TakeOne(a: Word, b: Word, i: nat)
    requires i < |a| && i < |b| && a[..i] == b[..i] && a[i] == b[i]
    ensures a[..i + 1] == b[..i + 1]
  {
    assert a[..i + 1] == a[..i] + [a[i]] && b[..i + 1] == b[..i] + [b[i]];
  }

  lemma HostApart(a: Word, b: Word, i: nat, r: int)
    requires i < |a| && i < |b| && a[..i] == b[..i] && a[i] != b[i] && r == if a[i] < b[i] then -1 else 1
    ensures Compare(Host, a, b) == r
  {
    DiffIs(a, b, i);
    ExtendsDiff(a, b);
    ExtendsDiff(b, a);
    DiffIs(b, a, i);
  }

  lemma HostRunsOut(a: Word, b: Word, i: nat)
    requires i == (if |b| < |a| then |b| else |a|) && a[..i] == b[..i]
    ensures Compare(Host, a, b) ==
      if |a| == |b| || (if |a| > |b| then a[i] else b[i]) == DOT then 0 else if |a| > |b| then 1 else -1
  {
    DiffIs(a, b, i);
    assert a[..|a|] == a && b[..|b|] == b;
  }

  method HostCmp(p: seq<Byte>, q: seq<Byte>) returns (r: int)
    ensures r == Compare(Host, HostWord(p), HostWord(q))
  {
    r := HostCmpSpelled(p, q, HostWord(p), HostWord(q));
  }

  method HostCmpSpelled(p: seq<Byte>, q: seq<Byte>, ghost a: Word, ghost b: Word) returns (r: int)
    requires Spells(a, p) && Spells(b, q)
    ensures r == Compare(Host, a, b)
  {
    var len := if |q| < |p| then |q| else |p|;
    var pd, qd := |p|, |q|;
    ghost var i := 0;
    while len > 0
      invariant 0 <= len && i == |p| - pd == |q| - qd && i + len == if |q| < |p| then |q| else |p|
      invariant a[..i] == b[..i]
    {
      len := len - 1;
      pd, qd := pd - 1, qd - 1;
      var c, d := Signed(p[pd]), Signed(q[qd]);
      assert a[i] == c && b[i] == d;
      if c != d {
        r := if c < d then -1 else 1;
        HostApart(a, b, i, r);
        return;
      }
      TakeOne(a, b, i);
      i := i + 1;
    }
    HostRunsOut(a, b, i);
    if |p| == |q| {
      return 0;
    }
    var next := Signed(if |p| > |q| then p[pd - 1] else q[qd - 1]);
    assert next == if |a| > |b| then a[i] else b[i];
    r := if next == DOT then 0 else if |p| > |q| then 1 else -1;
  }
}
