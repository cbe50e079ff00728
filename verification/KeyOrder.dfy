/**
 The orders behind the two comparators of `mpool.c`.

 A key is read as a sequence of integers: the bits of an address prefix, or the
 characters of a host name from the last to the first.  Both comparators are the
 lexicographic order with some pairs of a key and its extension made equal.
 */
module KeyOrder {

  type Word = seq<int>

  // The first position at which the words differ, or the length of the shorter one.
  function Diff(a: Word, b: Word): (d: nat)
    ensures d <= |a| && d <= |b| && a[..d] == b[..d]
    ensures d < |a| && d < |b| ==> a[d] != b[d]
    decreases |a|
  {
    if a == [] || b == [] || a[0] != b[0] then 0 else
      var d := Diff(a[1..], b[1..]);
      assert a[..d + 1] == [a[0]] + a[1..][..d] && b[..d + 1] == [b[0]] + b[1..][..d];
      d + 1
  }

  lemma DiffIs(a: Word, b: Word, d: nat)
    requires d <= |a| && d <= |b| && a[..d] == b[..d]
    requires d < |a| && d < |b| ==> a[d] != b[d]
    ensures Diff(a, b) == d
  {
    var e := Diff(a, b);
    var f := if d < e then d else e;
    assert f < |a| && f < |b| ==> f == d || f == e;
  }

  // The lexicographic order: negative, zero or positive.
  function Lex(a: Word, b: Word): int {
    var d := Diff(a, b);
    if d == |a| && d == |b| then 0
    else if d == |a| then -1
    else if d == |b| then 1
    else if a[d] < b[d] then -1 else 1
  }

  lemma LexEqual(a: Word, b: Word)
    ensures Lex(a, b) == 0 <==> a == b
  {
    if a == b { DiffIs(a, b, |a|); }
  }

  lemma LexFlip(a: Word, b: Word)
    ensures Lex(b, a) == -Lex(a, b)
  {
    DiffIs(b, a, Diff(a, b));
  }

  lemma LexTrans(a: Word, b: Word, c: Word)
    requires Lex(a, b) < 0 && Lex(b, c) < 0
    ensures Lex(a, c) < 0
  {
    var d, e := Diff(a, b), Diff(b, c);
    var f := if d < e then d else e;
    assert a[..f] == a[..d][..f] == b[..d][..f] == b[..f];
    assert c[..f] == c[..e][..f] == b[..e][..f] == b[..f];
    if d < e {
      assert b[..e][d] == c[..e][d];
    } else if e < d {
      assert a[..d][e] == b[..d][e];
    }
    DiffIs(a, c, f);
  }

  // `b` continues `a`.
  predicate Extends(a: Word, b: Word) {
    |a| <= |b| && b[..|a|] == a
  }

  lemma ExtendsDiff(a: Word, b: Word)
    ensures Extends(a, b) <==> Diff(a, b) == |a|
  {
    if Extends(a, b) {
      assert a[..|a|] == a;
      DiffIs(a, b, |a|);
    }
  }

  lemma ExtendsTrans(a: Word, b: Word, c: Word)
    requires Extends(a, b) && Extends(b, c)
    ensures Extends(a, c)
  {
    assert c[..|a|] == c[..|b|][..|a|];
  }

  // Two words that continue into the same word.
  lemma ExtendsBoth(a: Word, b: Word, c: Word)
    requires Extends(a, c) && Extends(b, c) && |a| <= |b|
    ensures Extends(a, b)
  {
    assert c[..|a|] == c[..|b|][..|a|];
  }

  // Everything between a word and one of its extensions extends it too.
  lemma Sandwich(a: Word, b: Word, c: Word)
    requires Extends(a, c) && Lex(a, b) <= 0 && Lex(b, c) <= 0
    ensures Extends(a, b)
  {
    LexEqual(a, b);
    ExtendsDiff(a, b);
    ExtendsDiff(a, c);
    LexEqual(b, c);
    var d := Diff(a, b);
    if d < |a| && a != b && b != c {
      assert a[d] == c[..|a|][d];
      assert b[..d] == a[..d] == c[..|a|][..d] == c[..d];
      DiffIs(b, c, d);
      assert false;
    }
  }

  // ---- The two comparators ------------------------------------------------------

  datatype Kind = Bits | Host

  const DOT: int := 46

  // `b` is a strict extension of `a` that the comparator takes for the same key.
  predicate Merges(kind: Kind, a: Word, b: Word) {
    |a| < |b| && Extends(a, b) && (kind.Host? ==> b[|a|] == DOT)
  }

  // The keys compare equal.
  predicate Same(kind: Kind, a: Word, b: Word) {
    a == b || Merges(kind, a, b) || Merges(kind, b, a)
  }

  function Compare(kind: Kind, a: Word, b: Word): int {
    if Same(kind, a, b) then 0 else Lex(a, b)
  }

  lemma CompareSign(kind: Kind, a: Word, b: Word)
    ensures Compare(kind, a, b) == 0 <==> Same(kind, a, b)
    ensures Compare(kind, a, b) < 0 ==> Lex(a, b) < 0
    ensures Compare(kind, a, b) > 0 ==> Lex(a, b) > 0
  {
    LexEqual(a, b);
  }

  lemma MergesTrans(kind: Kind, a: Word, b: Word, c: Word)
    requires (a == b || Merges(kind, a, b)) && (b == c || Merges(kind, b, c))
    ensures a == c || Merges(kind, a, c)
  {
    if a != b && b != c {
      ExtendsTrans(a, b, c);
      assert c[|a|] == c[..|b|][|a|];
    }
  }

  lemma MergesLess(kind: Kind, a: Word, b: Word)
    requires Merges(kind, a, b)
    ensures Lex(a, b) < 0
  {
    ExtendsDiff(a, b);
  }
}
