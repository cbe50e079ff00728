/**
 Sets of pool keys: what `mem_add` keeps of the keys it is given, and when the
 comparator is smooth enough on them for a tree search to miss nothing.
 */
module PoolKeys {
  import opened KeyOrder

  // A lookup of `b` may be answered by `a`.
  predicate Covers(kind: Kind, a: Word, b: Word) {
    a == b || Merges(kind, a, b)
  }

  // No two keys compare equal.
  ghost predicate Antichain(kind: Kind, keys: set<Word>) {
    forall a, b :: a in keys && b in keys && a != b ==> !Same(kind, a, b)
  }

  // Along the lexicographic order of the keys, the sign of comparing `x` does not increase.
  ghost predicate Smooth(kind: Kind, keys: set<Word>, x: Word) {
    forall a, b :: a in keys && b in keys && Lex(a, b) < 0 ==>
      && (Compare(kind, x, b) > 0 ==> Compare(kind, x, a) > 0)
      && (Compare(kind, x, a) < 0 ==> Compare(kind, x, b) < 0)
  }

  // `b` continues `a` with a character that sorts before the dot.
  predicate Gap(a: Word, b: Word) {
    |a| < |b| && Extends(a, b) && b[|a|] < DOT
  }

  ghost predicate NoGap(keys: set<Word>) {
    forall a, b :: a in keys && b in keys ==> !Gap(a, b)
  }

  // A key that `x` covers or is covered by, and the keys between them.
  lemma Between(kind: Kind, a: Word, b: Word, c: Word)
    requires Lex(a, b) < 0 && Lex(b, c) < 0 && Merges(kind, a, c)
    ensures Merges(kind, a, b) || (kind.Host? && Gap(a, b))
  {
    Sandwich(a, b, c);
    LexEqual(a, b);
    assert |a| == |b| ==> a == b by { assert b[..|a|] == a && b[..|b|] == b; }
    if kind.Host? && b[|a|] > DOT {
      assert b[..|a|] == c[..|a|];
      DiffIs(b, c, |a|);
    }
  }

  // Keys read as bit strings are always smooth.
  lemma BitsSmooth(keys: set<Word>, x: Word)
    requires Antichain(Bits, keys)
    ensures Smooth(Bits, keys, x)
  {
    forall a, b | a in keys && b in keys && Lex(a, b) < 0
      ensures Compare(Bits, x, b) > 0 ==> Compare(Bits, x, a) > 0
      ensures Compare(Bits, x, a) < 0 ==> Compare(Bits, x, b) < 0
    {
      SmoothPair(Bits, a, b, x);
    }
  }

  // The only ways in which a pair of keys can upset a search for `x`.
  lemma SmoothPair(kind: Kind, a: Word, b: Word, x: Word)
    requires Lex(a, b) < 0 && !Same(kind, a, b)
    ensures Compare(kind, x, b) > 0 && Compare(kind, x, a) <= 0 ==> kind.Host? && Merges(Host, a, x) && Gap(a, b)
    ensures Compare(kind, x, a) < 0 && Compare(kind, x, b) >= 0 ==> kind.Host? && Merges(Host, x, b) && Gap(x, a)
  {
    CompareSign(kind, x, a);
    CompareSign(kind, x, b);
    LexFlip(x, a);
    LexFlip(x, b);
    if Compare(kind, x, b) > 0 && Compare(kind, x, a) <= 0 {
      LexTrans(a, b, x);
      if Merges(kind, x, a) { MergesLess(kind, x, a); }
      LexEqual(a, x);
      Between(kind, a, b, x);
    }
    if Compare(kind, x, a) < 0 && Compare(kind, x, b) >= 0 {
      LexTrans(x, a, b);
      if Merges(kind, b, x) { MergesLess(kind, b, x); }
      LexEqual(b, x);
      Between(kind, x, a, b);
    }
  }

  // Host names are smooth for each other unless one of them opens a gap.
  lemma HostsSmooth(keys: set<Word>, x: Word)
    requires Antichain(Host, keys) && NoGap(keys + {x})
    ensures Smooth(Host, keys, x)
  {
    forall a, b | a in keys && b in keys && Lex(a, b) < 0
      ensures Compare(Host, x, b) > 0 ==> Compare(Host, x, a) > 0
      ensures Compare(Host, x, a) < 0 ==> Compare(Host, x, b) < 0
    {
      LexEqual(a, b);
      SmoothPair(Host, a, b, x);
    }
  }

  // ---- What the pool keeps ------------------------------------------------------

  // The keys after `w` is added: it is dropped if a key covers it, and otherwise
  // takes the place of all the keys that it covers.
  ghost function Absorb(kind: Kind, keys: set<Word>, w: Word): set<Word> {
    if exists k :: k in keys && Covers(kind, k, w) then keys
    else (set k | k in keys && !Merges(kind, w, k)) + {w}
  }

  lemma AbsorbAntichain(kind: Kind, keys: set<Word>, w: Word)
    requires Antichain(kind, keys)
    ensures Antichain(kind, Absorb(kind, keys, w))
  {
  }

  // The keys that no other key covers.
  ghost function Minimal(kind: Kind, added: set<Word>): set<Word> {
    set a | a in added && forall b :: b in added ==> !Merges(kind, b, a)
  }

  lemma {:induction false} MinimalCovers(kind: Kind, added: set<Word>, a: Word) returns (m: Word)
    requires a in added
    ensures m in Minimal(kind, added) && Covers(kind, m, a)
    decreases |a|
  {
    if b :| b in added && Merges(kind, b, a) {
      m := MinimalCovers(kind, added, b);
      MergesTrans(kind, m, b, a);
    } else {
      m := a;
    }
  }

  lemma MinimalAntichain(kind: Kind, added: set<Word>)
    ensures Antichain(kind, Minimal(kind, added))
  {
  }

  // Adding one key at a time keeps exactly the minimal keys.
  lemma AbsorbMinimal(kind: Kind, added: set<Word>, w: Word)
    ensures Absorb(kind, Minimal(kind, added), w) == Minimal(kind, added + {w})
  {
    var keys := Minimal(kind, added);
    if k :| k in keys && Covers(kind, k, w) {
      forall a | a in keys
        ensures !Merges(kind, w, a)
      {
        if Merges(kind, w, a) { MergesTrans(kind, k, w, a); }
      }
    } else {
      forall a | a in added
        ensures !Covers(kind, a, w)
      {
        var m := MinimalCovers(kind, added, a);
        if Covers(kind, a, w) { MergesTrans(kind, m, a, w); }
      }
    }
  }

  // A bit string matches one of the keys kept exactly if it matches one of the keys added.
  lemma MinimalMatches(added: set<Word>, q: Word)
    ensures (exists k :: k in Minimal(Bits, added) && Same(Bits, k, q)) <==> exists a :: a in added && Same(Bits, a, q)
  {
    if a :| a in added && Same(Bits, a, q) {
      var m := MinimalCovers(Bits, added, a);
      if a == q || Merges(Bits, a, q) {
        MergesTrans(Bits, m, a, q);
      } else if m != a {
        if |m| < |q| { ExtendsBoth(m, q, a); }
        if |m| >= |q| { ExtendsBoth(q, m, a); assert |m| == |q| ==> m[..|q|] == m; }
      }
    }
  }

  // A host name is covered by one of the keys kept exactly if it is covered by one of the keys added.
  lemma MinimalCovered(kind: Kind, added: set<Word>, q: Word)
    ensures (exists k :: k in Minimal(kind, added) && Covers(kind, k, q)) <==>
      exists a :: a in added && Covers(kind, a, q)
  {
    if a :| a in added && Covers(kind, a, q) {
      var m := MinimalCovers(kind, added, a);
      MergesTrans(kind, m, a, q);
    }
  }
}
