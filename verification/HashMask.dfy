/**
 The bit arithmetic of `uthash.h`: the number of buckets is a power of two, so a mask takes the
 remainder and a shift divides.
 */
module HashMask {
  import opened HashBuckets

  function Pow2(k: nat): (p: nat)
    ensures p > 0
  {
    if k == 0 then 1 else 2 * Pow2(k - 1)
  }

  // x & y
  function And(x: nat, y: nat): nat {
    if x == 0 || y == 0 then 0 else 2 * And(x / 2, y / 2) + (if x % 2 == 1 && y % 2 == 1 then 1 else 0)
  }

  // x >> k
  function Shr(x: nat, k: nat): nat {
    if k == 0 then x else Shr(x / 2, k - 1)
  }

  // The mask keeps the bits that the shift drops.
  lemma {:induction false} MaskAndShift(x: nat, k: nat)
    ensures x == Shr(x, k) * Pow2(k) + And(x, Pow2(k) - 1) && And(x, Pow2(k) - 1) < Pow2(k)
  {
    if k > 0 {
      MaskAndShift(x / 2, k - 1);
      AndOdd(x, Pow2(k - 1) - 1);
      Regroup(x, x / 2, x % 2, Shr(x, k), Pow2(k - 1), And(x / 2, Pow2(k - 1) - 1));
    }
  }

  lemma Regroup(x: nat, y: nat, b: nat, q: nat, p: nat, r: nat)
    requires x == 2 * y + b && y == q * p + r
    ensures x == q * (2 * p) + (2 * r + b)
  {
    assert q * (2 * p) == 2 * (q * p);
  }

  lemma AndOdd(x: nat, y: nat)
    ensures And(x, 2 * y + 1) == 2 * And(x / 2, y) + x % 2
  {
    assert (2 * y + 1) / 2 == y && (2 * y + 1) % 2 == 1;
    if x == 0 { assert And(0, 2 * y + 1) == 0 == And(0, y); }
  }

  // HASH_TO_BKT
  method BucketOf(hashv: nat, n: nat, ghost k: nat) returns (b: nat)
    requires n == Pow2(k)
    ensures b == ToBucket(hashv, n)
  {
    b := And(hashv, n - 1);
    MaskAndShift(hashv, k);
    ToBucketIsMod(hashv, n, Shr(hashv, k), b);
  }

  // The ideal chain length in `n` buckets: the items per bucket, rounded up.
  method IdealLength(items: nat, n: nat, k: nat) returns (r: nat)
    requires n == Pow2(k)
    ensures items <= r * n < items + n
  {
    r := Shr(items, k) + if And(items, n - 1) != 0 then 1 else 0;
    MaskAndShift(items, k);
    assert (Shr(items, k) + 1) * n == Shr(items, k) * n + n;
  }
}
