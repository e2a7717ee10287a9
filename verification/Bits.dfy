/** Bitwise operations on unsigned integers. */
module Bits {
  // 1, 2, 4, and so on.
  predicate IsPowerOf2(n: nat) {
    n == 1 || (n > 0 && n % 2 == 0 && IsPowerOf2(n / 2))
  }

  // The bits that [a] and [b] share.
  function And(a: nat, b: nat): (r: nat)
    ensures r <= a && r <= b
  {
    if a == 0 || b == 0 then 0 else (if a % 2 == 1 && b % 2 == 1 then 1 else 0) + 2 * And(a / 2, b / 2)
  }

  lemma {:induction false} AndSelf(a: nat)
    ensures And(a, a) == a
  {
    if a > 0 { AndSelf(a / 2); }
  }

  // Masking with one less than a power of two keeps the remainder.
  lemma {:induction false} MaskRemainder(a: nat, n: nat)
    requires IsPowerOf2(n)
    ensures And(a, n - 1) == a % n
    decreases n
  {
    if n > 1 {
      MaskRemainder(a / 2, n / 2);
      assert (n - 1) / 2 == n / 2 - 1 && (n - 1) % 2 == 1;
      RemainderHalves(a, n / 2);
    }
  }

  lemma RemainderHalves(a: nat, m: nat)
    requires m > 0
    ensures a % (2 * m) == a % 2 + 2 * (a / 2 % m)
  {
    var q, r := a / 2 / m, a / 2 % m;
    assert a == (2 * m) * q + (a % 2 + 2 * r);
    Remainder(2 * m, q, a % 2 + 2 * r);
  }

  lemma Remainder(n: nat, q: nat, r: nat)
    requires r < n
    ensures (n * q + r) % n == r
  {
    var k, rest := (n * q + r) / n, (n * q + r) % n;
    assert n * (k - q) == r - rest;
    SmallMultiple(n, k - q);
  }

  lemma SmallMultiple(n: nat, d: int)
    ensures d >= 1 ==> n * d >= n
    ensures d <= -1 ==> n * d <= 0 - n
  {
    if d >= 1 {
      assert n * d == n + n * (d - 1);
    } else if d <= -1 {
      assert n * d == 0 - n - n * (-1 - d);
    }
  }

  // The mask keeps the remainder of every number exactly when it is one less than a
  // power of two.
  lemma {:induction false} MaskExact(n: nat)
    requires n > 0
    ensures (forall a: nat :: And(a, n - 1) == a % n) <==> IsPowerOf2(n)
  {
    if IsPowerOf2(n) {
      forall a: nat ensures And(a, n - 1) == a % n {
        MaskRemainder(a, n);
      }
    } else {
      MaskLeaves(n);
      assert n % n == 0;
    }
  }

  lemma {:induction false} MaskLeaves(n: nat)
    requires n > 0 && !IsPowerOf2(n)
    ensures And(n, n - 1) > 0
  {
    if n % 2 == 0 {
      MaskLeaves(n / 2);
      assert (n - 1) / 2 == n / 2 - 1;
    } else {
      assert (n - 1) / 2 == n / 2;
      AndSelf(n / 2);
    }
  }
}
