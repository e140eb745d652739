/** Multiples of a positive number, for flash pages and words. */
module Multiples {
  /** Rust's `next_multiple_of`. */
  function NextMultiple(x: nat, m: nat): (r: nat)
    requires m >= 1
    ensures x <= r < x + m
  {
    if x % m == 0 then x else x - x % m + m
  }

  predicate Multiple(x: int, p: nat)
    requires p >= 1
  {
    x % p == 0
  }

  /** A product, named so that proofs can hide it. */
  function Times(n: int, p: int): (r: int)
    ensures n >= 0 && p >= 0 ==> r >= 0
  {
    n * p
  }

  lemma TimesSum(a: int, b: int, p: int)
    ensures Times(a + b, p) == Times(a, p) + Times(b, p) && Times(a - b, p) == Times(a, p) - Times(b, p)
  {
  }

  lemma TimesAtLeast(a: int, p: nat)
    ensures a >= 1 ==> Times(a, p) >= p
    ensures Times(0, p) == 0 && Times(1, p) == p
  {
  }

  lemma Divided(x: int, p: nat)
    requires p >= 1
    ensures x == Times(x / p, p) + x % p && 0 <= x % p < p
  {
  }

  /** A quotient and a remainder that add up are the quotient and the remainder. */
  lemma DividedOnce(x: int, q: int, r: nat, p: nat)
    requires p >= 1 && x == Times(q, p) + r && r < p
    ensures x / p == q && x % p == r
  {
    var k := x / p;
    Divided(x, p);
    TimesSum(k, q, p);
    TimesSum(q, k, p);
    TimesAtLeast(k - q, p);
    TimesAtLeast(q - k, p);
    hide Times;
  }

  lemma ModAdd(a: int, k: int, p: nat)
    requires p >= 1
    ensures (a + k * p) % p == a % p
  {
    Divided(a, p);
    TimesSum(a / p, k, p);
    assert k * p == Times(k, p);
    hide Times;
    DividedOnce(a + k * p, a / p + k, a % p, p);
  }

  lemma MultipleSum(a: int, b: int, p: nat)
    requires p >= 1 && Multiple(a, p) && Multiple(b, p)
    ensures Multiple(a + b, p)
  {
    Divided(a, p);
    Divided(b, p);
    TimesSum(a / p, b / p, p);
    hide Times;
    DividedOnce(a + b, a / p + b / p, 0, p);
  }

  lemma MulMono(a: int, b: int, p: nat)
    requires a <= b
    ensures a * p <= b * p
  {
  }

  /** Two multiples of `p` less than `p` apart are equal. */
  lemma MultiplesApart(a: int, b: int, p: nat)
    requires p >= 1 && Multiple(a, p) && Multiple(b, p) && a < b + p && b < a + p
    ensures a == b
  {
    var i, j := a / p, b / p;
    Divided(a, p);
    Divided(b, p);
    TimesSum(i, j, p);
    TimesSum(j, i, p);
    TimesAtLeast(i - j, p);
    TimesAtLeast(j - i, p);
    hide Times;
  }

  lemma QuotientIs(n: nat, q: nat, r: nat, d: nat)
    requires d >= 1 && n == q * d + r && r < d
    ensures n / d == q && n % d == r
  {
    assert q * d == Times(q, d);
    hide Times;
    DividedOnce(n, q, r, d);
  }

  lemma NextMultipleIsMultiple(x: nat, m: nat)
    requires m >= 1
    ensures Multiple(NextMultiple(x, m), m)
  {
    var k := x / m;
    assert x == k * m + x % m;
    if x % m != 0 {
      assert NextMultiple(x, m) == (k + 1) * m;
      QuotientIs((k + 1) * m, k + 1, 0, m);
    }
  }

  lemma PageFits(page: nat, size: nat, pageSize: nat)
    requires pageSize >= 1 && Multiple(page, pageSize) && Multiple(size, pageSize) && page < size
    ensures page + pageSize <= size && Multiple(page + pageSize, pageSize)
  {
    ModAdd(page, 1, pageSize);
    if size < page + pageSize {
      MultiplesApart(page, size, pageSize);
    }
  }

  /** The first page boundary at or after a position inside `[x, NextMultiple(x)]` is the same. */
  lemma NextMultipleWithin(x: nat, y: nat, m: nat)
    requires m >= 1 && x <= y <= NextMultiple(x, m)
    ensures NextMultiple(y, m) == NextMultiple(x, m)
  {
    NextMultipleIsMultiple(x, m);
    NextMultipleIsMultiple(y, m);
    MultiplesApart(NextMultiple(x, m), NextMultiple(y, m), m);
  }

  lemma NextMultipleInside(x: nat, size: nat, m: nat)
    requires m >= 1 && Multiple(size, m) && x <= size
    ensures NextMultiple(x, m) <= size
  {
    NextMultipleIsMultiple(x, m);
    if NextMultiple(x, m) > size {
      MultiplesApart(NextMultiple(x, m), size, m);
    }
  }
}
