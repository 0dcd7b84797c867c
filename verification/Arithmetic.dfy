/** Whole-number division by a symbolic number. */
module Arithmetic {
  lemma Exceeds(size: nat, a: int, b: int)
    requires a < b
    ensures a * size + size <= b * size
  {
    assert (b - a) * size == b * size - a * size;
    AtLeast(size, b - a);
  }

  lemma AtLeast(size: nat, d: nat)
    requires d >= 1
    ensures d * size >= size
  {
  }

  lemma QuotientIs(size: nat, k: nat, i: nat)
    requires size > 0 && k * size <= i < k * size + size
    ensures i / size == k
  {
    var q := i / size;
    assert q * size <= i < q * size + size;
    if q < k { Exceeds(size, q, k); }
    if k < q { Exceeds(size, k, q); }
  }

  lemma SplitQuotient(size: nat, k: nat, rest: nat)
    requires rest < size
    ensures (k * size + rest) / size == k && (k * size + rest) % size == rest
  {
    QuotientIs(size, k, k * size + rest);
  }

  /** Adding a multiple moves the quotient and keeps the remainder. */
  lemma ShiftQuotient(n: nat, size: nat, k: nat)
    requires size > 0
    ensures (n + k * size) / size == n / size + k && (n + k * size) % size == n % size
  {
    assert n + k * size == (n / size + k) * size + n % size;
    SplitQuotient(size, n / size + k, n % size);
  }
}
