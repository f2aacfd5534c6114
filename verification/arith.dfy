/** The few facts about products and quotients that the models need, proved once. */
module Arith {

  lemma {:induction false} MulMono(a: int, b: int, n: nat)
    requires a <= b
    ensures a * n <= b * n
    decreases b - a
  {
    if a < b {
      MulMono(a, b - 1, n);
      assert b * n == (b - 1) * n + n;
    }
  }

  lemma MulOrder(a: int, b: int, n: nat)
    requires n > 0
    ensures a <= b <==> a * n <= b * n
  {
    if a <= b {
      MulMono(a, b, n);
    } else {
      MulMono(b + 1, a, n);
      assert (b + 1) * n == b * n + n;
    }
  }

  lemma MulEqual(a: int, b: int, n: nat)
    requires n > 0
    ensures a == b <==> a * n == b * n
  {
    MulOrder(a, b, n);
    MulOrder(b, a, n);
  }

  lemma PairBelow(q: nat, r: nat, n: nat, limit: nat)
    requires q < limit && r < n
    ensures q * n + r < limit * n
  {
    MulMono(q + 1, limit, n);
    assert (q + 1) * n == q * n + n;
  }

  /** A number written as `q * n + r` has that quotient and that remainder. */
  lemma Euclid(q: int, r: nat, n: nat)
    requires r < n
    ensures (q * n + r) / n == q && (q * n + r) % n == r
  {
    var d := (q * n + r) / n;
    assert d * n <= q * n + r < d * n + n;
    assert (d + 1) * n == d * n + n && (q + 1) * n == q * n + n;
    MulOrder(q + 1, d, n);
    MulOrder(d + 1, q, n);
  }

  lemma PositiveFactor(a: nat, b: nat)
    requires 0 < a * b
    ensures 0 < a && 0 < b
  {}

  lemma QuotientBelow(a: nat, n: nat, limit: nat)
    requires n > 0 && a < limit * n
    ensures a / n < limit
  {
    MulOrder(limit, a / n, n);
  }

  lemma QuotientAtLeast(a: nat, n: nat, q: nat)
    requires n > 0 && q * n <= a
    ensures q <= a / n
  {
    assert a < (a / n + 1) * n;
    if q >= a / n + 1 { MulMono(a / n + 1, q, n); }
  }
}
