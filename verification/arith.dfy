/** Quotients and remainders by a number that is not a constant. */
module Arith {

  lemma Distribute(a: int, b: int, m: int)
    ensures (a + b) * m == a * m + b * m
  {
  }

  lemma AtLeastOnce(d: nat, m: nat)
    requires d > 0
    ensures d * m >= m
  {
    Distribute(d - 1, 1, m);
    assert (d - 1) * m >= 0;
  }

  lemma Unique(q: nat, p: nat, r: nat, q': nat, p': nat, r': nat, m: nat)
    requires p == q * m && p' == q' * m && r < m && r' < m && p + r == p' + r'
    ensures q == q' && r == r'
  {
    if q > q' {
      AtLeastOnce(q - q', m);
      Distribute(q - q', q', m);
    } else if q < q' {
      AtLeastOnce(q' - q, m);
      Distribute(q' - q, q, m);
    }
  }

  /** A number that is q times m and a remainder below m has them as its quotient and remainder. */
  lemma Quotient(x: nat, m: nat, q: nat, r: nat)
    requires r < m && x == m * q + r
    ensures x / m == q && x % m == r
  {
    Unique(q, q * m, r, x / m, x / m * m, x % m, m);
  }

  lemma MultipleOf(m: nat, q: nat)
    requires m > 0
    ensures (m * q) / m == q && (m * q) % m == 0
  {
    Quotient(m * q, m, q, 0);
  }

  lemma QuotientStep(x: nat, m: nat)
    requires m > 0
    ensures (x + m) / m == x / m + 1
  {
    var q, r := x / m, x % m;
    Distribute(q, 1, m);
    Quotient(x + m, m, q + 1, r);
  }

  lemma QuotientMonotone(x: nat, y: nat, m: nat)
    requires m > 0 && x <= y
    ensures x / m <= y / m
  {
    var q, q' := x / m, y / m;
    if q > q' {
      AtLeastOnce(q - q', m);
      Distribute(q - q', q', m);
    }
  }

  lemma ModAdd(a: nat, b: nat, m: nat, sum: nat)
    requires m > 0 && a % m == 0 && sum == a + b
    ensures sum % m == b % m
  {
    var qa, qb, r := a / m, b / m, b % m;
    Distribute(qa, qb, m);
    Quotient(sum, m, qa + qb, r);
  }
}
