/** Division of natural numbers. */
module Arithmetic {

  lemma Multiples(d: nat, a: nat, b: nat)
    requires a <= b
    ensures d * a <= d * b
  {
    assert d * b == d * a + d * (b - a);
  }

  lemma Quotient(n: nat, d: nat, q: nat)
    requires d > 0
    ensures n / d == q <==> d * q <= n < d * q + d
  {
    var e := n / d;
    assert d * e <= n < d * e + d;
    if e < q { Multiples(d, e + 1, q); } else if q < e { Multiples(d, q + 1, e); }
  }

  /** Dividing twice is dividing by the product. */
  lemma QuotientTwice(n: nat, a: nat, b: nat)
    requires a > 0 && b > 0
    ensures a * b > 0 && n / a / b == n / (a * b)
  {
    var m := n / a;
    var q := m / b;
    Quotient(n, a, m);
    Quotient(m, b, q);
    Multiples(a, b * q, m);
    Multiples(a, m + 1, b * q + b);
    Expanded(a, b, q, m);
    Product(a, b);
    Quotient(n, a * b, q);
  }

  lemma Expanded(a: nat, b: nat, q: nat, m: nat)
    ensures a * (b * q) == a * b * q && a * (b * q + b) == a * b * q + a * b && a * (m + 1) == a * m + a
  {
  }

  lemma Product(a: nat, b: nat)
    requires a > 0 && b > 0
    ensures a * b > 0
  {
    Multiples(a, 1, b);
  }
}
