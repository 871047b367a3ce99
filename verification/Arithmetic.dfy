/** Facts about products and quotients that several of the models need. */
module Arithmetic {

  lemma MulMonotone(a: int, b: int, c: int)
    requires a <= b && c >= 0
    ensures a * c <= b * c
  {
    assert (b - a) * c >= 0;
    assert b * c == a * c + (b - a) * c;
  }

  lemma NextMultiple(a: int, b: int)
    ensures (a + 1) * b == a * b + b
  {
  }

  /** A quotient is determined by its remainder being in range. */
  lemma DivUnique(x: int, d: int, q: int, r: int)
    requires d > 0 && x == q * d + r && 0 <= r < d
    ensures x / d == q && x % d == r
  {
    var p := x / d;
    assert x == p * d + x % d;
    NextMultiple(p, d);
    NextMultiple(q, d);
    if p < q { MulMonotone(p + 1, q, d); }
    if q < p { MulMonotone(q + 1, p, d); }
  }

  /** A quotient grows by one exactly at the multiples. */
  lemma DivStep(n: int, d: int)
    requires d > 0
    ensures n / d - (n - 1) / d == if n % d == 0 then 1 else 0
  {
    var q, r := n / d, n % d;
    assert n == q * d + r;
    if r > 0 {
      DivUnique(n - 1, d, q, r - 1);
    } else {
      NextMultiple(q - 1, d);
      DivUnique(n - 1, d, q - 1, d - 1);
    }
  }

  lemma ModShift(n: int, d: int, k: int)
    requires d > 0
    ensures (n + k * d) % d == n % d
  {
    var q, r := n / d, n % d;
    assert n + k * d == (q + k) * d + r;
    DivUnique(n + k * d, d, q + k, r);
  }

  lemma FactorDivides(n: int, a: int, b: int)
    requires a > 0 && b > 0 && a * b > 0 && n % (a * b) == 0
    ensures n % a == 0
  {
    var q := n / (a * b);
    assert n == q * (a * b) == (q * b) * a + 0;
    DivUnique(n, a, q * b, 0);
  }
}
