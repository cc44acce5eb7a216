// Facts about Euclidean division by positive divisors.

module Arith {

  lemma {:induction false} MulNonneg(a: int, b: int)
    requires a >= 0 && b >= 0
    ensures a * b >= 0
  {
  }

  lemma {:induction false} Distrib(d: int, a: int, b: int)
    ensures d * (a - b) == d * a - d * b
  {
  }

  /** Euclidean division by a positive d has exactly one quotient and remainder. */
  lemma {:induction false} DivUnique(v: int, d: int, q: int, r: int)
    requires d > 0 && v == d * q + r && 0 <= r < d
    ensures v / d == q && v % d == r
  {
    var q', r' := v / d, v % d;
    assert v == d * q' + r';
    Distrib(d, q, q');
    assert d * (q - q') == r' - r;
    if q > q' {
      MulNonneg(d, q - q' - 1);
      Distrib(d, q - q', 1);
    } else if q < q' {
      MulNonneg(d, q' - q - 1);
      Distrib(d, q' - q, 1);
      Distrib(d, q', q);
    }
  }

  lemma {:induction false} DivDiv(v: int, a: nat, b: nat)
    requires a > 0 && b > 0
    ensures v / a / b == v / (a * b)
    ensures (v % (a * b)) / a == (v / a) % b
    ensures (v % (a * b)) % a == v % a
  {
    var q, r := v / a, v % a;
    var q2, r2 := q / b, q % b;
    assert v == a * q + r;
    assert q == b * q2 + r2;
    assert v == (a * b) * q2 + (a * r2 + r) by {
      assert a * q == a * (b * q2 + r2) == (a * b) * q2 + a * r2;
    }
    MulNonneg(a, b - 1 - r2);
    Distrib(a, b - 1, r2);
    Distrib(a, b, 1);
    assert 0 <= a * r2 + r < a * b;
    DivUnique(v, a * b, q2, a * r2 + r);
    DivUnique(a * r2 + r, a, r2, r);
  }

  /** x splits into its quotient and remainder by a positive d. */
  lemma {:induction false} Split(x: int, d: int)
    requires d > 0
    ensures x == d * (x / d) + x % d && 0 <= x % d < d
  {
  }
}
