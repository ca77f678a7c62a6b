/** Facts about multiplication, division and remainder that the solver does not find alone. */
module Arithmetic {

  lemma {:induction false} MulMono(a: int, b: int, p: int)
    requires a <= b && p >= 0
    ensures a * p <= b * p
  {
  }

  lemma {:induction false} MulSpread(d: int, k: int)
    requires d > 0 && -d < d * k < d
    ensures k == 0
  {
  }

  /** Quotient and remainder are determined by the equation between them. */
  lemma {:induction false} DivUnique(n: int, d: int, q: int, r: int)
    requires d > 0 && n == d * q + r && 0 <= r < d
    ensures n / d == q
  {
    var k, r' := q - n / d, n % d;
    assert d * k == r' - r by {
      assert d * k == d * q - d * (n / d);
    }
    MulSpread(d, k);
  }

  lemma {:induction false} MultipleMod(d: int, q: int)
    requires d > 0
    ensures (d * q) % d == 0
  {
    DivUnique(d * q, d, q, 0);
  }

  lemma {:induction false} DivisorBound(n: int, d: int)
    requires n > 0 && d > 0 && n % d == 0
    ensures d <= n
  {
    var k := n / d;
    assert n == d * k;
    MulMono(1, k, d);
  }
}
