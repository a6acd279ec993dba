/** Small facts about multiplication and division by a positive number. */
module Arith {

  /** Multiplying both sides by the same positive number keeps a strict order. */
  lemma MulCancel(a: int, b: int, l: int)
    requires l >= 1 && a * l < b * l
    ensures a < b
  {
    assert (b - a) * l == b * l - a * l;
  }

  lemma MulMonotone(a: int, b: int, l: int)
    requires l >= 0 && a <= b
    ensures a * l <= b * l
  {
    assert b * l - a * l == (b - a) * l;
  }

  /** b / p is the i for which b lies in [i*p, (i+1)*p). */
  lemma DivWindow(b: int, p: int, i: int)
    requires p >= 1 && i * p <= b < (i + 1) * p
    ensures b / p == i
  {
    var q := b / p;
    assert b == q * p + b % p;
    assert (q + 1) * p == q * p + p;
    MulCancel(q, i + 1, p);
    MulCancel(i, q + 1, p);
  }
}
