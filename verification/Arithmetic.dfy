/** Products and quotients. */
module Arithmetic {
  lemma MulMono(a: int, b: int, d: int)
    requires a <= b && d >= 0
    ensures a * d <= b * d
  {
    assert (b - a) * d >= 0;
  }

  lemma DivBounds(x: int, d: int)
    requires d > 0
    ensures x / d * d <= x < x / d * d + d
  {}

  /** x / d is the q with q * d <= x < q * d + d. */
  lemma DivIs(x: int, d: int, q: int)
    requires d > 0 && q * d <= x < q * d + d
    ensures x / d == q
  {
    DivBounds(x, d);
    var e := x / d;
    if e < q { MulMono(e + 1, q, d); }
    if e > q { MulMono(q + 1, e, d); }
  }
}
