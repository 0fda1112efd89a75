/** Facts about products and quotients of reals, one solver step each. */
module Arithmetic {

  lemma {:induction false} PositiveProduct(a: real, b: real)
    requires 0.0 < a && 0.0 < b
    ensures 0.0 < a * b
  {}

  lemma {:induction false} ProductNonNegative(a: real, b: real)
    requires 0.0 <= a && 0.0 <= b
    ensures 0.0 <= a * b
  {}

  lemma {:induction false} NegativeProduct(a: real, c: real)
    requires a < 0.0 && 0.0 < c
    ensures a * c < 0.0
  {}

  lemma {:induction false} NonNegativeFactor(a: real, c: real)
    requires 0.0 < c && 0.0 <= a * c
    ensures 0.0 <= a
  {
    if a < 0.0 { NegativeProduct(a, c); }
  }

  lemma {:induction false} Distribute(a: real, b: real, c: real)
    ensures (a + b) * c == a * c + b * c && c * (a + b) == c * a + c * b
  {}

  lemma {:induction false} Quotient(a: real, c: real)
    requires c != 0.0
    ensures a / c * c == a && c * (a / c) == a
  {}

  lemma {:induction false} QuotientIs(a: real, q: real, c: real)
    requires c != 0.0 && q * c == a
    ensures a / c == q
  {}

  lemma {:induction false} Cancel(a: real, c: real)
    requires c != 0.0
    ensures a * c / c == a
  {}

  lemma {:induction false} QuotientMonotone(a: real, b: real, c: real)
    requires 0.0 < c && a <= b
    ensures a / c <= b / c
  {
    assert (b / c - a / c) * c == b - a;
    NonNegativeFactor(b / c - a / c, c);
  }

  lemma {:induction false} CancelFactor(x: real, y: real, c: real)
    requires 0.0 < c && x * c <= y * c
    ensures x <= y
  {
    assert (y - x) * c >= 0.0;
  }

  lemma {:induction false} QuotientSign(a: real, b: real)
    requires 0.0 < b
    ensures a / b < 0.0 <==> a < 0.0
  {
    assert a / b * b == a;
  }
}
