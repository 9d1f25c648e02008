/** Products and quotients of real numbers, and the sizes of sets. */
module Arithmetic {
  lemma PositiveProduct(a: real, b: real)
    requires a > 0.0 && b > 0.0
    ensures a * b > 0.0
  {}

  lemma Scale(x: real, a: real, b: real)
    requires x >= 0.0 && a <= b
    ensures x * a <= x * b
  {
    if x > 0.0 && a < b { ScaleStrictly(x, a, b); }
  }

  lemma ScaleStrictly(x: real, a: real, b: real)
    requires x > 0.0 && a < b
    ensures x * a < x * b
  {
    PositiveProduct(x, b - a);
    assert x * (b - a) == x * b - x * a;
  }

  lemma PositiveFactor(y: real, a: real)
    requires a > 0.0
    ensures y * a >= 0.0 ==> y >= 0.0
    ensures y * a > 0.0 ==> y > 0.0
  {}

  /** A quotient falls when its divisor grows. */
  lemma QuotientsFall(x: real, a: real, b: real)
    requires x >= 0.0 && 0.0 < a <= b
    ensures 0.0 <= x / b <= x / a
    ensures x > 0.0 && a < b ==> x / b < x / a
  {
    var p, q := x / a, x / b;
    assert p * a == x && q * b == x;
    assert (p - q) * a == q * (b - a);
    PositiveFactor(p - q, a);
  }

  lemma {:induction false} SmallerSet<T>(a: set<T>, b: set<T>)
    requires a <= b
    ensures |a| <= |b|
  {
    if a != {} {
      var x :| x in a;
      SmallerSet(a - {x}, b - {x});
    }
  }
}
