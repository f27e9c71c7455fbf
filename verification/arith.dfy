/** Facts about division by a positive real, used by the percentage computations. */
module Arith {

  lemma DivPositive(x: real, e: real)
    requires e > 0.0
    ensures (x / e) * e == x
    ensures x / e < 1.0 <==> x < e
    ensures x / e == 1.0 <==> x == e
    ensures x / e == 0.0 <==> x == 0.0
    ensures x / e >= 0.0 <==> x >= 0.0
    ensures x / e <= 1.0 <==> x <= e
  {
    DivCompare(x, e, 1.0);
    DivCompare(x, e, 0.0);
  }

  /** Comparing `x / e` with `c` is comparing `x` with `c * e`. */
  lemma DivCompare(x: real, e: real, c: real)
    requires e > 0.0
    ensures x / e > c <==> x > c * e
    ensures x / e >= c <==> x >= c * e
    ensures x / e == c <==> x == c * e
  {
    var q := x / e;
    assert q * e == x;
    if q > c {
      assert (q - c) * e > 0.0;
    }
    if x > c * e {
      assert (q - c) * e == x - c * e;
    }
    if q >= c {
      assert (q - c) * e >= 0.0;
    }
    if x >= c * e {
      assert (q - c) * e == x - c * e;
    }
  }

  lemma DivDiv(x: real, a: real, b: real)
    requires a > 0.0 && b > 0.0
    ensures (x / a) / b == x / (a * b)
  {
    var q := (x / a) / b;
    assert q * b == x / a;
    assert (x / a) * a == x;
    assert q * (a * b) == x;
    DivCompare(x, a * b, q);
  }
}
