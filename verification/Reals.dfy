/** The facts about products and quotients of reals that the scores rest on. */
module Reals {

  lemma QuotientTimes(x: real, d: real)
    requires d != 0.0
    ensures x / d * d == x
  {
  }

  lemma SignOfProduct(x: real, c: real)
    requires c > 0.0
    ensures x * c >= 0.0 <==> x >= 0.0
  {
    if x < 0.0 {
      assert (-x) * c > 0.0;
      assert x * c == -((-x) * c);
    }
  }

  lemma RatioBounds(t: real, c: real, low: real, high: real)
    requires c > 0.0
    ensures low * c <= t <==> low <= t / c
    ensures t <= high * c <==> t / c <= high
  {
    var q := t / c;
    assert q * c == t;
    assert (high - q) * c == high * c - t;
    assert (q - low) * c == t - low * c;
    SignOfProduct(high - q, c);
    SignOfProduct(q - low, c);
  }
}
