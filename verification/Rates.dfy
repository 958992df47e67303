/** What accrues over time at a rate. */
module Rates {

  /** What so many seconds bring at a rate a second. */
  function Over(rate: real, seconds: real): real {
    seconds * rate
  }

  lemma {:induction false} Positive(rate: real, seconds: real)
    requires rate > 0.0 && seconds > 0.0
    ensures Over(rate, seconds) > 0.0
  {
  }

  /** It is additive, and grows with time. */
  lemma {:induction false} Spread(rate: real, a: real, b: real)
    requires rate > 0.0
    ensures Over(rate, a - b) == Over(rate, a) - Over(rate, b)
    ensures a <= b <==> Over(rate, a) <= Over(rate, b)
  {
    assert (a - b) * rate == a * rate - b * rate;
    if a > b { Positive(rate, a - b); }
    if a < b {
      Positive(rate, b - a);
      assert (b - a) * rate == b * rate - a * rate;
    }
  }

  /** d takes d divided by the rate. */
  lemma {:induction false} Takes(rate: real, a: real, d: real)
    requires rate > 0.0 && d >= 0.0
    ensures d / rate >= 0.0 && Over(rate, a + d / rate) == Over(rate, a) + d
  {
    var q := d / rate;
    assert q * rate == d;
    assert (a + q) * rate == a * rate + q * rate;
  }
}
