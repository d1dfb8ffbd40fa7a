// Division facts shared by the calendar and the round-robin cursor.
module Arithmetic {
  lemma MultipleIsLarge(d: int, k: int)
    requires k >= 0
    ensures d > 0 ==> d * k >= k
    ensures d < 0 ==> d * k + k <= 0
  {
    if d > 0 { assert (d - 1) * k >= 0; }
    if d < 0 { assert (-d - 1) * k >= 0; }
  }

  /** Quotient and remainder are determined by their product. */
  lemma QuotientIs(n: int, k: int, q: int, r: int)
    requires 0 <= r < k && n == q * k + r
    ensures n / k == q && n % k == r
  {
    var d := q - n / k;
    assert d * k == q * k - (n / k) * k;
    MultipleIsLarge(d, k);
  }
}
