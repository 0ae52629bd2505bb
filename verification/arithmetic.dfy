/** Products, quotients and remainders, where the solver needs a hand. */
module Arithmetic {

  lemma MulSign(d: int, m: int)
    requires m > 0
    ensures d >= 1 ==> d * m >= m
    ensures d <= -1 ==> d * m <= -m
  {
    if d >= 1 {
      assert (d - 1) * m >= 0;
    } else if d <= -1 {
      assert (-d - 1) * m >= 0;
    }
  }

  lemma Distribute(a: int, b: int, m: int)
    ensures (a - b) * m == a * m - b * m
  {
  }

  /** Quotient and remainder are determined by `n == a * m + r`. */
  lemma ModUnique(n: int, m: int, a: int, r: int)
    requires m > 0 && 0 <= r < m && n == a * m + r
    ensures n % m == r && n / m == a
  {
    var q := n / m;
    assert n == q * m + n % m;
    Distribute(a, q, m);
    MulSign(a - q, m);
  }
}
