/** Division with remainder by a variable. */
module Arithmetic {
  lemma DivMod(n: int, q: int, r: int, s: int)
    requires s > 0 && 0 <= r < s && n == q * s + r
    ensures n / s == q && n % s == r
  {
    var d := n / s - q;
    assert d * s == r - n % s;
    assert d >= 1 ==> d * s >= s;
    assert d <= -1 ==> d * s <= -s;
  }
}
