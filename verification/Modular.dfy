/** Division and remainder facts that the solver does not find by itself. */
module Modular {

  lemma MultipleIsFar(d: int, n: int)
    requires 0 < n
    ensures d >= 1 ==> d * n >= n
    ensures d <= -1 ==> d * n <= -n
  {
    if d >= 1 {
      assert d * n == (d - 1) * n + n;
    } else if d <= -1 {
      assert d * n == (d + 1) * n - n;
    }
  }

  /** Quotient and remainder are the only numbers that recompose k. */
  lemma DivisionIsUnique(k: int, n: int, q: int, r: int)
    requires 0 <= r < n && k == q * n + r
    ensures k / n == q && k % n == r
  {
    assert (q - k / n) * n == k % n - r;
    MultipleIsFar(q - k / n, n);
  }

  lemma ModuloShift(k: int, n: int, d: int)
    requires 0 < n
    ensures (k + d * n) % n == k % n
  {
    assert k + d * n == (k / n + d) * n + k % n;
    DivisionIsUnique(k + d * n, n, k / n + d, k % n);
  }
}
