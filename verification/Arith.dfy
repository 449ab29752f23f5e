/** Integer helpers, and facts about division that the solver does not find by itself. */
module Arith {
  function Min(a: int, b: int): int {
    if a < b then a else b
  }

  lemma MulNext(a: int, d: int)
    ensures (a + 1) * d == a * d + d
  {
  }

  lemma {:induction false} MulApart(a: int, b: int, d: int)
    requires a < b && d >= 0
    ensures a * d + d <= b * d
    decreases b - a
  {
    MulNext(b - 1, d);
    if a < b - 1 {
      MulApart(a, b - 1, d);
    }
  }

  lemma QuotientUnique(n: int, d: int, q: int, r: int)
    requires d > 0 && 0 <= r < d && n == q * d + r
    ensures n / d == q
  {
    var p, m := n / d, n % d;
    assert n == d * p + m && 0 <= m < d;
    if p < q {
      MulApart(p, q, d);
      assert false;
    } else if p > q {
      MulApart(q, p, d);
      assert false;
    }
  }

  lemma DivTwice(n: nat, p: nat)
    requires p > 0
    ensures n / 10 / p == n / (10 * p)
  {
    var h, m := n / 10, n % 10;
    var q, r := h / p, h % p;
    assert h == p * q + r && 0 <= r < p;
    assert q * (10 * p) == 10 * (p * q);
    QuotientUnique(n, 10 * p, q, 10 * r + m);
  }

  function CeilDiv(n: nat, d: nat): (r: nat)
    requires d > 0
  {
    (n + d - 1) / d
  }

  lemma CeilDivStep(n: nat, d: nat)
    requires d > 0
    ensures 0 < n <= d ==> CeilDiv(n, d) == 1
    ensures n > d ==> CeilDiv(n, d) == 1 + CeilDiv(n - d, d)
    ensures CeilDiv(0, d) == 0
  {
    QuotientUnique(d - 1, d, 0, d - 1);
    if 0 < n <= d {
      QuotientUnique(n + d - 1, d, 1, n - 1);
    } else if n > d {
      var m := n - d + d - 1;
      var q, r := m / d, m % d;
      assert m == d * q + r && 0 <= r < d;
      assert (q + 1) * d == q * d + d;
      QuotientUnique(n + d - 1, d, q + 1, r);
    }
  }

  /** Taking a full share, or all that is left, lowers the quotient by one. */
  lemma CeilDivTake(n: nat, d: nat, taken: nat, left: nat)
    requires d > 0 && n > 0 && taken == (if n < d then n else d) && left == n - taken
    ensures CeilDiv(n, d) == 1 + CeilDiv(left, d)
  {
    CeilDivStep(n, d);
  }
}
