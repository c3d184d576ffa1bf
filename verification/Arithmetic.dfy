/** Facts about products and quotients of whole numbers. */
module Arithmetic {

  lemma MulMonotone(x: int, y: int, k: int)
    requires x <= y && k >= 0
    ensures x * k <= y * k
  {
  }

  lemma SwapFactors(a: int, b: int, c: int)
    ensures (a * b) * c == (a * c) * b == a * (b * c)
  {
  }

  lemma Regroup(a: int, b: int, c: int, d: int)
    ensures (a * b) * (c * d) == (a * d) * (b * c)
  {
    assert (a * b) * (c * d) == a * (b * (c * d));
    assert b * (c * d) == (b * c) * d;
    assert a * ((b * c) * d) == (a * d) * (b * c);
  }

  lemma CancelFactor(a: int, b: int, k: int)
    requires k > 0
    ensures a * k == b * k <==> a == b
  {
    if a < b {
      assert (b - a) * k > 0;
    } else if b < a {
      assert (a - b) * k > 0;
    }
  }

  lemma SplitApart(q: nat, q': nat, p: nat)
    requires q < q'
    ensures q * p + p <= q' * p
  {
    assert (q + 1) * p == q * p + p;
    MulMonotone(q + 1, q', p);
  }

  /** A number has one quotient and one remainder. */
  lemma SplitUnique(q: nat, r: nat, q': nat, r': nat, p: nat)
    requires p > 0 && r < p && r' < p && q * p + r == q' * p + r'
    ensures q == q' && r == r'
  {
    if q < q' {
      SplitApart(q, q', p);
    } else if q' < q {
      SplitApart(q', q, p);
    }
  }

  lemma DivisionIs(n: nat, d: nat, q: nat, r: nat)
    requires d > 0 && r < d && n == q * d + r
    ensures n / d == q
  {
    SplitUnique(n / d, n % d, q, r, d);
  }

  lemma DivRange(n: nat, d: nat)
    requires d > 0
    ensures n / d * d <= n < (n / d + 1) * d
  {
  }

  lemma DivAtMost(n: nat, d: nat, q: nat)
    requires d > 0 && n < (q + 1) * d
    ensures n / d <= q
  {
    assert n == n / d * d + n % d;
    if n / d > q {
      MulMonotone(q + 1, n / d, d);
    }
  }

  lemma QuotientMonotone(m: nat, n: nat, d: nat)
    requires d > 0 && m <= n
    ensures m / d <= n / d
  {
    var q := n / d;
    DivRange(n, d);
    DivAtMost(m, d, q);
  }

  /** As many steps of width `d` as fit in `n`. */
  lemma DivAtLeast(q: nat, d: nat, n: int)
    requires d > 0 && q * d <= n
    ensures q <= n / d
  {
    assert n < (n / d + 1) * d;
    if q >= n / d + 1 {
      MulMonotone(n / d + 1, q, d);
    }
  }
}
