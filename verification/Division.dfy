/** Division by a positive number that is not a literal, and products that are zero. */
module Division {

  lemma SmallMultiple(k: int, n: int)
    requires n > 0 && -n < k * n < n
    ensures k == 0
  {
    if k >= 1 {
      NonnegativeProduct(k - 1, n);
    } else if k <= -1 {
      NonnegativeProduct(-k - 1, n);
    }
  }

  lemma QuotientSign(k: int, n: int)
    requires n > 0 && k * n > -n
    ensures k >= 0
  {
    if k <= -1 {
      NonnegativeProduct(-k - 1, n);
    }
  }

  lemma NonnegativeProduct(k: int, n: int)
    requires k >= 0 && n >= 0
    ensures k * n >= 0
  {
  }

  /** Quotient and remainder are unique. */
  lemma Unique(q: int, r: int, q': int, r': int, n: int)
    requires n > 0 && 0 <= r < n && 0 <= r' < n && q * n + r == q' * n + r'
    ensures q == q' && r == r'
  {
    assert (q - q') * n == q * n - q' * n;
    SmallMultiple(q - q', n);
  }

  lemma QuotientIs(a: int, q: int, r: int, n: int)
    requires n > 0 && 0 <= r < n && a == q * n + r
    ensures a / n == q && a % n == r
  {
    var q', r' := a / n, a % n;
    Recomposed(a, n);
    Unique(q, r, q', r', n);
  }

  lemma Recomposed(a: int, n: int)
    requires n > 0
    ensures a == (a / n) * n + a % n && 0 <= a % n < n
  {
  }

  lemma AddMultiple(a: int, k: int, n: int)
    requires n > 0
    ensures (a + k * n) % n == a % n && (a + k * n) / n == a / n + k
  {
    Recomposed(a, n);
    assert (a / n + k) * n == (a / n) * n + k * n;
    QuotientIs(a + k * n, a / n + k, a % n, n);
  }

  /** Counting on by one passes a multiple or not. */
  lemma NextQuotient(a: int, n: int)
    requires n > 0
    ensures (a + 1) / n == a / n + (if (a + 1) % n == 0 then 1 else 0)
  {
    Recomposed(a, n);
    if a % n + 1 < n {
      QuotientIs(a + 1, a / n, a % n + 1, n);
    } else {
      assert (a / n + 1) * n == (a / n) * n + n;
      QuotientIs(a + 1, a / n + 1, 0, n);
    }
  }

  lemma SumOfMultiples(a: int, b: int, n: int)
    requires n > 0 && a % n == 0 && b % n == 0
    ensures (a + b) % n == 0 && (a - b) % n == 0
  {
    Recomposed(a, n);
    Recomposed(b, n);
    assert (a / n + b / n) * n == (a / n) * n + (b / n) * n;
    assert (a / n - b / n) * n == (a / n) * n - (b / n) * n;
    QuotientIs(a + b, a / n + b / n, 0, n);
    QuotientIs(a - b, a / n - b / n, 0, n);
  }

  /** A multiple of k * n is a multiple of n. */
  lemma MultipleOfMultiple(a: int, k: int, n: int, d: int)
    requires k > 0 && n > 0 && d == k * n && d > 0 && a % d == 0
    ensures a % n == 0
  {
    Recomposed(a, d);
    var q := a / d;
    assert q * (k * n) == (q * k) * n;
    QuotientIs(a, q * k, 0, n);
  }

  lemma Negated(a: int, n: int)
    requires n > 0
    ensures (-a) % n == 0 <==> a % n == 0
  {
    Recomposed(a, n);
    Recomposed(-a, n);
    if a % n == 0 {
      NegatedMultiple(a / n, n);
      QuotientIs(-a, -(a / n), 0, n);
    }
    if (-a) % n == 0 {
      NegatedMultiple((-a) / n, n);
      QuotientIs(a, -((-a) / n), 0, n);
    }
  }

  lemma NegatedMultiple(q: int, n: int)
    ensures -(q * n) == (-q) * n
  {
  }

  lemma NoZeroDivisors(x: real, y: real)
    ensures x * y == 0.0 <==> x == 0.0 || y == 0.0
  {
  }
}
