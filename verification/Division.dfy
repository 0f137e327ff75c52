/** Facts about integer quotients. */
module Division {
  lemma ProductGrows(a: nat, b: nat, n: nat)
    requires a <= b
    ensures a * n <= b * n
  {
  }

  lemma QuotientsOrdered(x: nat, y: nat, d: nat)
    requires d > 0 && x <= y
    ensures x / d <= y / d
  {
    var p, q := x / d, y / d;
    assert x == p * d + x % d && y == q * d + y % d;
    if p > q {
      ProductGrows(q + 1, p, d);
      assert false;
    }
  }

  lemma WholeQuotient(n: nat, d: nat)
    requires d > 0
    ensures n * d / d == n
  {
    var q := n * d / d;
    assert n * d == q * d + n * d % d;
    if q < n {
      ProductGrows(q + 1, n, d);
      assert false;
    } else if q > n {
      ProductGrows(n + 1, q, d);
      assert false;
    }
  }

  /** A quotient is the greatest number of whole parts. */
  lemma QuotientFits(x: nat, d: nat)
    requires d > 0
    ensures d * (x / d) <= x < d * (x / d + 1)
  {
    assert x == d * (x / d) + x % d;
  }

  lemma SumOfProducts(a: nat, b: nat, d: nat)
    ensures (a + b) * d == a * d + b * d && (a + b + 1) * d == a * d + b * d + d
  {
  }

  lemma Decomposed(x: nat, d: nat) returns (q: nat, r: nat)
    requires d > 0
    ensures q == x / d && x == q * d + r && r < d
  {
    q, r := x / d, x % d;
  }

  /** Adding `n` raises the quotient by that of `n`, or by one more. */
  lemma QuotientOfSum(x: nat, n: nat, d: nat)
    requires d > 0
    ensures n / d <= (x + n) / d - x / d <= n / d + 1
  {
    var a, r := Decomposed(x, d);
    var b, s := Decomposed(n, d);
    SumOfProducts(a, b, d);
    QuotientOfParts(x + n, d, a + b, r + s);
  }

  lemma QuotientOfParts(x: nat, d: nat, q: nat, r: nat)
    requires d > 0 && x == q * d + r && r < d + d
    ensures q <= x / d <= q + 1
  {
    SumOfProducts(q, 0, d);
    if r < d {
      QuotientIs(x, d, q, r);
    } else {
      QuotientIs(x, d, q + 1, r - d);
    }
  }

  lemma QuotientGrows(x: nat, n: nat, d: nat)
    requires 0 < d <= n
    ensures x / d < (x + n) / d
  {
    var p, q := x / d, (x + n) / d;
    assert x == p * d + x % d && x + n == q * d + (x + n) % d;
    if q <= p {
      ProductGrows(q, p, d);
      assert false;
    }
  }

  lemma QuotientIs(x: nat, d: nat, q: nat, r: nat)
    requires d > 0 && x == q * d + r && r < d
    ensures x / d == q
  {
    var p := x / d;
    assert x == p * d + x % d;
    if p > q {
      ProductGrows(q + 1, p, d);
      assert false;
    } else if p < q {
      ProductGrows(p + 1, q, d);
      assert false;
    }
  }
}
