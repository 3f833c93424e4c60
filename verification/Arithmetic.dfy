/** Facts about products, quotients and remainders that the solver needs spelled out. */
module Arithmetic {
  lemma MulAtLeast(k: int, d: nat)
    requires k >= 1
    ensures k * d >= d
  {
  }

  lemma Distribute(a: int, b: int, d: int)
    ensures (a - b) * d == a * d - b * d
  {
  }

  lemma DivIs(x: int, d: nat, q: int, r: nat)
    requires 0 <= r < d && x == q * d + r
    ensures x / d == q && x % d == r
  {
    var q', r' := x / d, x % d;
    assert x == q' * d + r';
    QuotientUnique(q, r, q', r', d);
  }

  lemma QuotientUnique(q: int, r: int, q': int, r': int, d: nat)
    requires 0 <= r < d && 0 <= r' < d && q * d + r == q' * d + r'
    ensures q == q' && r == r'
  {
    if q > q' {
      Distribute(q, q', d);
      MulAtLeast(q - q', d);
    } else if q < q' {
      Distribute(q', q, d);
      MulAtLeast(q' - q, d);
    }
  }

  lemma DivMonotonic(a: nat, b: nat, d: nat)
    requires a <= b && d > 0
    ensures a / d <= b / d
  {
    OrderedQuotients(a / d, a % d, b / d, b % d, d);
  }

  lemma OrderedQuotients(q: int, r: int, q': int, r': int, d: nat)
    requires 0 <= r < d && 0 <= r' < d && q * d + r <= q' * d + r'
    ensures q <= q'
  {
    if q > q' {
      Distribute(q, q', d);
      MulAtLeast(q - q', d);
    }
  }

  lemma QuotientBounds(a: nat, b: nat)
    requires b > 0
    ensures a / b * b <= a < (a / b + 1) * b
  {
    assert (a / b + 1) * b == a / b * b + b;
  }

  lemma MultipleQuotient(q: nat, b: nat)
    requires b > 0
    ensures q * b >= 0 && q * b / b == q
  {
    QuotientBounds(q * b, b);
    var r := q * b / b;
    if r < q {
      Ordered(r + 1, q, b);
    } else if r > q {
      Ordered(q + 1, r, b);
    }
  }

  lemma Ordered(a: int, b: int, k: nat)
    requires a <= b
    ensures a * k <= b * k
  {
  }

  /** k times a, as repeated addition. */
  function Times(k: nat, a: nat): nat {
    if k == 0 then 0 else Times(k - 1, a) + a
  }

  lemma {:induction false} TimesIsProduct(k: nat, a: nat)
    ensures Times(k, a) == k * a
  {
    if k > 0 {
      TimesIsProduct(k - 1, a);
      assert k * a == (k - 1) * a + a;
    }
  }

  lemma TimesZero(k: nat, a: nat)
    ensures Times(k, a) == 0 <==> k == 0 || a == 0
  {
  }
}
