/** Facts about products and remainders that the solver needs told once. */
module Arith {

  lemma MulGap(n: nat, a: int, b: int)
    requires a > b
    ensures n * a >= n * b + n
  {
    assert n * a == n * b + n + n * (a - b - 1);
  }

  /** Quotient and remainder are unique. */
  lemma QuotRem(n: int, q: int, r: int, q': int, r': int)
    requires n > 0 && 0 <= r < n && 0 <= r' < n
    requires n * q + r == n * q' + r'
    ensures q == q' && r == r'
  {
    if q > q' {
      MulGap(n, q, q');
    } else if q < q' {
      MulGap(n, q', q);
    }
  }

  lemma DivMod(a: int, q: int, r: int, n: int)
    requires n > 0 && a == n * q + r && 0 <= r < n
    ensures a % n == r && a / n == q
  {
    QuotRem(n, q, r, a / n, a % n);
  }

  lemma ModAdd(a: int, b: int, n: int)
    requires n > 0
    ensures (a % n + b % n) % n == (a + b) % n
  {
    var s := a % n + b % n;
    var q := a / n + b / n + s / n;
    assert a + b == n * (a / n) + n * (b / n) + n * (s / n) + s % n;
    assert n * q == n * (a / n) + n * (b / n) + n * (s / n);
    DivMod(a + b, q, s % n, n);
  }

  lemma Division(a: int, n: int)
    requires n > 0
    ensures a == n * (a / n) + a % n && 0 <= a % n < n
  {
  }

  lemma MulOrder(n: nat, a: int, b: int)
    requires a <= b
    ensures n * a <= n * b
  {
    assert n * b == n * a + n * (b - a);
  }
}
