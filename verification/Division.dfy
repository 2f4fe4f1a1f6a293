/** Division with remainder by a variable divisor. */
module Division {

  lemma MulAtLeast(n: nat, d: nat)
    requires d > 0
    ensures n * d >= n
  {
    assert n * d == n * (d - 1) + n;
  }

  lemma Factor(n: nat, p: nat, q: nat)
    requires p >= q
    ensures n * p - n * q == n * (p - q)
  {
  }

  /** Quotient and remainder are unique. */
  lemma DivModUnique(x: nat, n: nat, q: nat, r: nat)
    requires n > 0 && x == n * q + r && r < n
    ensures x % n == r && x / n == q
  {
    var p := x / n;
    assert x == n * p + x % n;
    if p > q {
      Factor(n, p, q);
      MulAtLeast(n, p - q);
    } else if p < q {
      Factor(n, q, p);
      MulAtLeast(n, q - p);
    }
  }

  lemma ModUnique(x: nat, n: nat, q: nat, r: nat)
    requires n > 0 && x == n * q + r && r < n
    ensures x % n == r
  {
    DivModUnique(x, n, q, r);
  }

  lemma ModShift(x: nat, n: nat, q: nat)
    requires n > 0
    ensures (n * q + x) % n == x % n
  {
    var p := x / n;
    assert x == n * p + x % n;
    assert n * q + n * p == n * (q + p);
    ModUnique(n * q + x, n, q + p, x % n);
  }
}
