/** Quotients and remainders by a divisor that is not a constant. */
module Division {

  lemma {:induction false} AtLeast(d: int, p: nat)
    ensures d >= 1 ==> d * p >= p
  {
    if d >= 1 {
      assert d * p == p + (d - 1) * p;
    }
  }

  lemma {:induction false} Quotient(a: nat, n: nat, q: int, r: nat)
    requires n > 0 && r < n && a == q * n + r
    ensures a / n == q && a % n == r
  {
    var d := a / n - q;
    assert a == (a / n) * n + a % n;
    assert (a / n) * n - q * n == d * n;
    AtLeast(d, n);
    AtLeast(-d, n);
  }

  lemma {:induction false} ModPlus(k: nat, n: nat, d: nat)
    requires 0 < n && d <= n
    ensures (k + d) % n == if k % n + d < n then k % n + d else k % n + d - n
  {
    var q, r := k / n, k % n;
    assert k == q * n + r;
    if r + d < n {
      Quotient(k + d, n, q, r + d);
    } else {
      assert (q + 1) * n == q * n + n;
      Quotient(k + d, n, q + 1, r + d - n);
    }
  }
}
