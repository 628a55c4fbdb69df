/** Quotients and remainders by a variable divisor. */
module Division {
  lemma {:induction false} Multiples(q: nat, base: nat)
    requires base >= 2
    ensures 2 * q <= q * base && (q > 0 ==> base <= q * base)
  {
    if q != 0 {
      Multiples(q - 1, base);
      assert q * base == (q - 1) * base + base;
    }
  }

  lemma {:induction false} MultiplesApart(k: nat, q: nat, n: nat)
    requires k < q
    ensures k * n + n <= q * n
  {
    if k + 1 < q {
      MultiplesApart(k, q - 1, n);
      assert q * n == (q - 1) * n + n;
    } else {
      assert q * n == k * n + n;
    }
  }

  /** Quotient and remainder are unique. */
  lemma {:induction false} SameQuotient(q: nat, d: nat, k: nat, r: nat, n: nat)
    requires d < n && r < n && q * n + d == k * n + r
    ensures q == k && d == r
  {
    if k < q { MultiplesApart(k, q, n); }
    if q < k { MultiplesApart(q, k, n); }
  }

  lemma {:induction false} Divides(x: nat, n: nat)
    requires n > 0
    ensures x == (x / n) * n + x % n && 0 <= x / n && 0 <= x % n < n
  {
    assert x == n * (x / n) + x % n;
    assert n * (x / n) == (x / n) * n;
  }

  /** Counting up modulo `n`. */
  lemma {:induction false} NextRemainder(x: nat, n: nat)
    requires n > 0
    ensures (x + 1) % n == if x % n + 1 == n then 0 else x % n + 1
  {
    Divides(x, n);
    Divides(x + 1, n);
    var q, r := x / n, x % n;
    if r + 1 == n {
      assert (q + 1) * n == q * n + n;
      SameQuotient(q + 1, 0, (x + 1) / n, (x + 1) % n, n);
    } else {
      SameQuotient(q, r + 1, (x + 1) / n, (x + 1) % n, n);
    }
  }
}
