/** Division with remainder, for a divisor that is not a constant. */
module Division {
  lemma {:induction false} Multiple(d: int, n: int)
    requires n > 0
    ensures d > 0 ==> d * n >= n
    ensures d < 0 ==> d * n + n <= 0
    decreases if d < 0 then -d else d
  {
    if d > 1 {
      Multiple(d - 1, n);
      Difference(d, 1, n);
    }
    if d < -1 {
      Multiple(d + 1, n);
      Difference(d + 1, 1, n);
    }
  }

  lemma Difference(p: int, q: int, n: int)
    ensures (p - q) * n == p * n - q * n
  {
  }

  lemma Euclid(x: nat, n: nat)
    requires n > 0
    ensures x == (x / n) * n + x % n && x % n < n
  {
  }

  lemma Unique(n: nat, q: int, r: nat, q': int, r': nat)
    requires n > 0 && r < n && r' < n && q * n + r == q' * n + r'
    ensures q == q' && r == r'
  {
    Difference(q, q', n);
    Multiple(q - q', n);
  }

  /** The quotient and the remainder are the only pair that fits. */
  lemma DivisionIs(x: nat, n: nat, q: nat, r: nat)
    requires n > 0 && r < n && x == q * n + r
    ensures x / n == q && x % n == r
  {
    Euclid(x, n);
    Unique(n, q, r, x / n, x % n);
  }
}
