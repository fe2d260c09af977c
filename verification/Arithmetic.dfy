/** Facts about quotients and remainders. */
module Arithmetic {

  lemma {:induction false} NextQuotient(n: nat, m: nat)
    requires m > 0
    ensures n % m == m - 1 ==> (n + 1) / m == n / m + 1 && (n + 1) % m == 0
    ensures n % m != m - 1 ==> (n + 1) / m == n / m && (n + 1) % m == n % m + 1
  {
    var q, r := n / m, n % m;
    assert n == m * q + r;
    if r == m - 1 {
      Quotient(n + 1, m, q + 1, 0);
    } else {
      Quotient(n + 1, m, q, r + 1);
    }
  }

  lemma {:induction false} Quotient(n: nat, m: nat, q: nat, r: nat)
    requires m > 0 && r < m && n == m * q + r
    ensures n / m == q && n % m == r
  {
    var q', r' := n / m, n % m;
    assert n == m * q' + r';
    if q' < q {
      MulGrows(m, q', q);
    } else if q < q' {
      MulGrows(m, q, q');
    }
  }

  lemma {:induction false} MulGrows(m: nat, a: int, b: int)
    requires a < b
    ensures m * a + m <= m * b
  {
    assert m * (b - a - 1) >= 0;
    assert m * b == m * a + m + m * (b - a - 1);
  }

  /** Counting d further in a ring of m positions. */
  lemma {:induction false} RingStep(a: nat, d: nat, m: nat)
    requires d <= m && m > 0
    ensures (a + d) % m == if a % m + d < m then a % m + d else a % m + d - m
  {
    if d > 0 {
      RingStep(a, d - 1, m);
      NextQuotient(a + d - 1, m);
    }
  }
}
