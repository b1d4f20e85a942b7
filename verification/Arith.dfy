/**
  Division with remainder, for proofs that would otherwise multiply unknowns.

  The solver is quick on linear facts and slow on products of two unknowns.  Each lemma here states
  one fact about a quotient, a remainder or a power of two for plain numbers, so that the proofs about
  lines, colours and stripes can use it with their own terms and stay linear.  None of them says
  anything about the system; they are what its address arithmetic rests on.
 */
module Arith {

  lemma Euclid(a: nat, n: nat, q: nat, r: nat)
    requires n > 0 && a == n * q + r && r < n
    ensures a / n == q && a % n == r
  {
    DivUnique(n, a / n, a % n, q, r);
  }

  lemma DivUnique(n: nat, q: nat, r: nat, p: nat, s: nat)
    requires r < n && s < n && n * q + r == n * p + s
    ensures q == p && r == s
  {
    if q < p {
      MulLe(q + 1, p, n);
      Distribute(n, q);
    } else if p < q {
      MulLe(p + 1, q, n);
      Distribute(n, p);
    }
  }

  lemma Distribute(n: nat, q: nat)
    ensures n * (q + 1) == n * q + n && (q + 1) * n == q * n + n
  {
  }

  lemma MulLe(a: nat, b: nat, n: nat)
    requires a <= b
    ensures a * n <= b * n && n * a <= n * b
  {
  }

  lemma Multiple(n: nat, q: nat)
    requires n > 0
    ensures (n * q) % n == 0 && n * q / n == q && (q * n) % n == 0 && q * n / n == q
  {
    var p := n * q;
    assert q * n == p;
    ProductDivided(p, n, q);
  }

  lemma ProductDivided(p: nat, n: nat, q: nat)
    requires n > 0 && p == n * q
    ensures p % n == 0 && p / n == q
  {
    Euclid(p, n, q, 0);
  }

  lemma DivLess(x: nat, n: nat, k: nat)
    requires n > 0 && x < k * n
    ensures x / n < k
  {
    if x / n >= k { MulLe(k, x / n, n); }
  }

  /** Numbers with one remainder that are less than `n` apart are one. */
  lemma SameRemainder(x: nat, y: nat, n: nat)
    requires n > 0 && x % n == y % n && x < y + n && y < x + n
    ensures x == y
  {
    assert x == n * (x / n) + x % n;
    assert y == n * (y / n) + y % n;
    NearMultiples(n, x / n, y / n);
  }

  lemma NearMultiples(n: nat, p: nat, q: nat)
    requires n * p < n * q + n && n * q < n * p + n
    ensures p == q
  {
    if p < q {
      MulLe(p + 1, q, n);
      Distribute(n, p);
    } else if q < p {
      MulLe(q + 1, p, n);
      Distribute(n, q);
    }
  }

  lemma ModSmall(a: nat, n: nat)
    requires a < n
    ensures a % n == a
  {
    Euclid(a, n, 0, a);
  }

  /** Reducing by a multiple first changes nothing. */
  lemma ModMod(a: nat, m: nat, n: nat)
    requires n > 0 && m > 0 && m % n == 0
    ensures (a % m) % n == a % n
  {
    var k, q, r := m / n, a / m, a % m;
    assert m == n * k && a == m * q + r && r == n * (r / n) + r % n;
    Regroup(n, k, q);
    Sum(n, k * q, r / n);
    Euclid(a, n, k * q + r / n, r % n);
  }

  lemma Sum(n: nat, x: nat, y: nat)
    ensures n * (x + y) == n * x + n * y
  {
  }

  lemma Regroup(n: nat, k: nat, q: nat)
    ensures n * k * q == n * (k * q)
  {
  }

  /** The next multiple below a multiple. */
  lemma NextMultiple(a: nat, m: nat, n: nat)
    requires n > 0 && a % n == 0 && m % n == 0 && a < m
    ensures a + n <= m && (a + n) % n == 0
  {
    var p, q := a / n, m / n;
    assert a == n * p && m == n * q;
    if p >= q { MulLe(q, p, n); }
    MulLe(p + 1, q, n);
    Distribute(n, p);
    Multiple(n, p + 1);
  }

  predicate IsPow2(x: nat) {
    x == 1 || (x > 1 && x % 2 == 0 && IsPow2(x / 2))
  }

  lemma {:induction false} Pow2Times(a: nat, b: nat)
    requires IsPow2(a) && IsPow2(b)
    ensures IsPow2(a * b)
    decreases a
  {
    if a > 1 {
      Pow2Times(a / 2, b);
      Twice(a / 2, b);
      var h := (a / 2) * b;
      assert a * b == 2 * h && (a * b) / 2 == h;
    }
  }

  lemma {:induction false} Pow2Divides(n: nat, m: nat)
    requires IsPow2(n) && IsPow2(m) && n <= m
    ensures m % n == 0
    decreases m
  {
    if n > 1 {
      Pow2Divides(n / 2, m / 2);
      var h, q := n / 2, (m / 2) / (n / 2);
      assert m / 2 == h * q;
      Twice(h, q);
      Euclid(m, n, q, 0);
    }
  }

  lemma Twice(h: nat, q: nat)
    ensures 2 * (h * q) == (2 * h) * q
  {
  }
}
