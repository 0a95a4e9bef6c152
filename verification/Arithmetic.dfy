/** Division with remainder, for divisors that are not constants. */
module Arithmetic {
  lemma Sign(n: int, j: int)
    requires n > 0
    ensures j >= 0 ==> n * j >= 0
  {
  }

  lemma Multiple(n: int, k: int)
    requires n > 0 && -n < n * k < n
    ensures k == 0
  {
    Sign(n, k - 1);
    Sign(n, -k - 1);
  }

  lemma Distribute(n: int, p: int, q: int)
    ensures n * (p + q) == n * p + n * q
  {
  }

  lemma Quotient(x: int, n: nat) returns (q: int)
    requires n > 0
    ensures x == n * q + x % n && x % n < n && (x >= 0 ==> q >= 0)
  {
    q := x / n;
  }

  lemma Euclid(x: int, n: nat, q: int, b: nat)
    requires n > 0 && x == n * q + b && b < n
    ensures x % n == b
  {
    var q' := Quotient(x, n);
    var k: int := q' - q;
    Distribute(n, q, k);
    Multiple(n, k);
  }

  lemma AddMod(h: nat, i: nat, n: nat)
    requires n > 0
    ensures (h + i) % n == (h % n + i) % n
  {
    var q := Quotient(h, n);
    var q' := Quotient(h % n + i, n);
    Distribute(n, q, q');
    Euclid(h + i, n, q + q', (h % n + i) % n);
  }

  lemma Commute(a: int, b: int)
    ensures a * b == b * a
  {
  }

  function Power(k: nat): nat {
    if k == 0 then 1 else 2 * Power(k - 1)
  }

  /** Of two factors of a power of two, each is 1 or even. */
  lemma {:induction false} EvenFactor(m: nat, n: nat, k: nat)
    requires m * n == Power(k) && m > 1
    ensures m % 2 == 0
    decreases k
  {
    if k == 0 {
      Distribute(m, n - 1, 1);
      Sign(m, n - 1);
    } else if m % 2 == 1 {
      var h := n / 2;
      Distribute(m, h, h);
      if n == h + h {
        EvenFactor(m, h, k - 1);
      } else {
        Distribute(m, h + h, 1);
      }
    }
  }
}
