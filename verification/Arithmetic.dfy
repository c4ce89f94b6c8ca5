/** Multiplication and division by a variable, where the solver needs a hand. */
module Arithmetic {
  lemma Quotient(a: nat, n: nat, b: nat)
    requires n > 0 && a <= b * n
    ensures 0 <= a / n <= b
  {
    Times(n, a / n, b + 1);
  }

  lemma QuotientMonotone(a: nat, b: nat, n: nat)
    requires n > 0 && a <= b
    ensures a / n <= b / n
  {
    Times(n, a / n, b / n + 1);
  }

  lemma Times(n: nat, x: int, y: int)
    ensures x <= y ==> x * n <= y * n
    ensures y <= x ==> y * n <= x * n
  {
  }

  lemma OneMore(n: int, k: int)
    ensures n * (k + 1) == n * k + n
  {
  }

  /** Division is undone by the one quotient and remainder that fit. */
  lemma Division(a: int, n: nat, q: int, rest: nat)
    requires n > 0 && a == q * n + rest && rest < n
    ensures a / n == q && a % n == rest
  {
    var d := a / n;
    assert a == d * n + a % n;
    Times(n, d, q + 1);
    Times(n, q, d + 1);
    Times(n, d, q);
  }

  /** Reducing one summand first changes nothing. */
  lemma ModuloAdd(a: int, b: int, n: nat)
    requires n > 0
    ensures (a % n + b) % n == (a + b) % n
  {
    var c := a % n + b;
    Division(a + b, n, a / n + c / n, c % n);
  }

  lemma AddOnce(a: int, n: nat)
    requires n > 0
    ensures (a + n) % n == a % n
  {
    Division(n, n, 1, 0);
    ModuloAdd(n, a, n);
  }
}
