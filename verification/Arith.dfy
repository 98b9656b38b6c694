/** Facts about products and quotients of natural numbers that the solver does not see by itself. */
module Arith {
  lemma {:induction false} DivIs(x: nat, d: nat, k: nat, r: nat)
    requires d > 0 && x == d * k + r && r < d
    ensures x / d == k && x % d == r
  {
    Steps(d, k, x / d);
    Steps(d, x / d, k);
  }

  lemma Steps(d: nat, a: nat, b: nat)
    ensures a < b ==> d * a + d <= d * b
  {
    if a < b {
      var c := b - a - 1;
      assert b == a + 1 + c;
      assert d * (a + 1 + c) == d * a + d + d * c;
    }
  }

  lemma Division(x: nat, d: nat)
    requires d > 0
    ensures x == d * (x / d) + x % d && x % d < d
  {
  }

  lemma Distribute(n: nat, a: nat, b: nat)
    ensures n * (a + b) == n * a + n * b
  {
  }

  lemma {:induction false} DivideTwice(x: nat, d: nat, p: nat)
    requires d > 0 && p > 0
    ensures d * p > 0 && x / d / p == x / (d * p)
  {
    var q := x / d;
    Division(x, d);
    Division(q, p);
    Nested(d, p, q / p, q % p);
    Steps(d, q % p, p);
    assert d * (q % p) + x % d < d * p;
    DivIs(x, d * p, q / p, d * (q % p) + x % d);
  }

  lemma Nested(d: nat, p: nat, a: nat, b: nat)
    requires d > 0 && p > 0
    ensures d * p > 0 && d * (p * a + b) == d * p * a + d * b
  {
    Distribute(d, p * a, b);
    assert d * (p * a) == d * p * a;
    Steps(d, 0, p);
  }
}
