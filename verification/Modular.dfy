/** Remainders of sums and differences. */
module Modular {

  /** A number below the modulus is the remainder of itself plus multiples of the modulus. */
  lemma RemainderIs(k: int, r: nat, m: nat)
    requires r < m
    ensures (k * m + r) % m == r
  {
    var x := k * m + r;
    var q, s := x / m, x % m;
    assert x == m * q + s;
    assert m * (k - q) == s - r;
    Between(k - q, m, s - r);
  }

  /** A multiple of `m` strictly between `-m` and `m` is zero. */
  lemma Between(k: int, m: nat, d: int)
    requires m * k == d && -(m as int) < d < m
    ensures d == 0
  {
    assert k >= 1 ==> m * k >= m;
    assert k <= -1 ==> m * k <= -(m as int);
  }

  lemma AddMultiple(x: int, k: int, m: nat)
    requires m > 0
    ensures (x + k * m) % m == x % m
  {
    var q, r := x / m, x % m;
    assert x == m * q + r;
    assert x + k * m == (q + k) * m + r;
    RemainderIs(q + k, r, m);
  }

  lemma MultipleHasNoRemainder(k: int, m: nat)
    requires m > 0
    ensures (m * k) % m == 0
  {
    RemainderIs(k, 0, m);
  }

  /** Wrapping a summand first makes no difference. */
  lemma WrapSum(a: int, c: int, m: nat)
    requires m > 0
    ensures (a % m + c) % m == (a + c) % m
  {
    var q := a / m;
    assert a == q * m + a % m;
    AddMultiple(a % m + c, q, m);
    assert a % m + c + q * m == a + c;
  }

  /** Wrapping what is subtracted first makes no difference. */
  lemma WrapDifference(c: int, a: int, m: nat)
    requires m > 0
    ensures (c - a % m) % m == (c - a) % m
  {
    var q := a / m;
    assert a == q * m + a % m;
    AddMultiple(c - a % m, -q, m);
    assert c - a % m + -q * m == c - a;
  }
}
