/** Remainders of products and sums. */
module Arithmetic {
  lemma UniqueRemainder(v: int, m: nat, a: int, r: nat)
    requires m > 0 && v == m * a + r && r < m
    ensures v % m == r
  {
    var q := v / m;
    assert v == m * q + v % m;
    OneMoreTimes(m, a, q);
    OneMoreTimes(m, q, a);
  }

  lemma OneMoreTimes(m: nat, a: int, b: int)
    ensures a > b ==> m * a >= m * b + m
  {
    if a > b {
      var d := a - b;
      assert m * a == m * b + m * d;
      assert m * d >= m by { assert m * d == m * (d - 1) + m; }
    }
  }

  lemma MultipleOf(k: int, m: nat)
    requires m > 0
    ensures m * k % m == 0
  {
    UniqueRemainder(m * k, m, k, 0);
  }

  lemma ExactDivision(n: int, m: nat)
    requires m > 0 && n % m == 0
    ensures n == m * (n / m)
  {
  }

  lemma ProductOrder(m: nat, a: int, b: int)
    ensures a <= b ==> m * a <= m * b
    ensures m * (a + 1) == m * a + m
  {
    if a <= b { assert m * b == m * a + m * (b - a); }
  }
}
