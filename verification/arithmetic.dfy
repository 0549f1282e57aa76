/** Facts about division by a variable, and powers of 256. */
module Arithmetic {
  lemma Division(x: nat, m: nat)
    requires m > 0
    ensures x / m >= 0 && x == x / m * m + x % m && 0 <= x % m < m
  {
  }

  lemma Further(a: nat, b: nat, m: nat)
    requires a > b
    ensures a * m >= b * m + m
  {
    assert (a - b - 1) * m >= 0;
    assert a * m == b * m + m + (a - b - 1) * m;
  }

  lemma SameQuotient(a: nat, x: nat, b: nat, y: nat, m: nat)
    requires x < m && y < m && a * m + x == b * m + y
    ensures a == b && x == y
  {
    if a > b { Further(a, b, m); }
    if b > a { Further(b, a, m); }
  }

  function Pow256(k: nat): (r: nat)
    ensures r > 0
  {
    if k == 0 then 1 else 256 * Pow256(k - 1)
  }
}
