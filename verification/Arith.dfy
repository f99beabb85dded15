/** Division by a number that is not a literal. */
module Arith {

  lemma Quotient(a: nat, k: nat, r: nat)
    requires r < a
    ensures (a * k + r) / a == k && (a * k + r) % a == r
  {
    var n := a * k + r;
    SameQuotient(a, n / a, n % a, k, r);
  }

  lemma SameQuotient(a: nat, q: int, s: nat, k: int, r: nat)
    requires s < a && r < a && a * q + s == a * k + r
    ensures q == k && s == r
  {
    var d := q - k;
    assert a * q == a * k + a * d;
    Grows(a, d);
  }

  lemma Grows(a: nat, d: int)
    ensures d >= 1 ==> a * d >= a
    ensures d <= -1 ==> a * d + a <= 0
  {
    if d >= 1 { assert a * d == a + a * (d - 1); }
    if d <= -1 { assert a * d + a == a * (d + 1) && a * (-d - 1) >= 0; }
  }
}
