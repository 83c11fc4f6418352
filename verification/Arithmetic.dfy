/** Facts about products and quotients, each small enough for the solver. */
module Arithmetic {
  // 1 << n
  function Pow2(n: nat): (p: nat)
    ensures p > 0
  {
    if n == 0 then 1 else 2 * Pow2(n - 1)
  }

  lemma Product(k: nat, d: nat)
    requires k > 0
    ensures d <= k * d
  {
    assert k * d == (k - 1) * d + d;
    assert (k - 1) * d >= 0;
  }

  lemma NextMultiple(a: nat, b: nat, d: nat)
    requires a < b
    ensures a * d + d <= b * d
  {
    Product(b - a, d);
    assert b * d == a * d + (b - a) * d;
  }

  lemma DivMod(x: nat, d: nat)
    requires d > 0
    ensures x == (x / d) * d + x % d
  {
  }

  lemma Quotient(x: nat, d: nat, q: nat, r: nat)
    requires d > 0 && x == q * d + r && r < d
    ensures x / d == q
  {
    DivMod(x, d);
    if q < x / d {
      NextMultiple(q, x / d, d);
    } else if x / d < q {
      NextMultiple(x / d, q, d);
    }
  }

  lemma DivTwice(x: nat, d: nat)
    requires d > 0
    ensures x / (2 * d) == x / d / 2
  {
    var q, r := x / d, x % d;
    DivMod(x, d);
    var h := q / 2;
    HalfTimesTwice(q, d);
    Quotient(x, 2 * d, h, if q % 2 == 0 then r else d + r);
  }

  lemma HalfTimesTwice(q: nat, d: nat)
    ensures q * d == (q / 2) * (2 * d) + if q % 2 == 0 then 0 else d
  {
    var h := q / 2;
    assert h * (2 * d) == (2 * h) * d;
    if q % 2 == 1 {
      assert (2 * h + 1) * d == (2 * h) * d + d;
    }
  }
}
