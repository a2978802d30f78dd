/** The few facts about products and quotients that the models need. */
module Arith {

  lemma MulMonotone(a: nat, b: nat, k: nat)
    requires a <= b
    ensures a * k <= b * k
  {
  }

  lemma MulDistributes(a: int, b: int, k: int)
    ensures (a + b) * k == a * k + b * k
  {
  }

  lemma DivBounds(a: nat, k: nat)
    requires k > 0
    ensures a / k * k <= a < a / k * k + k
    ensures a == a / k * k + a % k
  {
  }

  lemma QuotientIsUnique(x: nat, k: nat, q: nat, r: nat)
    requires x == q * k + r && r < k
    ensures x / k == q && x % k == r
  {
    DivBounds(x, k);
    if q < x / k {
      MulMonotone(q + 1, x / k, k);
    } else if x / k < q {
      MulMonotone(x / k + 1, q, k);
    }
  }

  lemma DivAtLeast(x: nat, k: nat, q: nat)
    requires k > 0 && q * k <= x
    ensures q <= x / k
  {
    DivBounds(x, k);
    if x / k < q {
      MulMonotone(x / k + 1, q, k);
    }
  }
}
