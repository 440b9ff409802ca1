/** Division facts, each in one small step so that the solver never searches. */
module Arith {

  lemma MulAtLeast(k: int, d: nat)
    requires k >= 1
    ensures k * d >= d
  {
    assert k * d == (k - 1) * d + d;
    MulNonNegative(k - 1, d);
  }

  lemma MulNonNegative(k: int, d: nat)
    requires k >= 0
    ensures k * d >= 0
  {
  }

  lemma SmallMultiple(k: int, d: nat, r: int)
    requires k * d == r && r < d && 0 < r + d
    ensures k == 0
  {
    if k >= 1 {
      MulAtLeast(k, d);
    } else if k <= -1 {
      MulAtLeast(-k, d);
    }
  }

  /** Quotient and remainder are unique. */
  lemma DivUnique(x: int, d: nat, q: int, r: int)
    requires d > 0 && x == q * d + r && 0 <= r < d
    ensures x / d == q && x % d == r
  {
    var q', r' := x / d, x % d;
    assert x == q' * d + r';
    assert (q' - q) * d == q' * d - q * d;
    SmallMultiple(q' - q, d, r - r');
  }

  lemma MultipleMod(q: int, d: nat)
    requires d > 0
    ensures (q * d) % d == 0 && (q * d) / d == q
  {
    DivUnique(q * d, d, q, 0);
  }

  lemma ModZeroIsMultiple(x: int, d: nat)
    requires d > 0 && x % d == 0
    ensures x == (x / d) * d
  {
  }

  lemma MulMonotone(p: int, q: int, d: nat)
    requires p <= q
    ensures p * d <= q * d
  {
    assert q * d == p * d + (q - p) * d;
    MulNonNegative(q - p, d);
  }
}
