/** Facts about products and quotients that the solver does not find by itself. */
module Arithmetic {

  /** The values of a 64-bit word are those below. */
  const U64: int := 0x1_0000_0000_0000_0000

  lemma UniqueDivision(q: nat, r: nat, q': nat, r': nat, d: nat)
    requires r < d && r' < d && q * d + r == q' * d + r'
    ensures q == q' && r == r'
  {
    assert q < q' ==> (q + 1) * d <= q' * d;
    assert q' < q ==> (q' + 1) * d <= q * d;
  }

  lemma Quotient(v: nat, d: nat, q: nat, r: nat)
    requires r < d && v == q * d + r
    ensures v / d == q && v % d == r
  {
    UniqueDivision(v / d, v % d, q, r, d);
  }

  lemma MulGap(a: nat, b: nat, d: nat)
    requires a < b
    ensures a * d + d <= b * d
  {
    var k := b - a - 1;
    assert b * d == (a + 1 + k) * d == a * d + d + k * d;
  }

  lemma CancelLess(a: nat, b: nat, d: nat)
    requires a * d < b * d
    ensures a < b
  {
    assert (b - a) * d == b * d - a * d;
  }
}
