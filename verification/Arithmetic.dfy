/** Division facts the other modules need. */
module Arithmetic {
  lemma MulAtLeast(n: int, d: int)
    requires d >= 1
    ensures n >= 1 ==> n * d >= d
    ensures n <= -1 ==> n * d <= -d
  {
    if n >= 1 { assert n * d == (n - 1) * d + d; }
    if n <= -1 { assert n * d == (n + 1) * d - d; }
  }

  lemma DivModUnique(y: nat, d: nat, q: nat, r: nat)
    requires d >= 1 && r < d && y == q * d + r
    ensures y / d == q && y % d == r
  {
    var q', r' := y / d, y % d;
    assert y == q' * d + r';
    MulAtLeast(q - q', d);
    assert (q - q') * d == q * d - q' * d;
  }

  lemma DivStep(y: nat, d: nat)
    requires d >= 1
    ensures (y + d) / d == y / d + 1
    ensures y < d ==> y / d == 0
  {
    var q, r := y / d, y % d;
    assert y + d == (q + 1) * d + r;
    DivModUnique(y + d, d, q + 1, r);
  }
}
