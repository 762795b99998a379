/** Small functions on integers, and division and multiplication facts the solver does not find by itself. */
module Arith {

  function Min(a: int, b: int): int { if a < b then a else b }

  function Max(a: int, b: int): int { if a < b then b else a }

  function Abs(n: int): nat { if n < 0 then -n else n }

  lemma DivStep(g: nat, d: nat)
    requires d >= 1
    ensures (g + 1) / d == if (g + 1) % d == 0 then g / d + 1 else g / d
    ensures d == 1 ==> (g + 1) % d == 0
  {
    var q, r := g / d, g % d;
    assert g == q * d + r;
    if r + 1 == d {
      assert g + 1 == (q + 1) * d;
      DivIs(g + 1, d, q + 1, 0);
    } else {
      DivIs(g + 1, d, q, r + 1);
    }
  }

  lemma {:induction false} MulGap(p: int, q: int, d: nat)
    requires p < q
    ensures p * d + d <= q * d
    decreases q - p
  {
    assert (q - 1) * d + d == q * d;
    if p + 1 < q {
      MulGap(p, q - 1, d);
    }
  }

  lemma DivIs(n: int, d: nat, q: int, r: nat)
    requires n == q * d + r && r < d
    ensures n / d == q && n % d == r
  {
    DivUnique(n, d, q, r, n / d, n % d);
  }

  lemma DivUnique(n: int, d: nat, q: int, r: nat, p: int, u: nat)
    requires n == q * d + r && r < d
    requires n == p * d + u && u < d
    ensures p == q && u == r
  {
    if p < q {
      MulGap(p, q, d);
    } else if q < p {
      MulGap(q, p, d);
    }
  }

  /** Between two multiples of d. */
  lemma WithinWhole(g: nat, d: nat, i: nat)
    requires d >= 1 && g % d == 0 && i < d
    ensures (g + i) / d == g / d
  {
    var q := g / d;
    assert g == q * d;
    DivIs(g + i, d, q, i);
  }

  lemma NextWhole(g: nat, d: nat)
    requires d >= 1 && g % d == 0
    ensures (g + d) / d == g / d + 1 && (g + d) % d == 0
  {
    var q := g / d;
    assert g == q * d;
    assert (q + 1) * d == q * d + d;
    DivIs(g + d, d, q + 1, 0);
  }

  lemma DivLe(g: nat, d: nat)
    requires d >= 1
    ensures g / d <= g
  {
    if g / d > g {
      MulGap(0, d, g / d);
    }
  }
}
