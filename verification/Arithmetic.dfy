/** Division and remainder facts shared by the models. */
module Arithmetic {

  // The values of an unsigned machine word.
  const WORD: nat := 0x1_0000_0000_0000_0000

  function Min(a: nat, b: nat): nat {
    if a < b then a else b
  }

  function Pow2(n: nat): nat {
    if n == 0 then 1 else 2 * Pow2(n - 1)
  }

  lemma MultiplyMonotone(a: int, b: int, m: nat)
    ensures a <= b ==> a * m <= b * m
  {
  }

  // Quotient and remainder are the only ones of their kind.
  lemma DivisionIsUnique(h: nat, m: nat, q: nat, r: nat)
    requires m > 0 && h == q * m + r && r < m
    ensures h / m == q && h % m == r
  {
    assert h == (h / m) * m + h % m;
    MultiplyMonotone(q + 1, h / m, m);
    MultiplyMonotone(h / m + 1, q, m);
  }

  lemma RemainderOfSmall(r: nat, d: nat)
    requires r < d
    ensures r % d == r
  {
    DivisionIsUnique(r, d, 0, r);
  }

  lemma RemainderOfShifted(n: nat, d: nat)
    requires d > 0
    ensures (n + d) % d == n % d
  {
    assert n + d == (n / d + 1) * d + n % d;
    DivisionIsUnique(n + d, d, n / d + 1, n % d);
  }
}
