/** 32-bit words, and division facts the solver does not find by itself. */
module Arith {
  const WORD: nat := 0x1_0000_0000

  /** Unsigned 32-bit arithmetic. */
  function U32(x: int): nat {
    x % WORD
  }

  lemma {:induction false} MultipleIsLarge(a: int, m: int)
    requires a >= 1 && m >= 0
    ensures a * m >= m
  {
  }

  lemma {:induction false} SmallMultipleIsZero(d: int, m: int)
    requires 0 - m < d * m < m
    ensures d == 0
  {
    if d >= 1 { MultipleIsLarge(d, m); }
    if d <= -1 { MultipleIsLarge(-d, m); }
  }

  lemma {:induction false} DivMod(x: int, m: int)
    requires m > 0
    ensures x == x / m * m + x % m && 0 <= x % m < m
  {
  }

  lemma {:induction false} Distribute(a: int, b: int, m: int)
    ensures (a - b) * m == a * m - b * m
  {
  }

  lemma {:induction false} DivModUnique(x: int, q: int, m: int, r: int)
    requires 0 <= r < m && x == q * m + r
    ensures x % m == r && x / m == q
  {
    DivMod(x, m);
    Distribute(q, x / m, m);
    SmallMultipleIsZero(q - x / m, m);
  }
}
