/** Division with explicit quotients, so that proofs can stay linear. */
module Arith {
  lemma Multiple(k: int, d: int)
    requires k >= 1 && d > 0
    ensures k * d >= d
  {
  }

  lemma Distribute(a: int, b: int, d: int)
    ensures (a - b) * d == a * d - b * d
  {
  }

  lemma Unique(d: int, q: int, r: int, q': int, r': int)
    requires 0 <= r < d && 0 <= r' < d && q * d + r == q' * d + r'
    ensures q == q' && r == r'
  {
    Distribute(q, q', d);
    Distribute(q', q, d);
    if q' < q {
      Multiple(q - q', d);
    }
    if q' > q {
      Multiple(q' - q, d);
    }
  }

  lemma DivMod(x: int, d: int, q: int, r: int)
    requires 0 <= r < d && x == q * d + r
    ensures x / d == q && x % d == r
  {
    Unique(d, q, r, x / d, x % d);
  }
}
