/** Facts about multiplication that the solver does not find reliably on its own. */
module Arith {

  /** Multiplying by a non-negative factor keeps the order. */
  lemma MulMonotone(a: int, b: int, c: int)
    requires a <= b && 0 <= c
    ensures a * c <= b * c
  {
    assert (b - a) * c >= 0;
    assert b * c - a * c == (b - a) * c;
  }

  /** A multiple of a positive `d` strictly between `-d` and `d` is zero. */
  lemma SmallMultipleIsZero(t: int, d: int)
    requires 0 < d && -d < t * d < d
    ensures t == 0
  {
    if t >= 1 {
      MulMonotone(1, t, d);
    } else if t <= -1 {
      MulMonotone(t, -1, d);
    }
  }

  /** Euclidean division brackets its dividend between two consecutive multiples. */
  lemma DivBracket(a: int, d: int)
    requires 0 < d
    ensures (a / d) * d <= a < (a / d) * d + d
  {
    assert a == d * (a / d) + a % d;
  }
}
