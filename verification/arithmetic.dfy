/** Facts about integer division that the time and sample arithmetic rests on. */
module Arithmetic {

  lemma MulAtLeastOne(m: int, d: int)
    requires m >= 1 && d > 0
    ensures m * d >= d
  {
  }

  /**
   * Euclidean division is unique: a quotient and a remainder in [0, d) that
   * rebuild `a` are the ones `/` and `%` give.
   */
  lemma DivisionUnique(a: int, d: int, q: int, r: int)
    requires d > 0 && a == q * d + r && 0 <= r < d
    ensures a / d == q && a % d == r
  {
    var q', r' := a / d, a % d;
    assert (q - q') * d == r' - r;
    if q' - q >= 1 {
      MulAtLeastOne(q' - q, d);
    } else if q - q' >= 1 {
      MulAtLeastOne(q - q', d);
    }
  }
}
