/** Facts about products and Euclidean division that the solver does not find alone. */
module Arithmetic {

  lemma TimesMonotone(k: nat, a: nat, b: nat)
    requires a <= b
    ensures a * k <= b * k && k * a <= k * b
  {}

  /** Quotient and remainder are unique. */
  lemma Divides(x: int, q: int, r: int, d: int)
    requires d > 0 && x == q * d + r && 0 <= r < d
    ensures x / d == q && x % d == r
  {
    var p, s := x / d, x % d;
    assert x == p * d + s && 0 <= s < d;
    assert (q - p) * d == s - r;
    if q > p { AtLeastOnce(q - p, d); } else if q < p { AtLeastOnce(p - q, d); }
  }

  lemma AtLeastOnce(m: int, d: int)
    requires m >= 1 && d > 0
    ensures m * d >= d
  {}

  lemma QuotientShifts(y: int, m: int, d: int)
    requires d > 0
    ensures (y + m * d) / d == y / d + m
  {
    var q := y / d;
    assert y == q * d + y % d;
    assert y + m * d == (q + m) * d + y % d;
    Divides(y + m * d, q + m, y % d, d);
  }
}
