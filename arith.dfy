/** Facts about Euclidean division that the solver does not find alone. */
module Arith {

  lemma {:induction false} MulAtLeast(a: int, c: int)
    requires a >= 1 && c > 0
    ensures a * c >= c
  {
    assert a * c == (a - 1) * c + c;
    assert (a - 1) * c >= 0;
  }

  /** Quotient and remainder are the only pair that rebuilds `x` with a remainder below `c`. */
  lemma {:induction false} DivUnique(x: int, c: int, q: int, r: int)
    requires c > 0 && x == q * c + r && 0 <= r < c
    ensures q == x / c && r == x % c
  {
    var q', r' := x / c, x % c;
    assert x == q' * c + r';
    assert (q - q') * c == r' - r;
    if q > q' {
      MulAtLeast(q - q', c);
    } else if q < q' {
      MulAtLeast(q' - q, c);
    }
  }

  /** The quotient of a natural number is the largest multiple of the divisor not above it. */
  lemma {:induction false} DivBounds(x: int, c: int)
    requires x >= 0 && c > 0
    ensures 0 <= x / c && (x / c) * c <= x < (x / c) * c + c
  {
    var q, r := x / c, x % c;
    assert x == q * c + r && 0 <= r < c;
  }

  lemma {:induction false} NegMul(q: int, c: int)
    ensures (-q) * c == -(q * c)
  {
  }

  lemma {:induction false} MulDiv(k: int, c: int)
    requires c > 0
    ensures (k * c) / c == k && (k * c) % c == 0
  {
    DivUnique(k * c, c, k, 0);
  }
}
