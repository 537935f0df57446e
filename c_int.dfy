/**
 * Integer operations with the meaning C gives them.  C's `/` and `%`
 * truncate toward zero, whereas Dafny's are Euclidean: the two agree on
 * non-negative operands only.
 */
module CInt {

  function Abs(x: int): (r: int)
    ensures r >= 0 && (r == x || r == -x)
  {
    if x < 0 then -x else x
  }

  function AbsReal(x: real): (r: real)
    ensures r >= 0.0 && (r == x || r == -x)
  {
    if x < 0.0 then -x else x
  }

  /**
   * C's `x / d` for a positive divisor: the quotient rounded toward zero.
   * This is where C and Dafny part ways: `-1 / 2` is 0 in C and -1 in
   * Dafny, and `-1 % 2` is -1 in C and 1 in Dafny.
   */
  function CDiv(x: int, d: int): (q: int)
    requires d > 0
    ensures Abs(q) == Abs(x) / d
    ensures x >= 0 ==> q >= 0
    ensures x < 0 ==> q <= 0
  {
    if x >= 0 then x / d else -((-x) / d)
  }

  /** C's `x % d` for a positive divisor: the remainder takes the sign of `x`. */
  function CMod(x: int, d: int): (r: int)
    requires d > 0
    ensures x == d * CDiv(x, d) + r
    ensures x >= 0 ==> 0 <= r < d
    ensures x < 0 ==> -d < r <= 0
  {
    x - d * CDiv(x, d)
  }

  /** For a non-negative numerator C's division is Dafny's. */
  lemma CDivNonNegative(x: int, d: int)
    requires x >= 0 && d > 0
    ensures CDiv(x, d) == x / d && CMod(x, d) == x % d
  {
  }

}
