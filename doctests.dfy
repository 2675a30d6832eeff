/** The two documented arithmetic functions of `class/doctests_exercise`. */
module Doctests {
  import opened Int32

  /** `div(a, b)`: panics on a zero divisor, otherwise Rust's truncating
      `a / b` on `i32` (which also panics on the one overflowing quotient,
      `i32::MIN / -1`). The result is the quotient whose remainder is
      smaller than the divisor and carries the dividend's sign. */
  function Div(a: int, b: int): (r: int)
    requires IsI32(a) && IsI32(b)
    requires b != 0
    requires !(a == MIN && b == -1)
    ensures IsI32(r)
    ensures Abs(a - r * b) < Abs(b)
    ensures a - r * b == 0 || (a - r * b > 0 <==> a > 0)
  {
    DivFacts(a, b);
    RDiv(a, b)
  }

  lemma DivFacts(a: int, b: int)
    requires IsI32(a) && IsI32(b)
    requires b != 0
    requires !(a == MIN && b == -1)
    ensures IsI32(RDiv(a, b))
    ensures Abs(a - RDiv(a, b) * b) < Abs(b)
    ensures a - RDiv(a, b) * b == 0 || (a - RDiv(a, b) * b > 0 <==> a > 0)
  {
    DivMod(a, b);
    QuotientBound(a, b);
  }

  /** `sub(a, b)`: plain `i32` subtraction, defined only where it does not overflow. */
  function Sub(a: int, b: int): (r: int)
    requires IsI32(a) && IsI32(b) && IsI32(a - b)
    ensures IsI32(r)
    ensures r + b == a
  {
    a - b
  }

  /** The documented examples: `div(10, 2) == 5`, `div(6, 3) == 2`,
      `sub(9, 2) == 7` and `sub(6, 9) == -3`; also `div` on a negative
      dividend rounds toward zero (`-7 / 2 == -3`, not `-4`). */
  lemma Examples()
    ensures Div(10, 2) == 5 && Div(6, 3) == 2
    ensures Sub(9, 2) == 7 && Sub(6, 9) == -3
    ensures Div(-7, 2) == -3 && Div(7, -2) == -3
  {
  }
}
