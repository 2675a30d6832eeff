/** The 32-bit signed integers of the Rust sources and Rust's integer
    division, which truncates toward zero (Dafny's `/` and `%` are Euclidean). */
module Int32 {

  const MIN: int := -0x8000_0000
  const MAX: int := 0x7FFF_FFFF

  predicate IsI32(x: int) {
    MIN <= x <= MAX
  }

  function Abs(x: int): nat {
    if x < 0 then -x else x
  }

  /** Rust's `a / b`: the quotient rounded toward zero. */
  function RDiv(a: int, b: int): int
    requires b != 0
  {
    var q := Abs(a) / Abs(b);
    if (a < 0) == (b < 0) then q else -q
  }

  /** Rust's `a % b`: the remainder that goes with `RDiv`, carrying the sign of `a`. */
  function RMod(a: int, b: int): int
    requires b != 0
  {
    a - b * RDiv(a, b)
  }

  /** The truncating division identity: quotient and remainder rebuild the
      dividend, the remainder is smaller than the divisor and has the
      dividend's sign. */
  lemma DivMod(a: int, b: int)
    requires b != 0
    ensures RDiv(a, b) * b + RMod(a, b) == a
    ensures Abs(RMod(a, b)) < Abs(b)
    ensures a >= 0 ==> RMod(a, b) >= 0
    ensures a < 0 ==> RMod(a, b) <= 0
  {
    var q := Abs(a) / Abs(b);
    var r := Abs(a) % Abs(b);
    assert q * Abs(b) + r == Abs(a) && 0 <= r < Abs(b);
    QuotientTimesDivisor(a, b);
    assert RMod(a, b) == a - RDiv(a, b) * b by {
      assert b * RDiv(a, b) == RDiv(a, b) * b;
    }
  }

  /** The truncated quotient times the divisor is the largest multiple of
      the divisor that is no further from 0 than the dividend. */
  lemma QuotientTimesDivisor(a: int, b: int)
    requires b != 0
    ensures a >= 0 ==> RDiv(a, b) * b == (Abs(a) / Abs(b)) * Abs(b)
    ensures a < 0 ==> RDiv(a, b) * b == -((Abs(a) / Abs(b)) * Abs(b))
  {
    var d := RDiv(a, b);
    if b > 0 {
      assert d * b == d * Abs(b);
    } else {
      assert d * b == (-d) * Abs(b);
    }
  }

  /** The truncated quotient is never larger in magnitude than the dividend,
      and at most half of it when the divisor is not 1 or -1. */
  lemma QuotientBound(a: int, b: int)
    requires b != 0
    ensures Abs(RDiv(a, b)) <= Abs(a)
    ensures Abs(b) >= 2 ==> 2 * Abs(RDiv(a, b)) <= Abs(a)
  {
    var q := Abs(a) / Abs(b);
    assert q * Abs(b) <= Abs(a);
    if Abs(b) >= 2 {
      assert q * Abs(b) >= q * 2;
    }
  }

  /** Any quotient/remainder pair that satisfies the truncating division
      identity is the one `RDiv`/`RMod` compute. */
  lemma DivModUnique(a: int, b: int, q: int, r: int)
    requires b > 0
    requires q * b + r == a
    requires -b < r < b
    requires a >= 0 ==> r >= 0
    requires a < 0 ==> r <= 0
    ensures RDiv(a, b) == q && RMod(a, b) == r
  {
    DivMod(a, b);
    var q', r' := RDiv(a, b), RMod(a, b);
    assert (q - q') * b == r' - r;
    assert -b < r' - r < b;
    SmallMultiple(q - q', b);
  }

  lemma SmallMultiple(x: int, b: int)
    requires b > 0 && -b < x * b < b
    ensures x == 0
  {
  }
}
