/**
 * Rounding to a multiple on 32-bit integers. C++ integer division truncates toward zero, unlike
 * Dafny's Euclidean `/`, so truncation is defined here and used throughout; every intermediate
 * value must stay inside the int32 range, since signed overflow is undefined in C++.
 */
module ActionMath {

  const MinInt32: int := -0x8000_0000
  const MaxInt32: int := 0x7FFF_FFFF

  predicate IsInt32(x: int)
  {
    MinInt32 <= x <= MaxInt32
  }

  function Abs(x: int): nat
  {
    if x < 0 then -x else x
  }

  /** C++ `a / b` on integers: the quotient truncated toward zero. */
  function TDiv(a: int, b: int): int
    requires b != 0
  {
    if a >= 0 && b > 0 then a / b
    else if a >= 0 then -(a / -b)
    else if b > 0 then -(-a / b)
    else -a / -b
  }

  /** The truncated quotient leaves a remainder of the dividend's sign, smaller than the divisor. */
  lemma TDivRemainder(a: int, b: int)
    requires b != 0
    ensures Abs(a - TDiv(a, b) * b) < Abs(b)
    ensures a >= 0 ==> 0 <= a - TDiv(a, b) * b
    ensures a <= 0 ==> a - TDiv(a, b) * b <= 0
  {
    if a >= 0 && b > 0 {
      assert a - TDiv(a, b) * b == a % b;
    } else if a >= 0 {
      RemainderNegDivisor(a, b);
    } else if b > 0 {
      RemainderNegDividend(a, b);
    } else {
      RemainderBothNeg(a, b);
    }
  }

  lemma RemainderNegDivisor(a: int, b: int)
    requires a >= 0 && b < 0
    ensures a - TDiv(a, b) * b == a % -b
  {
    var q := a / -b;
    assert a == q * (-b) + a % -b;
    NegMul(q, b);
  }

  lemma RemainderNegDividend(a: int, b: int)
    requires a < 0 && b > 0
    ensures a - TDiv(a, b) * b == -(-a % b)
  {
    var q := -a / b;
    assert -a == q * b + -a % b;
    NegMul(q, b);
  }

  lemma RemainderBothNeg(a: int, b: int)
    requires a < 0 && b < 0
    ensures a - TDiv(a, b) * b == -(-a % -b)
  {
    var q := -a / -b;
    assert -a == q * (-b) + -a % -b;
    NegMul(q, b);
  }

  lemma NegMul(q: int, y: int)
    ensures (-q) * y == q * (-y) == -(q * y)
  {
  }

  lemma MulMonotone(j: int, k: int, m: int)
    requires j <= k && m > 0
    ensures j * m <= k * m
  {
    assert k * m - j * m == (k - j) * m;
  }

  /** Euclidean division is determined by any quotient and remainder that fit. */
  lemma DivUnique(a: int, m: int, q: int, r: int)
    requires m > 0 && 0 <= r < m && a == q * m + r
    ensures a / m == q
  {
    var q0, r0 := a / m, a % m;
    assert a == q0 * m + r0 && 0 <= r0 < m;
    assert (q0 + 1) * m == q0 * m + m && (q + 1) * m == q * m + m;
    if q0 < q {
      MulMonotone(q0 + 1, q, m);
    } else if q < q0 {
      MulMonotone(q + 1, q0, m);
    }
  }

  /** `x` is a whole number of `m`. */
  ghost predicate Multiple(x: int, m: int)
  {
    exists k :: x == k * m
  }

  /** Quotients of int32 values: overflow only for the minimum divided by -1. */
  predicate DivFits(a: int, m: int)
  {
    m != 0 && !(a == MinInt32 && m == -1)
  }

  /**
   * RoundToLowerMultiple: `(A / Multiple) * Multiple`; with `skipSelf`, a non-zero `A` that is
   * already a multiple is rounded from `A - 1` instead.
   */
  function RoundToLowerMultiple(a: int, m: int, skipSelf: bool): (r: int)
    requires IsInt32(a) && IsInt32(m) && DivFits(a, m)
    requires skipSelf && TDiv(a, m) * m == a && a != 0 ==> IsInt32(a - 1) && DivFits(a - 1, m)
    ensures Multiple(r, m)
  {
    var result := TDiv(a, m) * m;
    if skipSelf && result == a && result != 0 then TDiv(a - 1, m) * m else result
  }

  /**
   * RoundToUpperMultiple: unless `A` is already a multiple and `skipSelf` is off, the next
   * multiple from `(A + Multiple) / Multiple`. The multiple test is the engine's float Fmod, which
   * returns 0 for a zero divisor; it is exact for the magnitudes this model admits.
   */
  function RoundToUpperMultiple(a: int, m: int, skipSelf: bool): (r: int)
    requires IsInt32(a) && IsInt32(m) && Abs(a) < 0x100_0000 && Abs(m) < 0x100_0000
    requires skipSelf || FmodNonZero(a, m) ==> DivFits(a + m, m)
    ensures m != 0 ==> Multiple(r, m)
  {
    if skipSelf || FmodNonZero(a, m) then TDiv(a + m, m) * m else a
  }

  /** `Fmod(A, Multiple) != 0` for operands exactly representable as floats. */
  predicate FmodNonZero(a: int, m: int)
  {
    m != 0 && a - TDiv(a, m) * m != 0
  }

  /** RoundToNearestMultiple: `((A + Multiple / 2) / Multiple) * Multiple` with truncating division. */
  function RoundToNearestMultiple(a: int, m: int): (r: int)
    requires IsInt32(a) && IsInt32(m) && m != 0 && IsInt32(a + TDiv(m, 2)) && DivFits(a + TDiv(m, 2), m)
    ensures Multiple(r, m)
  {
    TDiv(a + TDiv(m, 2), m) * m
  }

  // ---------------------------------------------------------------------------------------------
  // Properties for positive multiples

  /** For a non-negative `A` the lower multiple is at most `A` and less than a multiple away. */
  lemma LowerBelow(a: int, m: int)
    requires 0 <= a <= MaxInt32 && 0 < m <= MaxInt32
    ensures RoundToLowerMultiple(a, m, false) <= a < RoundToLowerMultiple(a, m, false) + m
  {
    TDivRemainder(a, m);
  }

  /** A negative `A` is rounded toward zero: to the multiple at or above it. */
  lemma LowerTowardZero(a: int, m: int)
    requires MinInt32 <= a < 0 && 0 < m <= MaxInt32
    ensures RoundToLowerMultiple(a, m, false) - m < a <= RoundToLowerMultiple(a, m, false)
  {
    TDivRemainder(a, m);
  }

  /** With `skipSelf`, a positive multiple of `m` steps down to the previous multiple. */
  lemma LowerSkipSelf(a: int, m: int, k: int)
    requires 0 < a <= MaxInt32 && 0 < m <= MaxInt32 && a == k * m
    ensures RoundToLowerMultiple(a, m, true) == a - m
  {
    if k <= 0 {
      MulMonotone(k, 0, m);
    }
    DivUnique(a, m, k, 0);
    assert (k - 1) * m == k * m - m;
    DivUnique(a - 1, m, k - 1, m - 1);
  }

  /** With `skipSelf`, zero stays zero. */
  lemma LowerSkipSelfZero(m: int)
    requires 0 < m <= MaxInt32
    ensures RoundToLowerMultiple(0, m, true) == 0
  {
  }

  /** Without `skipSelf`, a non-negative multiple of `m` is returned as it is. */
  lemma UpperKeepsMultiple(a: int, m: int, k: int)
    requires 0 <= a < 0x100_0000 && 0 < m < 0x100_0000 && a == k * m
    ensures RoundToUpperMultiple(a, m, false) == a
  {
    DivUnique(a, m, k, 0);
    assert TDiv(a, m) * m == a;
  }

  /** Otherwise the result is the least multiple of `m` strictly above `A`. */
  lemma UpperAbove(a: int, m: int, skipSelf: bool)
    requires 0 <= a < 0x100_0000 && 0 < m < 0x100_0000
    requires skipSelf || FmodNonZero(a, m)
    ensures Multiple(RoundToUpperMultiple(a, m, skipSelf), m)
    ensures a < RoundToUpperMultiple(a, m, skipSelf) <= a + m
    ensures forall k :: a < k * m ==> RoundToUpperMultiple(a, m, skipSelf) <= k * m
  {
    var q := (a + m) / m;
    var r := q * m;
    assert RoundToUpperMultiple(a, m, skipSelf) == r;
    assert a + m == r + (a + m) % m;
    assert (q - 1) * m == r - m;
    forall k | a < k * m
      ensures r <= k * m
    {
      if k < q {
        MulMonotone(k, q - 1, m);
      }
    }
  }

  /** The nearest multiple: at most `A + m/2` and less than a multiple below it, so halves round up. */
  lemma NearestBounds(a: int, m: int)
    requires 0 <= a && 0 < m <= MaxInt32 && a + m / 2 <= MaxInt32
    ensures RoundToNearestMultiple(a, m) <= a + m / 2 < RoundToNearestMultiple(a, m) + m
  {
    assert TDiv(m, 2) == m / 2;
    TDivRemainder(a + m / 2, m);
  }
}
