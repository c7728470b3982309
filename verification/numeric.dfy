/**
 Integer conversions of real values as the C++ library performs them, and the
 success/failure datatype used for the error paths of the model.
 */
module Numeric {

  /** `std::floor` followed by a conversion to an integer type. */
  function Floor(x: real): (r: int)
    ensures r as real <= x < r as real + 1.0
  {
    x.Floor
  }

  /** `std::ceil` followed by a conversion to an integer type. */
  function Ceil(x: real): (r: int)
    ensures x <= r as real < x + 1.0
  {
    -((-x).Floor)
  }

  /** `std::round`: nearest integer, halfway cases rounded away from zero. */
  function Round(x: real): (r: int)
    ensures x >= 0.0 ==> x - 0.5 < r as real <= x + 0.5
    ensures x < 0.0 ==> x - 0.5 <= r as real < x + 0.5
    ensures x >= 0.0 ==> r >= 0
  {
    if x >= 0.0 then (x + 0.5).Floor else -((0.5 - x).Floor)
  }

  /** Rounding a value of `[0, n]` stays in `[0, n]`. */
  lemma RoundWithin(x: real, n: nat)
    requires 0.0 <= x <= n as real
    ensures 0 <= Round(x) <= n
  {
    var r := Round(x);
    assert r as real < n as real + 1.0;
    assert (n + 1) as real == n as real + 1.0;
  }

  /** The floor of a value of `[0, n)` lies in `[0, n)`. */
  lemma FloorWithin(x: real, n: nat)
    requires 0.0 <= x < n as real
    ensures 0 <= Floor(x) < n
  {
    var r := Floor(x);
    assert r as real < n as real;
  }

  /** A C++ conversion of a floating value to an integer type: truncation toward zero. */
  function Trunc(x: real): (r: int)
    ensures x >= 0.0 ==> 0 <= r && r as real <= x < r as real + 1.0
    ensures x < 0.0 ==> r <= 0 && r as real - 1.0 < x <= r as real
  {
    if x >= 0.0 then x.Floor else -((-x).Floor)
  }

  /** Number of values of a 64-bit `size_t`. */
  const SizeModulus: nat := 0x1_0000_0000_0000_0000

  /** `size_t` subtraction `a - b`, which wraps around when `b > a`. */
  function SizeSub(a: nat, b: nat): (r: nat)
    requires a < SizeModulus && b < SizeModulus
    ensures r < SizeModulus
    ensures b <= a ==> r == a - b
    ensures b > a ==> r == SizeModulus - (b - a)
  {
    (a - b) % SizeModulus
  }

  function MinInt(a: int, b: int): (r: int)
    ensures r <= a && r <= b && (r == a || r == b)
  {
    if a <= b then a else b
  }

  function MaxReal(a: real, b: real): (r: real)
    ensures r >= a && r >= b && (r == a || r == b)
  {
    if a >= b then a else b
  }

  function MinReal(a: real, b: real): (r: real)
    ensures r <= a && r <= b && (r == a || r == b)
  {
    if a <= b then a else b
  }

  lemma NonnegativeProduct(a: real, b: real)
    requires a >= 0.0 && b >= 0.0
    ensures a * b >= 0.0
  {
  }

  lemma PositiveProduct(a: real, b: real)
    requires a > 0.0 && b > 0.0
    ensures a * b > 0.0
  {
  }

  /** Multiplying by a positive factor keeps the sign. */
  lemma ProductSign(a: real, b: real)
    requires b > 0.0
    ensures a > 0.0 ==> a * b > 0.0
    ensures a < 0.0 ==> a * b < 0.0
    ensures a == 0.0 <==> a * b == 0.0
  {
    if a > 0.0 {
      PositiveProduct(a, b);
    } else if a < 0.0 {
      PositiveProduct(-a, b);
    }
  }

  /** Scaling a nonnegative value by a factor in [0, 1] keeps it in [0, value]. */
  lemma ScaleAtMost(a: real, b: real)
    requires 0.0 <= a <= 1.0 && b >= 0.0
    ensures 0.0 <= a * b <= b
  {
    NonnegativeProduct(1.0 - a, b);
  }
}

/** Success or failure of an operation whose source aborts, throws or asserts. */
module Results {

  datatype Result<+T, +E> = Success(value: T) | Failure(error: E) {
    predicate IsFailure() {
      Failure?
    }

    function PropagateFailure<U>(): Result<U, E>
      requires Failure?
    {
      Failure(error)
    }

    function Extract(): T
      requires Success?
    {
      value
    }
  }
}
