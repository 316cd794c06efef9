/** The two roundings to a whole number, and the saturating conversion to 32 bits. */
module Rounding {

  const I32_MIN := -0x8000_0000
  const I32_MAX := 0x7FFF_FFFF

  /** Half away from zero, as Rust's `round`. */
  function HalfAway(x: real): (n: int)
    ensures -0.5 <= (n as real) - x <= 0.5
  {
    if x >= 0.0 then (x + 0.5).Floor else -((-x + 0.5).Floor)
  }

  /** Half to even, as Python's `round`. */
  function HalfEven(x: real): (n: int)
    ensures -0.5 <= (n as real) - x <= 0.5
  {
    var f := x.Floor;
    var d := x - (f as real);
    if d < 0.5 || (d == 0.5 && f % 2 == 0) then f else f + 1
  }

  /** Distance of a number from a whole one. */
  function Off(x: real, n: int): (d: real) {
    if x < n as real then n as real - x else x - n as real
  }

  /** Ties go away from zero. */
  lemma HalfAwayIff(x: real, n: int)
    ensures HalfAway(x) == n <==>
            Off(x, n) < 0.5 || (Off(x, n) == 0.5 && (if x > 0.0 then n as real > x else (n as real) < x))
  {
  }

  /** Ties go to the even neighbour. */
  lemma HalfEvenIff(x: real, n: int)
    ensures HalfEven(x) == n <==> Off(x, n) < 0.5 || (Off(x, n) == 0.5 && n % 2 == 0)
  {
    var f := x.Floor;
    assert f as real <= x < f as real + 1.0;
    if Off(x, n) <= 0.5 { assert n == f || n == f + 1; }
  }

  /** Rounding never crosses a whole number. */
  lemma HalfEvenBounded(x: real, k: int)
    ensures x <= k as real ==> HalfEven(x) <= k
    ensures x >= k as real ==> HalfEven(x) >= k
  {
  }

  lemma HalfEvenMonotone(x: real, y: real)
    requires x <= y
    ensures HalfEven(x) <= HalfEven(y)
  {
    assert x.Floor <= y.Floor;
  }

  lemma HalfEvenNear(x: real, k: int)
    requires -0.5 < x - k as real < 0.5
    ensures HalfEven(x) == k
  {
    assert x.Floor == k || x.Floor == k - 1;
  }

  /** Float to i32 conversion saturates. */
  function ToI32(n: int): (m: int) {
    if n < I32_MIN then I32_MIN else if n > I32_MAX then I32_MAX else n
  }

  type i32 = n: int | I32_MIN <= n <= I32_MAX

  // ---- Grids ----

  function Abs(x: real): (r: real) {
    if x < 0.0 then -x else x
  }

  /** The k-th point of the grid of multiples of an increment. */
  function Grid(k: int, increment: real): (x: real) {
    (k as real) * increment
  }

  lemma GridDifference(n: int, k: int, increment: real)
    ensures Grid(n, increment) - Grid(k, increment) == Grid(n - k, increment)
  {
  }

  lemma GridOrder(a: int, b: int, increment: real)
    requires increment > 0.0
    ensures a <= b ==> Grid(a, increment) <= Grid(b, increment)
    ensures a < b ==> Grid(a, increment) < Grid(b, increment)
  {
    GridDifference(b, a, increment);
    if a < b { assert Grid(b - a, increment) > 0.0; }
  }

  lemma GridTicks(k: int, increment: real)
    requires increment > 0.0
    ensures Grid(k, increment) / increment == k as real
  {
  }

  lemma Quotient(x: real, increment: real) returns (q: real)
    requires increment > 0.0
    ensures q == x / increment && q * increment == x
  {
    q := x / increment;
  }

  lemma ScaleBound(d: real, bound: real, increment: real)
    requires increment > 0.0 && -bound <= d <= bound
    ensures -bound * increment <= d * increment <= bound * increment
  {
  }

  lemma HalfStep(q: real, n: int, increment: real)
    requires increment > 0.0 && -0.5 <= (n as real) - q <= 0.5
    ensures Abs(q * increment - Grid(n, increment)) <= 0.5 * increment
  {
    assert q * increment - Grid(n, increment) == (q - (n as real)) * increment;
    ScaleBound(q - (n as real), 0.5, increment);
  }

  lemma QuotientOrder(x: real, k: int, increment: real)
    requires increment > 0.0
    ensures x <= Grid(k, increment) ==> x / increment <= k as real
    ensures x >= Grid(k, increment) ==> x / increment >= k as real
  {
    var q := Quotient(x, increment);
    assert q * increment - Grid(k, increment) == (q - (k as real)) * increment;
    if q > k as real { assert (q - (k as real)) * increment > 0.0; }
    if q < k as real { assert (q - (k as real)) * increment < 0.0; }
  }
}
