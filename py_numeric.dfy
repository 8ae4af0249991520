/**
 * The two pieces of Python's numeric built-ins that the tiling arithmetic
 * relies on, over exact rationals (`real`):
 *  - `round(x)` with one argument, which rounds half-way cases to the even
 *    neighbour ("banker's rounding");
 *  - the number of values `range(n)` produces, which is 0 for a negative n.
 * `math.floor` is Dafny's `.Floor` on `real` and needs no model of its own.
 */
module PyNumeric {

  /** The distance between two reals. */
  function Dist(x: real, y: real): real {
    if x < y then y - x else x - y
  }

  /**
   * Python's `round(x)`: the integer nearest to `x`; when `x` lies exactly
   * half-way between two integers, the even one.
   */
  function RoundHalfEven(x: real): (r: int)
    ensures Dist(x, r as real) <= 0.5
    ensures Dist(x, r as real) == 0.5 ==> r % 2 == 0
  {
    var f := x.Floor;
    var frac := x - f as real;
    if frac < 0.5 then f
    else if frac > 0.5 then f + 1
    else if f % 2 == 0 then f
    else f + 1
  }

  /** No integer is nearer to `x` than `RoundHalfEven(x)`. */
  lemma RoundIsNearest(x: real, k: int)
    ensures Dist(x, RoundHalfEven(x) as real) <= Dist(x, k as real)
  {
    var r := RoundHalfEven(x);
    if k < r {
      // k is at least one whole step below r, and r is at most a half below x
      assert k as real <= r as real - 1.0;
      assert Dist(x, k as real) >= 0.5;
    } else if k > r {
      assert k as real >= r as real + 1.0;
      assert Dist(x, k as real) >= 0.5;
    }
  }

  /**
   * `RoundHalfEven` is the only integer with its two defining properties:
   * within one half of `x`, and even on a tie.
   */
  lemma RoundUnique(x: real, k: int)
    requires Dist(x, k as real) <= 0.5
    requires Dist(x, k as real) == 0.5 ==> k % 2 == 0
    ensures k == RoundHalfEven(x)
  {
  }

  /** Rounding an integer gives it back. */
  lemma RoundOfInt(k: int)
    ensures RoundHalfEven(k as real) == k
  {
  }

  /** Rounding is monotone. */
  lemma RoundMonotone(x: real, y: real)
    requires x <= y
    ensures RoundHalfEven(x) <= RoundHalfEven(y)
  {
  }

  /** A real between two integers rounds to between them. */
  lemma RoundWithin(x: real, lo: int, hi: int)
    requires lo as real <= x <= hi as real
    ensures lo <= RoundHalfEven(x) <= hi
  {
    RoundMonotone(lo as real, x);
    RoundMonotone(x, hi as real);
    RoundOfInt(lo);
    RoundOfInt(hi);
  }

  /** A real at least an integer k has a floor at least k. */
  lemma FloorAtLeast(q: real, k: int)
    requires q >= k as real
    ensures q.Floor >= k
  {
    assert q.Floor as real > q - 1.0;
  }

  /** How many values `range(n)` produces: n, or 0 when n is negative. */
  function RangeLength(n: int): nat
  {
    if n < 0 then 0 else n
  }
}
