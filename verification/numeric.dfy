/**
 * The numeric conventions of the JavaScript runtime that the pixel algorithms
 * rely on, stated over exact reals:
 * - `Math.round`, which rounds halves toward +infinity;
 * - `Math.max(0, Math.min(255, x))`, the explicit clamp several filters apply;
 * - the store into a `Uint8ClampedArray`, which follows ToUint8Clamp
 *   (section 7.1.12 of ECMA-262): clamp to [0, 255], then round half to even.
 */
module Numeric {

  function Min(a: int, b: int): int { if a <= b then a else b }

  function Max(a: int, b: int): int { if a >= b then a else b }

  /** `Math.round(x)`: the unique integer in (x - 1/2, x + 1/2]. */
  function RoundHalfUp(x: real): (r: int)
    ensures x - 0.5 < r as real <= x + 0.5
  {
    (x + 0.5).Floor
  }

  /** Rounding a value that lies between two integers stays between them. */
  lemma RoundHalfUpWithin(x: real, lo: int, hi: int)
    requires lo as real <= x <= hi as real
    ensures lo <= RoundHalfUp(x) <= hi
  {
  }

  /** `Math.max(0, Math.min(255, x))`. */
  function Clamp(x: real): (r: real)
    ensures 0.0 <= r <= 255.0
    ensures 0.0 <= x <= 255.0 ==> r == x
  {
    if x < 0.0 then 0.0 else if x > 255.0 then 255.0 else x
  }

  /**
   * ToUint8Clamp: the value a `Uint8ClampedArray` holds after `x` is stored
   * into it. Out-of-range values saturate; in-range values go to the nearest
   * integer, and an exact half goes to the even neighbour.
   */
  function ClampStore(x: real): (r: int)
    ensures 0 <= r <= 255
    ensures x <= 0.0 ==> r == 0
    ensures x >= 255.0 ==> r == 255
    ensures 0.0 < x < 255.0 ==> x - 0.5 <= r as real <= x + 0.5
    ensures 0.0 < x < 255.0 && (r as real == x - 0.5 || r as real == x + 0.5) ==> r % 2 == 0
  {
    if x <= 0.0 then 0
    else if x >= 255.0 then 255
    else
      var f := x.Floor;
      if f as real + 0.5 < x then f + 1
      else if x < f as real + 0.5 then f
      else if f % 2 == 1 then f + 1
      else f
  }

  /** Storing a byte value stores it exactly. */
  lemma ClampStoreByte(n: int)
    requires 0 <= n <= 255
    ensures ClampStore(n as real) == n
  {
  }

  /** The explicit clamp before a store changes nothing the store would not. */
  lemma ClampStoreOfClamp(x: real)
    ensures ClampStore(Clamp(x)) == ClampStore(x)
  {
  }

  /** ToUint8Clamp is monotone. */
  lemma ClampStoreMonotone(x: real, y: real)
    requires x <= y
    ensures ClampStore(x) <= ClampStore(y)
  {
    if 0.0 < x && y < 255.0 {
      var fx, fy := x.Floor, y.Floor;
      if fx < fy {
        assert ClampStore(x) <= fx + 1 <= fy <= ClampStore(y);
      }
    }
  }

  /** Storing `Math.max(0, Math.min(255, x))` into a byte buffer. */
  function StoreClamped(x: real): (r: int)
    ensures 0 <= r <= 255
  {
    ClampStore(Clamp(x))
  }

  /** Storing a byte value through the clamp stores it exactly. */
  lemma StoreClampedByte(n: int)
    requires 0 <= n <= 255
    ensures StoreClamped(n as real) == n
  {
    ClampStoreByte(n);
  }

  /** A larger value never stores a smaller byte. */
  lemma StoreClampedMonotone(x: real, y: real)
    requires x <= y
    ensures StoreClamped(x) <= StoreClamped(y)
  {
    ClampStoreOfClamp(x);
    ClampStoreOfClamp(y);
    ClampStoreMonotone(x, y);
  }

  /**
   * What the models assume of `Math.sqrt`: non-negative on non-negative
   * arguments, and 0 at 0.
   */
  ghost predicate RootLike(sqrt: real -> real)
  {
    (forall t | t >= 0.0 :: sqrt(t) >= 0.0) && sqrt(0.0) == 0.0
  }

  /** A quotient of a sum bounded by `n * lo` and `n * hi` lies in [lo, hi]. */
  lemma MeanWithin(s: int, n: int, lo: int, hi: int)
    requires n > 0 && n * lo <= s <= n * hi
    ensures lo as real <= s as real / n as real <= hi as real
  {
    var m := s as real / n as real;
    assert m * n as real == s as real;
  }
}
