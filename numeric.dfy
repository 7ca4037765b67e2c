/**
 * Go's fixed-width integer semantics, written out on unbounded integers:
 * int64 wrap-around, the saturation of time.Time.Sub, float-to-int
 * conversion and integer division, both of which truncate toward zero.
 */
module Numeric {

  const Int64Min: int := -0x8000_0000_0000_0000
  const Int64Max: int := 0x7FFF_FFFF_FFFF_FFFF
  const TwoTo64: int := 0x1_0000_0000_0000_0000

  predicate InInt64(x: int) {
    Int64Min <= x <= Int64Max
  }

  /** The int64 that Go's two's-complement arithmetic leaves for the mathematical value x. */
  function Wrap64(x: int): (r: int)
    ensures InInt64(r)
    ensures (x - r) % TwoTo64 == 0
    ensures InInt64(x) ==> r == x
  {
    var m := (x - Int64Min) % TwoTo64;
    assert x - Int64Min == ((x - Int64Min) / TwoTo64) * TwoTo64 + m;
    m + Int64Min
  }

  /** Saturation to the int64 range, as time.Time.Sub does when the difference does not fit. */
  function Clamp64(x: int): (r: int)
    ensures InInt64(r)
    ensures InInt64(x) ==> r == x
    ensures x > Int64Max ==> r == Int64Max
    ensures x < Int64Min ==> r == Int64Min
  {
    if x < Int64Min then Int64Min else if x > Int64Max then Int64Max else x
  }

  /** Go's conversion of a float to an integer: the fraction is discarded, toward zero. */
  function Trunc(x: real): (r: int)
    ensures 0.0 <= x ==> 0 <= r && r as real <= x < r as real + 1.0
    ensures x < 0.0 ==> r <= 0 && r as real - 1.0 < x <= r as real
  {
    if x >= 0.0 then x.Floor else -((-x).Floor)
  }

  /** Go's integer `/` for a positive divisor: the quotient is truncated toward zero. */
  function Quot(a: int, b: int): (q: int)
    requires b > 0
    ensures 0 <= a ==> 0 <= q && q * b <= a < q * b + b
    ensures a < 0 ==> q <= 0 && q * b - b < a <= q * b
  {
    if a >= 0 then a / b else -((-a) / b)
  }
}
