/** Signed 64-bit integers with the saturating operations the clocks use. */
module Int64 {

  const MIN: int := -0x8000_0000_0000_0000
  const MAX: int := 0x7FFF_FFFF_FFFF_FFFF

  type int64 = x: int | MIN <= x <= MAX

  function Clip(x: int): int64 {
    if x < MIN then MIN else if x > MAX then MAX else x
  }

  /** The two's complement value of a result that does not fit. */
  function Wrapped(x: int): int64 {
    (x - MIN) % 0x1_0000_0000_0000_0000 + MIN
  }

  function SaturatingAdd(a: int64, b: int64): int64 {
    Clip(a + b)
  }

  function SaturatingSub(a: int64, b: int64): int64 {
    Clip(a - b)
  }

  function Min(a: int64, b: int64): int64 {
    if a <= b then a else b
  }

  function Max(a: int64, b: int64): int64 {
    if a >= b then a else b
  }
}
