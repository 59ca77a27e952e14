/** Seconds in 64 bits: arithmetic that wraps, as the machine's does, and the saturating forms built on it. */
module Clock {
  const MIN64: int := -0x8000_0000_0000_0000
  const MAX64: int := 0x7FFF_FFFF_FFFF_FFFF
  const TWO64: int := 0x1_0000_0000_0000_0000

  type Int64 = x: int | MIN64 <= x <= MAX64

  /** The 64-bit value of an integer, in two's complement. */
  function Wrap(x: int): (r: Int64)
    ensures (r - x) % TWO64 == 0
    ensures MIN64 <= x <= MAX64 ==> r == x
  {
    (x - MIN64) % TWO64 + MIN64
  }

  /** The 64-bit value nearest to an integer. */
  function Clamp(x: int): Int64 {
    if x < MIN64 then MIN64 else if x > MAX64 then MAX64 else x
  }

  /** a - b: the wrapped difference tells by its side of a whether it wrapped. */
  function SaturatingSub(a: Int64, b: Int64): (r: Int64)
    ensures r == Clamp(a - b)
  {
    var d := Wrap(a - b);
    if (b < 0 && d < a) || (b > 0 && d > a) then
      if b < 0 then MAX64 else MIN64
    else d
  }

  /** a + b, told the same way. */
  function SaturatingAdd(a: Int64, b: Int64): (r: Int64)
    ensures r == Clamp(a + b)
  {
    var s := Wrap(a + b);
    if b > 0 && s < a then MAX64
    else if b < 0 && s > a then MIN64
    else s
  }

  /** An instant is a count of nanoseconds since 1970 whose Unix second, the floor, fits in 64 bits. */
  const SECOND: int := 1_000_000_000

  type Instant = x: int | MIN64 * SECOND <= x < (MAX64 + 1) * SECOND

  function Unix(instant: Instant): (s: Int64)
    ensures s * SECOND <= instant < (s + 1) * SECOND
  {
    instant / SECOND
  }
}
