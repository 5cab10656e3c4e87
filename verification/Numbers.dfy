// Integers as Go has them, and durations in nanoseconds.
module Numbers {
  const MIN_INT64: int := -0x8000_0000_0000_0000
  const MAX_INT64: int := 0x7fff_ffff_ffff_ffff
  const TWO_64: int := 0x1_0000_0000_0000_0000

  predicate IsInt64(x: int) {
    MIN_INT64 <= x <= MAX_INT64
  }

  /** The signed 64-bit integer a Go operation leaves behind for the exact result `x`. */
  function Wrap64(x: int): (r: int)
    ensures IsInt64(r)
    ensures IsInt64(x) ==> r == x
  {
    var m := x % TWO_64;
    if m <= MAX_INT64 then m else m - TWO_64
  }

  /** time.Time.Sub saturates instead of wrapping. */
  function Saturate64(x: int): (r: int)
    ensures IsInt64(r)
    ensures IsInt64(x) ==> r == x
  {
    if x < MIN_INT64 then MIN_INT64 else if x > MAX_INT64 then MAX_INT64 else x
  }

  const SECOND: int := 1_000_000_000
  const MINUTE: int := 60 * SECOND
  const HOUR: int := 60 * MINUTE

  function Min(a: int, b: int): int {
    if a <= b then a else b
  }

  function Max(a: int, b: int): int {
    if a >= b then a else b
  }
}
