/**
 Go's `int64`: the type of Unix-nanosecond timestamps and of the hours flag,
 with the two's-complement wrap-around that Go's arithmetic on it performs.
 */
module Int64 {

  const TWO_63: int := 0x8000_0000_0000_0000
  const TWO_64: int := 0x1_0000_0000_0000_0000

  newtype int64 = x: int | -0x8000_0000_0000_0000 <= x < 0x8000_0000_0000_0000

  predicate InRange(x: int)
  {
    -TWO_63 <= x < TWO_63
  }

  /** The int64 that Go produces for the mathematical result `x`: the unique
      representative of `x` modulo 2^64 within the int64 range. */
  function Wrap(x: int): (r: int64)
    ensures InRange(x) ==> r as int == x
    ensures (x - r as int) % TWO_64 == 0
  {
    var q := (x + TWO_63) / TWO_64;
    assert x - ((x + TWO_63) % TWO_64 - TWO_63) == TWO_64 * q;
    ((x + TWO_63) % TWO_64 - TWO_63) as int64
  }
}
