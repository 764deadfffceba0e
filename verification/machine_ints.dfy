/** The 64-bit integers of Go, as ranges and wrap-around on mathematical integers. */
module MachineInts {

  const TWO63 := 0x8000_0000_0000_0000
  const TWO64 := 0x1_0000_0000_0000_0000

  predicate Uint64(x: int) { 0 <= x < TWO64 }

  predicate Int64(n: int) { -TWO63 <= n < TWO63 }

  /** The conversion of a uint64 to int64. */
  function AsInt64(x: int): int
  {
    if x < TWO63 then x else x - TWO64
  }

  /** What signed 64-bit arithmetic leaves of a result. */
  function Wrap64(x: int): (r: int)
    ensures Int64(r)
  {
    (x + TWO63) % TWO64 - TWO63
  }
}
