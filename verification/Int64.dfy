/** The range of signed 64-bit integers. */
module Int64 {
  const TWO_63: int := 0x8000_0000_0000_0000
  const TWO_64: int := 0x1_0000_0000_0000_0000

  predicate IsI64(x: int) {
    -TWO_63 <= x < TWO_63
  }
}
