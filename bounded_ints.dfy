/** The fixed-width integer types of the Rust sources, as ranges of `int`. */
module BoundedInts {

  const TWO_TO_THE_16: int := 0x1_0000
  const TWO_TO_THE_32: int := 0x1_0000_0000
  const TWO_TO_THE_48: int := 0x1_0000_0000_0000
  const TWO_TO_THE_63: int := 0x8000_0000_0000_0000
  const TWO_TO_THE_64: int := 0x1_0000_0000_0000_0000

  type u16 = x: int | 0 <= x < 0x1_0000
  type u32 = x: int | 0 <= x < 0x1_0000_0000
  type u64 = x: int | 0 <= x < 0x1_0000_0000_0000_0000
  type i32 = x: int | -0x8000_0000 <= x < 0x8000_0000
  type i64 = x: int | -0x8000_0000_0000_0000 <= x < 0x8000_0000_0000_0000

  /** Rust `x as i64` for a `u64`: two's-complement reinterpretation. */
  function U64AsI64(x: u64): (r: i64)
    ensures x < TWO_TO_THE_63 ==> r == x
    ensures x >= TWO_TO_THE_63 ==> r < 0 && r + TWO_TO_THE_64 == x
  {
    if x < TWO_TO_THE_63 then x else x - TWO_TO_THE_64
  }
}
