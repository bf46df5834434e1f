/**
 * Fixed-width integer ranges of the C++ engine, as subset types of `int`,
 * and the two width conversions whose wrap-around the engine relies on.
 */
module Ints {

  const Two31: int := 0x8000_0000
  const Two32: int := 0x1_0000_0000

  type u16 = x: int | 0 <= x < 0x1_0000
  type u32 = x: int | 0 <= x < 0x1_0000_0000
  type u64 = x: int | 0 <= x < 0x1_0000_0000_0000_0000
  type i32 = x: int | -0x8000_0000 <= x < 0x8000_0000
  type i64 = x: int | -0x8000_0000_0000_0000 <= x < 0x8000_0000_0000_0000

  /** `static_cast<std::int32_t>` of an unsigned 32-bit value: the two's-complement
      reinterpretation, i.e. the unique `i32` congruent to `x` modulo 2^32. */
  function Int32OfU32(x: u32): (r: i32)
    ensures (r - x) % Two32 == 0
    ensures x < Two31 <==> r == x
    ensures r < 0 <==> x >= Two31
  {
    if x < Two31 then x else x - Two32
  }

  /** Unsigned 32-bit addition, which wraps modulo 2^32. */
  function AddU32(a: u32, b: int): (r: u32)
    ensures (r - a - b) % Two32 == 0
    ensures 0 <= b && a + b < Two32 ==> r == a + b
  {
    (a + b) % Two32
  }
}
