/** The machine integers whose width matters somewhere. */
module Integers {
  const U32_RANGE := 0x1_0000_0000
  const U64_RANGE := 0x1_0000_0000_0000_0000

  type u8 = x: int | 0 <= x < 256

  type u32 = x: int | 0 <= x < U32_RANGE

  type u64 = x: int | 0 <= x < U64_RANGE
}
