/**
 * Fixed-width unsigned integers of the source (u16, u32, u64 / size_t) and the
 * wrap-around that C++ conversions and arithmetic on them perform.
 */
module MachineInt {

  const U16_LIMIT: int := 0x1_0000
  const U32_LIMIT: int := 0x1_0000_0000
  const U64_LIMIT: int := 0x1_0000_0000_0000_0000

  /** The largest u64, std::numeric_limits<u64>::max(). */
  const U64_MAX: int := U64_LIMIT - 1

  type u16 = x: int | 0 <= x < U16_LIMIT
  type u32 = x: int | 0 <= x < U32_LIMIT
  type u64 = x: int | 0 <= x < U64_LIMIT

  /** Conversion of any integer to u32 (two's complement truncation). */
  function ToU32(x: int): (r: u32)
    ensures 0 <= x < U32_LIMIT ==> r == x
    ensures x == -1 ==> r == U32_LIMIT - 1
  {
    x % U32_LIMIT
  }

  /** Conversion of a u32 to u16, as `u16(codepoint)` does. */
  function ToU16(x: u32): (r: u16)
    ensures x < U16_LIMIT ==> r == x
  {
    x % U16_LIMIT
  }

  /** Wrap-around of an unsigned 64-bit result. */
  function ToU64(x: int): (r: u64)
    ensures 0 <= x < U64_LIMIT ==> r == x
  {
    x % U64_LIMIT
  }
}
