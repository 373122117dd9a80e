/** The source's 64-bit integers. */
module Integers {
  const I64_MAX: int := 0x7FFF_FFFF_FFFF_FFFF

  type I64 = z: int | -0x8000_0000_0000_0000 <= z <= I64_MAX

  const U64_MAX: nat := 0xFFFF_FFFF_FFFF_FFFF

  type U64 = n: nat | n <= U64_MAX
}
