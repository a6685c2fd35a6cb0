/** The machine's integers, saturation at their top, and the page size. */
module Machine {
  const U64_MAX: nat := 0xFFFF_FFFF_FFFF_FFFF
  const PAGE: nat := 0x1000

  type U16 = x: nat | x < 0x1_0000
  type U32 = x: nat | x < 0x1_0000_0000
  type U64 = x: nat | x <= U64_MAX
  type I32 = x: int | -0x8000_0000 <= x < 0x8000_0000
  type I64 = x: int | -0x8000_0000_0000_0000 <= x < 0x8000_0000_0000_0000

  function Saturate(x: nat): U64 { if x <= U64_MAX then x else U64_MAX }

  // The address of the page that holds x.
  function PageOf(x: nat): nat { x - x % PAGE }
}
