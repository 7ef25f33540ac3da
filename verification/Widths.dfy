/** The unsigned integer types of the C code, by width. */
module Widths {

  const U16 := 0x1_0000
  const U32 := 0x1_0000_0000
  const U64 := 0x1_0000_0000_0000_0000

  type uchar = x: int | 0 <= x < 0x100
  type uint16 = x: int | 0 <= x < U16
  type uint32 = x: int | 0 <= x < U32
  type uint64 = x: int | 0 <= x < U64
}
