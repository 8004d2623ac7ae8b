/** Go's fixed-width unsigned integer types, as ranges of unbounded integers. */
module Ints {
  type byte = x: int | 0 <= x < 0x100
  type uint16 = x: int | 0 <= x < 0x1_0000
  type uint32 = x: int | 0 <= x < 0x1_0000_0000
}
