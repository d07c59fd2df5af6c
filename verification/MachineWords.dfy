// The integer widths the program computes with.
module MachineWords {
  const TWO_16: int := 0x1_0000
  const TWO_32: int := 0x1_0000_0000

  // std::uint16_t, the content of one Modbus register
  type Word = x: int | 0 <= x < TWO_16

  // std::uint32_t
  type UInt32 = x: int | 0 <= x < TWO_32

  // The result of unsigned 32-bit arithmetic
  function Wrap32(x: int): UInt32 {
    x % TWO_32
  }

  // static_cast<std::uint16_t>
  function ToWord(x: int): Word {
    x % TWO_16
  }

  function Max(a: int, b: int): int {
    if a < b then b else a
  }
}
