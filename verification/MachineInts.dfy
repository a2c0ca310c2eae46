/** Fixed-width integer conversions of the target machine, written out over `int`. */
module MachineInts {
  type byte = b: int | 0 <= b < 256

  type bytes = seq<byte>

  /** uint32(x) */
  function ToUint32(x: int): int {
    if 0 <= x < 0x1_0000_0000 then x else x % 0x1_0000_0000
  }

  /** int32(x) */
  function ToInt32(x: int): int {
    if -0x8000_0000 <= x < 0x8000_0000 then x
    else (x + 0x8000_0000) % 0x1_0000_0000 - 0x8000_0000
  }

  /** uint64(x) */
  function ToUint64(x: int): int {
    if 0 <= x < 0x1_0000_0000_0000_0000 then x else x % 0x1_0000_0000_0000_0000
  }

  /** int64(x): also the result of int64 addition and of a uint64 to int conversion. */
  function ToInt64(x: int): int {
    if -0x8000_0000_0000_0000 <= x < 0x8000_0000_0000_0000 then x
    else (x + 0x8000_0000_0000_0000) % 0x1_0000_0000_0000_0000 - 0x8000_0000_0000_0000
  }

  /** Integer division rounding toward zero, for a positive divisor. */
  function TruncDiv(a: int, b: int): int
    requires b > 0
  {
    if a >= 0 then a / b else -((-a) / b)
  }
}
