/** The fixed-width C integer types the plugin stores values in, and the
    conversions C performs when a wider value is assigned to a narrower one. */
module CTypes {
  newtype int32 = x: int | -0x8000_0000 <= x < 0x8000_0000
  newtype int64 = x: int | -0x8000_0000_0000_0000 <= x < 0x8000_0000_0000_0000
  newtype u8 = x: int | 0 <= x < 0x100
  newtype u16 = x: int | 0 <= x < 0x1_0000
  newtype u32 = x: int | 0 <= x < 0x1_0000_0000
  newtype u64 = x: int | 0 <= x < 0x1_0000_0000_0000_0000

  /** Conversion to `int`: GCC keeps the low 32 bits and reads them as two's complement. */
  function ToInt32(x: int64): (r: int32)
    ensures -0x8000_0000 <= x as int < 0x8000_0000 ==> r as int == x as int
    ensures (x as int - r as int) % 0x1_0000_0000 == 0
  {
    var m := x as int % 0x1_0000_0000;
    if m < 0x8000_0000 then m as int32 else (m - 0x1_0000_0000) as int32
  }

  /** Conversion to an unsigned type of `bits` bits: the value modulo 2^bits. */
  function ToU8(x: int): (r: u8)
    ensures 0 <= x < 0x100 ==> r as int == x
    ensures (x - r as int) % 0x100 == 0
  {
    (x % 0x100) as u8
  }

  function ToU16(x: int): (r: u16)
    ensures 0 <= x < 0x1_0000 ==> r as int == x
    ensures (x - r as int) % 0x1_0000 == 0
  {
    (x % 0x1_0000) as u16
  }

  function ToU32(x: int): (r: u32)
    ensures 0 <= x < 0x1_0000_0000 ==> r as int == x
    ensures (x - r as int) % 0x1_0000_0000 == 0
  {
    (x % 0x1_0000_0000) as u32
  }

  function ToU64(x: int): (r: u64)
    ensures 0 <= x < 0x1_0000_0000_0000_0000 ==> r as int == x
    ensures (x - r as int) % 0x1_0000_0000_0000_0000 == 0
  {
    (x % 0x1_0000_0000_0000_0000) as u64
  }
}
