/** Fixed-width integers, colours and return codes shared by every component. */
module Types {

  type byte = x: int | 0 <= x < 0x100
  type u16 = x: int | 0 <= x < 0x1_0000
  type u32 = x: int | 0 <= x < 0x1_0000_0000
  type u64 = x: int | 0 <= x < 0x1_0000_0000_0000_0000

  const U16_MAX: int := 0xffff
  const U32_MAX: int := 0xffff_ffff
  const U64_MAX: int := 0xffff_ffff_ffff_ffff

  const NS_PER_MS: int := 1_000_000
  const NS_PER_SEC: int := 1_000_000_000

  /** A clock reading in nanoseconds; clocks stay well below the 64-bit limit. */
  type Time = x: int | 0 <= x < 0x4000_0000_0000_0000

  const LED_COUNT: int := 10
  const DISK_COUNT: int := 8
  const LED_POWER: byte := 0
  const LED_NETWORK: byte := 1
  const LED_DISK_FIRST: byte := 2

  datatype Rgb = Rgb(r: byte, g: byte, b: byte)

  datatype Option<+T> = None | Some(value: T)

  /** What a C function returns: 0, -EINVAL, a bus errno, or -EREMOTEIO. */
  datatype Status = Ok | Invalid | IoError | Refused

  /** `UINT64_MAX - a < b ? UINT64_MAX : a + b` */
  function SaturatingAdd(a: u64, b: u64): (r: u64)
    ensures r == if a + b <= U64_MAX then a + b else U64_MAX
  {
    if U64_MAX - a < b then U64_MAX else a + b
  }
}
