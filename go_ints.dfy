/** Go's fixed-width integer ranges, as subset types of `int`. */
module GoInts {

  type uint8 = x: int | 0 <= x < 0x100
  type uint16 = x: int | 0 <= x < 0x1_0000
  type uint32 = x: int | 0 <= x < 0x1_0000_0000

  const MAX_UINT32: nat := 0xFFFF_FFFF
  const MAX_UINT64: nat := 0xFFFF_FFFF_FFFF_FFFF

  /** Go's `int` is taken to be 64 bits wide. */
  const MAX_INT64: int := 0x7FFF_FFFF_FFFF_FFFF
  const MIN_INT64: int := -0x8000_0000_0000_0000

  predicate InInt64(n: int) { MIN_INT64 <= n <= MAX_INT64 }

  /** The conversion `uint8(x)` of a non-negative value: keep the low 8 bits. */
  function Uint8(x: nat): (b: uint8)
    ensures x < 0x100 ==> b == x
  {
    x % 0x100
  }
}
