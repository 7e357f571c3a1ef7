/** Java's 32-bit `int` and 64-bit `long` values and the wrapping arithmetic on them. */
module JavaInt {

  const INT_MIN: int := -0x8000_0000
  const INT_MAX: int := 0x7fff_ffff
  const LONG_MIN: int := -0x8000_0000_0000_0000
  const LONG_MAX: int := 0x7fff_ffff_ffff_ffff

  /** 2^32: Java `int` arithmetic is exact modulo this. */
  const INT_MODULUS: int := 0x1_0000_0000

  type int32 = x: int | -0x8000_0000 <= x <= 0x7fff_ffff
  type int64 = x: int | -0x8000_0000_0000_0000 <= x <= 0x7fff_ffff_ffff_ffff

  predicate IsInt32(x: int) {
    INT_MIN <= x <= INT_MAX
  }

  /** The unique `int` congruent to `x` modulo 2^32: what `int` arithmetic keeps of an exact result. */
  function Wrap32(x: int): (r: int32)
    ensures (x - r) % INT_MODULUS == 0
    ensures IsInt32(x) ==> r == x
    ensures !IsInt32(x) ==> r != x
  {
    (x - INT_MIN) % INT_MODULUS + INT_MIN
  }

  /** Java's `a - b` on two `int` operands, which wraps on overflow. */
  function Sub32(a: int32, b: int32): (r: int32)
    ensures (a - b - r) % INT_MODULUS == 0
    ensures IsInt32(a - b) <==> r == a - b
  {
    Wrap32(a - b)
  }

  /** Java's narrowing cast `(int) x` of a `long`: it keeps the low 32 bits. */
  function NarrowToInt(x: int64): (r: int32)
    ensures (x - r) % INT_MODULUS == 0
  {
    Wrap32(x)
  }
}
