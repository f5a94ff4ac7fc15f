/** Fixed-width machine integers of the Rust source, as bounded subsets of `int`,
    and the two conversions the descriptor builder relies on: reading an `i16`
    as its two's-complement bit pattern, and the truncating `usize as u32` cast. */
module FixedWidth {

  const U8_LIMIT: int := 0x100
  const U16_LIMIT: int := 0x1_0000
  const U32_LIMIT: int := 0x1_0000_0000
  const I16_MIN: int := -0x8000
  const I16_MAX: int := 0x7FFF

  type u8 = x: int | 0 <= x < U8_LIMIT
  type u16 = x: int | 0 <= x < U16_LIMIT
  type i16 = x: int | I16_MIN <= x <= I16_MAX
  type u32 = x: int | 0 <= x < U32_LIMIT

  /** `NonZeroU32`: a `u32` the type system guarantees is not zero. */
  type NonZeroU32 = x: u32 | x != 0 witness 1

  /** The 16-bit pattern of `x` in two's complement (Rust's `x as u16`). */
  function ToTwosComplement(x: i16): (u: u16)
    ensures x >= 0 ==> u == x
    ensures x < 0 ==> u >= 0x8000 && u - U16_LIMIT == x
  {
    if x < 0 then x + U16_LIMIT else x
  }

  /** The signed value of a 16-bit pattern (Rust's `u as i16`). */
  function FromTwosComplement(u: u16): (x: i16)
    ensures ToTwosComplement(x) == u
  {
    if u <= I16_MAX then u else u - U16_LIMIT
  }

  /** The two conversions are inverse bijections between `i16` and `u16`. */
  lemma TwosComplementRoundTrip(x: i16)
    ensures FromTwosComplement(ToTwosComplement(x)) == x
  {
  }

  /** Rust's `n as u32` for a `usize`: keeps the low 32 bits. */
  function UsizeAsU32(n: nat): (r: u32)
    ensures n < U32_LIMIT ==> r == n
    ensures (n - r) % U32_LIMIT == 0
  {
    n % U32_LIMIT
  }
}
