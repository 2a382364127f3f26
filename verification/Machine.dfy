/** Machine integers and bytes, by the ranges the program's types give them. */
module Machine {
  const U32_MAX := 0xFFFF_FFFF
  const U64_MAX := 0xFFFF_FFFF_FFFF_FFFF
  const U128_MAX := 0xFFFF_FFFF_FFFF_FFFF_FFFF_FFFF_FFFF_FFFF

  /** `usize` on the 64-bit hosts the program runs on. */
  const USIZE_MAX := U64_MAX

  /** A sum or product that stays at the greatest machine word instead of leaving it. */
  function Saturated(n: nat): nat {
    if n <= USIZE_MAX then n else USIZE_MAX
  }

  /** A difference that stays at zero instead of going below it. */
  function Without(a: nat, b: nat): nat {
    if a >= b then a - b else 0
  }

  type Byte = x: int | 0 <= x < 256
  type U16 = x: int | 0 <= x < 0x1_0000
  type U32 = x: int | 0 <= x <= U32_MAX
  type U64 = x: int | 0 <= x <= U64_MAX
  type I64 = x: int | -0x8000_0000_0000_0000 <= x < 0x8000_0000_0000_0000
  type Usize = x: int | 0 <= x <= USIZE_MAX

  type Bytes = seq<Byte>

  /** A SHA-256 digest; the hash itself is foreign and enters as a function parameter. */
  type Digest = d: Bytes | |d| == 32 witness seq(32, _ => 0)
}
