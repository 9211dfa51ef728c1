/** Fixed-width unsigned integers of the modelled program, with its saturating operations. */
module Machine {
  const U32_MAX: nat := 0xFFFF_FFFF
  const U64_MAX: nat := 0xFFFF_FFFF_FFFF_FFFF
  const USIZE_MAX: nat := U64_MAX

  newtype byte = b: int | 0 <= b < 256

  type u32 = n: nat | n <= U32_MAX
  type u64 = n: nat | n <= U64_MAX
  type usize = n: nat | n <= USIZE_MAX

  function Min(a: int, b: int): int {
    if a <= b then a else b
  }

  function Max(a: int, b: int): int {
    if a <= b then b else a
  }

  function SatAdd(a: usize, b: usize): usize {
    Min(a + b, USIZE_MAX)
  }

  function SatSub(a: nat, b: nat): nat {
    if a <= b then 0 else a - b
  }
}
