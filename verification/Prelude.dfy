/** Small vocabulary shared by the models. */
module Prelude {
  datatype Option<+T> = None | Some(value: T)

  datatype Result<+T, +E> = Ok(value: T) | Err(error: E)

  function Min(a: int, b: int): int {
    if a <= b then a else b
  }

  function Max(a: int, b: int): int {
    if a >= b then a else b
  }

  /** Largest value of Rust's `i64` and of PostgreSQL's BIGINT. */
  const I64_MAX: int := 0x7fff_ffff_ffff_ffff

  /** `i64::saturating_add` for a non-negative right operand. */
  function SaturatingAdd(a: int, b: nat): int {
    Min(a + b, I64_MAX)
  }
}
