/** Result types shared by the modules. */
module Wrappers {
  datatype Option<+T> = None | Some(value: T)

  datatype Result<+T, +E> = Ok(value: T) | Err(error: E)

  function Max(a: int, b: int): int { if a < b then b else a }

  /** `usize::saturating_sub`. */
  function SatSub(a: nat, b: nat): nat { if a < b then 0 else a - b }

  function Min(a: int, b: int): int { if a < b then a else b }
}
