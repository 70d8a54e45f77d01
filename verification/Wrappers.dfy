/** Result types shared by all modules. */
module Wrappers {

  datatype Option<+T> = None | Some(value: T)

  /** A value or a thrown error. */
  datatype Result<+T, +E> = Ok(value: T) | Err(error: E)

  function Min(a: int, b: int): int { if a <= b then a else b }

  function Max(a: int, b: int): int { if a <= b then b else a }
}
