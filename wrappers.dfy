/** Option and Result values, and the integer minimum and maximum, used throughout the model. */
module Wrappers {

  datatype Option<+T> = None | Some(value: T)

  /** A computation that either yields a value or fails with the message the source would raise. */
  datatype Result<+T> = Success(value: T) | Failure(message: string)

  function Min(a: int, b: int): int {
    if a <= b then a else b
  }

  function Max(a: int, b: int): int {
    if a >= b then a else b
  }
}
