module Wrappers {

  datatype Option<+T> = None | Some(value: T)

  /** What a call returns, or the exception it raises. */
  datatype Result<+T, +E> = Ok(value: T) | Raise(error: E)

  function Min(a: int, b: int): int
  {
    if a < b then a else b
  }
}
