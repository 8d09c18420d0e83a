/** Option, Result and Outcome: the error paths of the viewer's functions,
    which report failure through a `bool` plus a `std::string&` out-parameter
    or an empty `std::optional`. */
module Wrappers {

  datatype Option<+T> = None | Some(value: T)

  datatype Result<+T, +E> = Ok(value: T) | Err(error: E)

  /** The result of a C++ function that returns `bool` and sets `errorOut` on failure. */
  datatype Outcome<+E> = Pass | Fail(error: E)

  function Min(a: int, b: int): int { if a <= b then a else b }

  function Max(a: int, b: int): int { if a >= b then a else b }
}
