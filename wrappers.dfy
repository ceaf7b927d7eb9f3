/** Option and Result values standing in for Python's `None` and raised exceptions. */
module Wrappers {

  datatype Option<+T> = None | Some(value: T)

  /** `Ok(value)` is a normal return; `Err(error)` is an exception raised to the caller. */
  datatype Result<+T, +E> = Ok(value: T) | Err(error: E)
}
