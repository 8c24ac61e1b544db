/** Optional values and results with an error, used where the source returns a null pointer
    or throws. */
module Wrappers {

  /** A nullable reference or a missing map entry. */
  datatype Option<+T> = None | Some(value: T)

  /** The outcome of an operation that may throw. */
  datatype Result<+T, +E> = Ok(value: T) | Err(error: E)
}
