/** Option and Result: the failure-carrying values used throughout the model. */
module Wrappers {

  datatype Option<+T> = None | Some(value: T)
  {
    /** Rust's `unwrap_or`. */
    function UnwrapOr(default: T): T
    {
      match this
      case Some(v) => v
      case None => default
    }
  }

  datatype Result<+T, +E> = Success(value: T) | Failure(error: E)

  /** The outcome of an operation that returns nothing, or an error. */
  datatype Outcome<+E> = Pass | Fail(error: E)
}
