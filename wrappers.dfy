/** Failure-carrying results: Python's exceptions become explicit values here. */
module Wrappers {

  datatype Option<+T> = None | Some(value: T)

  /** The value of a computation that may raise, with the exception it raised. */
  datatype Result<+T, +E> = Ok(value: T) | Err(error: E)

  /** A step run for its effect on an object: it completes, or raises `error`. */
  datatype Outcome<+E> = Pass | Fail(error: E)
}
