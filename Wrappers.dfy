/** Option, Result and Outcome: how the model writes Python's `None` and its raised exceptions. */
module Wrappers {

  datatype Option<+T> = None | Some(value: T)

  /** A value, or the exception that computing it raised. */
  datatype Result<+T, +E> = Success(value: T) | Failure(error: E)

  /** Completion of a procedure that returns nothing, or the exception it raised. */
  datatype Outcome<+E> = Pass | Fail(error: E)
}
