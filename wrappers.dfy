/** The failure-carrying datatypes the rest of the model uses in place of
    Python's `None` results and raised exceptions. */
module Wrappers {

  datatype Option<+T> = None | Some(value: T)

  datatype Result<+T, +E> = Success(value: T) | Failure(error: E)

  /** A success-or-error outcome that carries no value (a setter that either
      assigns or raises). */
  datatype Outcome<+E> = Pass | Fail(error: E)
}
