/** Option, Result and Outcome: the PHP sources signal "not found" with FALSE or NULL and failures
    with exceptions; these datatypes make both explicit. */
module Wrappers {

  /** NULL / FALSE versus a value. */
  datatype Option<+T> = None | Some(value: T)

  /** A value, or the exception the PHP code throws instead. */
  datatype Result<+T, +E> = Success(value: T) | Failure(error: E)

  /** Completion of an operation that returns nothing, or the exception it throws. */
  datatype Outcome<+E> = Pass | Fail(error: E)
}
