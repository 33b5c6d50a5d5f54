/** Failure-carrying datatypes used for Python's `None` and raised exceptions. */
module Wrappers {

  /** A value that may be absent (Python `Optional[T]`). */
  datatype Option<+T> = None | Some(value: T)

  /** Either a value or the error the Python code would raise. */
  datatype Result<+R, +E> = Success(value: R) | Failure(error: E)
}
