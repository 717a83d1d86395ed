/** Failure-compatible wrappers shared by the model: Python's `None` and raised errors. */
module Wrappers {

  /** A value or Python's `None`. */
  datatype Option<+T> = None | Some(value: T)

  /** A value, or the error that the Python code raises instead of returning. */
  datatype Result<+T, +E> = Success(value: T) | Failure(error: E)
}
