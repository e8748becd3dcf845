/** The optional value and the value-or-error used by every part of the model. */
module Wrappers {
  /** A value that may be missing: Python's `None` on one side. */
  datatype Option<T> = None | Some(value: T)

  /** A computed value, or the error that makes the Python code raise instead. */
  datatype Result<T, E> = Success(value: T) | Failure(error: E)
}
