/** Results that may be missing or may have failed. */
module Wrappers {
  datatype Option<+T> = None | Some(value: T)

  /** The outcome of a step that either completes or fails with an error. */
  datatype Outcome<+E> = Pass | Fail(error: E)

  /** A value, or the error that prevented computing it. */
  datatype Result<+T, +E> = Success(value: T) | Failure(error: E)
}
