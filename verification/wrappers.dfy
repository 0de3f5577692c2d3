/** Failure-carrying result types used throughout the model. */
module Wrappers {

  /** A value that may be absent: Python's `False`-or-socket return, an unparsable port. */
  datatype Option<+T> = None | Some(value: T)

  /** A computation that either yields a value or stops with an error. */
  datatype Result<+R, +E> = Success(value: R) | Failure(error: E)
}
