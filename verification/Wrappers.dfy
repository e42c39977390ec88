/** The two result shapes shared by every module. */
module Wrappers {

  /** A value that may be absent: Python's `None`, or a field that is not of the required type. */
  datatype Option<+T> = None | Some(value: T)

  /** A return value, or the exception that was raised instead. */
  datatype Result<+T, +E> = Success(value: T) | Failure(error: E)
}
