/** Failure-compatible result types shared by every module. */
module Wrappers {

  /** A value that may be absent, in place of Python's `None`. */
  datatype Option<+T> = None | Some(value: T)

  /** A returned value, or the error code the source raises. */
  datatype Result<+T> = Success(value: T) | Failure(code: string)
}
