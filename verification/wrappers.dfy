/** Failure-aware wrappers used in place of Ruby's nil and raised exceptions. */
module Wrappers {

  /** A value or nothing; `None` plays the part of Ruby's nil. */
  datatype Option<+T> = None | Some(value: T)

  /** A value, or the error an operation raised instead of returning one. */
  datatype Result<+T, +E> = Success(value: T) | Failure(error: E)
}
