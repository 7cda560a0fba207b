/** Failure-compatible wrappers used across the model: an optional value, and the
    outcome of an operation that may throw a validation error. */
module Wrappers {

  /** An optional value; stands for `undefined`/`null` in the original. */
  datatype Option<+T> = None | Some(value: T)

  /** Either a value or the message of the error the original throws. */
  datatype Result<+R, +E> = Success(value: R) | Failure(error: E)
}
