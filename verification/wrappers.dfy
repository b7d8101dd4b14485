/** Failure-compatible wrappers used throughout the queue model. */
module Wrappers {

  /** A value that may be absent: PHP's `null` column or `false` lookup. */
  datatype Option<+T> = None | Some(value: T)

  /** The outcome of an operation that may throw `Mage_Core_Exception`. */
  datatype Result<+R, +E> = Success(value: R) | Failure(error: E)
}
