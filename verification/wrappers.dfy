/** Failure-carrying values used in place of the source's exceptions and `null`s. */
module Wrappers {

  /** `None` stands for JavaScript's `undefined` (or an absent key/row). */
  datatype Option<+T> = None | Some(value: T)

  /** The outcome of an operation that may throw: `Failure` carries what was thrown. */
  datatype Result<+R, +E> = Success(value: R) | Failure(error: E)
}
