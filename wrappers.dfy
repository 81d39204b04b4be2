/** Absent values and error returns, as the scraper's `null`s and thrown errors. */
module Wrappers {

  /** A value that may be missing: JavaScript's `null` (or `undefined`). */
  datatype Option<+T> = None | Some(value: T)

  /** The outcome of an operation that either returns a value or throws. */
  datatype Result<+T, +E> = Success(value: T) | Failure(error: E)
}
