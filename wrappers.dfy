/** Failure-carrying values: Java's `null` and thrown exceptions become data. */
module Wrappers {

  /** A Java reference that may be `null` (`None`). */
  datatype Option<+T> = None | Some(value: T)

  /** A call that either returns a value or throws the error carried by `Failure`. */
  datatype Result<+T, +E> = Success(value: T) | Failure(error: E)
}
