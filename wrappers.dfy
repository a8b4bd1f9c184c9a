/** Failure-compatible return types standing in for Java's nullable values and exceptions. */
module Wrappers {

  /** A value that may be absent: Java's `null`, or an empty `Optional`. */
  datatype Option<+T> = None | Some(value: T)

  /** The value of a call that either returns normally or throws. */
  datatype Result<+R, +E> = Success(value: R) | Failure(error: E)

  /** The outcome of a `void` check that either passes or throws. */
  datatype Outcome<+E> = Pass | Fail(error: E)
}
