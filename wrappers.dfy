/** Failure-compatible result types shared by the other modules. */
module Wrappers {

  /** A value that may be absent; a nullable reference of the source is `None` when null. */
  datatype Option<+T> = None | Some(value: T)

  /** The outcome of an operation that returns nothing: it completes or it raises `error`. */
  datatype Outcome<+E> = Pass | Fail(error: E)

  /** The outcome of an operation that returns a value or raises `error`. */
  datatype Result<+R, +E> = Success(value: R) | Failure(error: E)
}
