/** Failure-carrying values shared by the other modules. */
module Outcomes {

  /** A value that may be absent: a parse that did not succeed, a speaker with no audio target. */
  datatype Option<+T> = None | Some(value: T)

  /** The value of an operation that either succeeds or raises an exception. */
  datatype Result<+R, +E> = Success(value: R) | Failure(error: E)
}
