/** Failure-carrying values used in place of the exceptions main.py raises. */
module Wrappers {

  datatype Option<+T> = None | Some(value: T)

  /** A value, or the message of the exception that replaced it. */
  datatype Result<+R, +E> = Success(value: R) | Failure(error: E)

  /** Completion of a side effect that returns nothing, or its failure message. */
  datatype Outcome<+E> = Pass | Fail(error: E)
}
