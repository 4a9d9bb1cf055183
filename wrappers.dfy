/** Failure-carrying values shared by every module: an exception thrown by the
    source becomes a `Failure` (or `Fail`) holding the error's message. */
module Wrappers {

  datatype Option<T> = None | Some(value: T)

  /** The outcome of an operation that yields a value or throws an Error with a message. */
  datatype Result<T> = Success(value: T) | Failure(error: string)

  /** The outcome of an operation that yields nothing or throws an Error with a message. */
  datatype Outcome = Pass | Fail(error: string)
}
