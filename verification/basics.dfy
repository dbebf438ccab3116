/** Failure-carrying wrappers shared by every module of the model. */
module Basics {

  /** A value that may be absent: JavaScript's `null`/`undefined` or a missing DOM element. */
  datatype Option<+T> = None | Some(value: T)

  /** The outcome of an operation that the source ends by throwing. */
  datatype Result<+T, +E> = Success(value: T) | Failure(error: E)
}
