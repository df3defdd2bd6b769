/** Option and Result, the carriers every operation of the model returns. */
module Wrappers {

  /** A value that may be absent: JavaScript's `undefined`/`null` on the source side. */
  datatype Option<+T> = None | Some(value: T)

  /** The outcome of an operation that may throw: the success value or the thrown error. */
  datatype Result<+T, +E> = Success(value: T) | Failure(error: E)
}
