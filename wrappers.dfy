/** Optional values and results with an error, shared by every module of the model. */
module Wrappers {

  /** A value that may be missing: JavaScript's `null`/`undefined`, Python's `None`. */
  datatype Option<+T> = None | Some(value: T) {

    /** The value, or `default` when there is none (JavaScript's `??`). */
    function GetOr(default: T): T {
      match this
      case Some(v) => v
      case None => default
    }
  }

  /** The outcome of an operation that may raise: a value, or the error it raised. */
  datatype Result<+T, +E> = Success(value: T) | Failure(error: E)
}
