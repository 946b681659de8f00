/** The optional and failure-carrying values the rest of the model is written with. */
module Wrappers {

  /** PHP's `null` or a value. */
  datatype Option<+T> = None | Some(value: T) {

    /** The value, or `default` when there is none (PHP's `??`). */
    function GetOr(default: T): T
    {
      match this
      case Some(v) => v
      case None => default
    }
  }

  /** A result, or the exception a PHP method would throw instead. */
  datatype Result<+R, +E> = Success(value: R) | Failure(error: E)
}
