/** Failure-carrying return values: PHP's nullable returns and thrown exceptions. */
module Wrappers {

  /** A value that may be absent: PHP's `null` return. */
  datatype Option<+T> = None | Some(value: T) {

    /** The carried value, or `default` when absent (PHP's `??`). */
    function GetOr(default: T): T {
      match this
      case Some(v) => v
      case None => default
    }
  }

  /** A value or the error that stopped the computation (a thrown exception). */
  datatype Result<+T, +E> = Ok(value: T) | Err(error: E)
}
