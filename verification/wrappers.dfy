/** Option and Result, the two failure-aware wrappers the model uses in place of
    Kotlin's nullable types and thrown exceptions. */
module Wrappers {

  /** A Kotlin nullable value: `None` is `null`. */
  datatype Option<+T> = None | Some(value: T) {

    /** The Elvis operator `this ?: default`. */
    function GetOr(default: T): T {
      match this
      case Some(v) => v
      case None => default
    }
  }

  /** The outcome of an operation that may throw: `Failure` carries the message. */
  datatype Result<+R, +E> = Success(value: R) | Failure(error: E)
}
