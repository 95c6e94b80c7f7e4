/** Option and Result, the two wrappers the rest of the model uses for Kotlin's
    nullable values and for operations that throw. */
module Wrappers {

  datatype Option<+T> = None | Some(value: T) {
    /** Kotlin's `?: default`. */
    function GetOr(default: T): T {
      match this
      case Some(v) => v
      case None => default
    }
  }

  /** The outcome of a Kotlin function that either returns a value or throws `E`. */
  datatype Result<+R, +E> = Success(value: R) | Failure(error: E)
}
