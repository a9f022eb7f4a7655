/** Option and Result, shared by the rest of the model. */
module Wrappers {

  /** A value that may be missing: an absent parameter, or a callback that threw. */
  datatype Option<+T> = None | Some(value: T) {

    /** The wrapped value, or `default` when there is none. */
    function GetOr(default: T): T {
      match this
      case Some(v) => v
      case None => default
    }
  }

  /** The outcome of an operation that can raise an exception. */
  datatype Result<+R, +E> = Success(value: R) | Failure(error: E)
}
