/** Ruby's nil and raised exceptions, as values. */
module Wrappers {

  /** A Ruby value that may be nil. */
  datatype Option<+T> = None | Some(value: T) {

    /** The value, or `default` when nil. */
    function GetOr(default: T): T {
      match this
      case Some(v) => v
      case None => default
    }
  }

  /** Either a value or the exception that was raised instead of computing it. */
  datatype Result<+R, +E> = Success(value: R) | Failure(error: E)
}
