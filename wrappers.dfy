/** Option and Result values, and the error kinds the store and the handlers raise. */
module Wrappers {

  datatype Option<+T> = None | Some(value: T) {
    /** The value, or `default` when absent (JavaScript's `x || default` on a missing field). */
    function GetOr(default: T): T {
      match this
      case Some(v) => v
      case None => default
    }
  }

  /** NotFound: a lookup that expected exactly one match found none or several.
      BackendFailure: the store rejected or failed a scan, put or delete.
      TypeError: a property was read from `undefined`. */
  datatype Error = NotFound | BackendFailure | TypeError

  datatype Result<+T> = Success(value: T) | Failure(error: Error)
}
