/** Option and Result, the two failure-carrying shapes the model needs. */
module Wrappers {

  /** A value that may be absent: JavaScript's `undefined` / `null` fields. */
  datatype Option<+T> = None | Some(value: T) {
    /** The value if present, otherwise `default`: JavaScript's `x ?? default`. */
    function GetOr(default: T): T {
      match this
      case Some(v) => v
      case None => default
    }
  }

  /** Either a value or the error a rejected promise would carry. */
  datatype Result<+R, +E> = Success(value: R) | Failure(error: E)
}
