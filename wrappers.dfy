/** Optional values: the model's rendering of JavaScript's `null` / `undefined` results. */
module Wrappers {
  datatype Option<+T> = None | Some(value: T) {
    function GetOr(default: T): T {
      match this
      case Some(v) => v
      case None => default
    }
  }

  /** A value or the error a JavaScript function would have thrown instead. */
  datatype Result<+T, +E> = Success(value: T) | Failure(error: E)
}
