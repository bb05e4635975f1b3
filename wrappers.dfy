/** Option and Result values used across the model in place of Python's
    `None` returns and raised exceptions. */
module Wrappers {

  datatype Option<+T> = None | Some(value: T) {
    function GetOr(default: T): T {
      match this
      case Some(v) => v
      case None => default
    }
  }

  /** A computation that either produced a value or raised an exception whose
      `str(e)` is `error`. */
  datatype Result<+R> = Success(value: R) | Failure(error: string)
}
