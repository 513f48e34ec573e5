/** Optional values (Go's nil-able pointers) and error-or-value results (Go's
    `(value, error)` returns, where only the error's message matters). */
module Wrappers {

  datatype Option<+T> = None | Some(value: T) {
    function GetOr(default: T): T {
      match this
      case Some(v) => v
      case None => default
    }
  }

  datatype Result<+T> = Ok(value: T) | Err(message: string)
}
