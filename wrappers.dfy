/** Option and Result values shared by every module of the model. */
module Wrappers {

  /** A value that may be absent: an optional property, a `null` return. */
  datatype Option<+T> = None | Some(value: T) {
    function GetOr(default: T): T {
      match this
      case Some(v) => v
      case None => default
    }
  }

  /** The outcome of an operation that may throw: `Err` carries the thrown
      error's `message` (the empty string when the thrown value has none). */
  datatype Result<+T> = Ok(value: T) | Err(message: string)
}
