/** Option and Result, used for PHP's nullable returns and thrown exceptions. */
module Wrappers {

  datatype Option<+T> = None | Some(value: T) {
    function GetOr(default: T): T {
      match this
      case Some(v) => v
      case None => default
    }
  }

  /** A PHP call either returns a value or throws an exception carrying a message. */
  datatype Result<+T> = Ok(value: T) | Err(message: string)
}
