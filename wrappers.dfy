/** Absent-or-present values (Ruby's nil) and error results (Ruby's raise). */
module Wrappers {

  datatype Option<+T> = None | Some(value: T) {
    function GetOr(default: T): T {
      match this
      case Some(v) => v
      case None => default
    }
  }

  /** The outcome of an operation that may raise: `Err` carries the message of the exception. */
  datatype Result<+T> = Ok(value: T) | Err(message: string)
}
