/** Small failure-carrying datatypes shared by the client and the server model. */
module Wrappers {

  /** A JavaScript value that may be `null`/`undefined` (None) or present (Some). */
  datatype Option<+T> = None | Some(value: T) {
    function GetOr(default: T): T {
      match this
      case Some(v) => v
      case None => default
    }
  }

  /** The settled value of a promise: resolved with a value, or rejected with an error message. */
  datatype Result<+T> = Success(value: T) | Failure(error: string)

  /** The settled value of a promise whose resolved value is ignored by the caller. */
  datatype Outcome = Succeeded | Failed(message: string)
}
