/** Small failure-carrying datatypes shared by the whole model. */
module Wrappers {

  /** A value that may be absent: Python's None, JavaScript's null/undefined. */
  datatype Option<+T> = None | Some(value: T) {
    function GetOr(default: T): T {
      match this
      case Some(v) => v
      case None => default
    }
  }

  /** What a remote call (an awaited fetch) delivered: the server's value, or a rejection with its message. */
  datatype Outcome<+T> = Success(value: T) | Failure(message: string)
}
