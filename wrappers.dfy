/** Failure-carrying values shared by the modules of this model. */
module Wrappers {

  /** A value that may be absent: Python's `None` or a present value. */
  datatype Option<+T> = None | Some(value: T) {
    function GetOr(default: T): T {
      match this
      case Some(v) => v
      case None => default
    }
  }

  /** The outcome of an operation that can raise: a value or the text of the exception. */
  datatype Result<+T, +E> = Success(value: T) | Failure(error: E)
}
