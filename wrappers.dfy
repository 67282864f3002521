/**
 * The optional value used wherever the Python code returns `None` for
 * "absent", and the outcome of an operation that may raise.
 */
module Wrappers {

  datatype Option<+T> = None | Some(value: T) {

    /** Returns the value or a default when absent. */
    function GetOr(default: T): T {
      match this
      case Some(v) => v
      case None => default
    }
  }

  /** A value, or the name of the exception Python raises instead. */
  datatype Result<+T> = Success(value: T) | Failure(error: string)
}
