/** Failure-carrying wrappers used across the model. */
module Wrappers {

  /** A value that may be absent: Python's `Optional[T]` (`None` or a value). */
  datatype Option<+T> = None | Some(value: T) {

    /** The carried value, or `default` when absent. */
    function GetOr(default: T): T {
      match this
      case Some(v) => v
      case None => default
    }
  }

  /** The outcome of an operation that may raise: a value, or the error it reports. */
  datatype Result<+R, +E> = Ok(value: R) | Err(error: E)
}
