/** Failure-compatible wrappers shared by the model: Python's Optional[...] and
    "return a value or raise" results. */
module Wrappers {

  /** `Optional[T]`: `None` or a present value. */
  datatype Option<+T> = None | Some(value: T) {
    /** The value if present, `default` otherwise (Python's `x if x is not None else default`). */
    function GetOr(default: T): T {
      match this
      case Some(v) => v
      case None => default
    }
  }

  /** A call that either returns a value or raises the error. */
  datatype Result<+R, +E> = Success(value: R) | Failure(error: E)
}
