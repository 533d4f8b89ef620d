/** Failure-carrying datatypes shared by every module of the model. */
module Wrappers {

  /** Python's `None` versus a present value. */
  datatype Option<+T> = None | Some(value: T) {
    function GetOr(default: T): T {
      match this
      case Some(v) => v
      case None => default
    }
  }

  /** The end of a Python call: it returns a value, or it raises an exception
      whose kind (`TypeError`, `ZeroDivisionError`, ...) is kept as a string. */
  datatype Outcome<+T> = Returned(value: T) | Raised(error: string)
}
