/** Failure-carrying results for the Python exceptions the modelled code raises. */
module Wrappers {

  /** The Python exception a failing call raises, with its message. */
  datatype Failure =
    | AssertionError(msg: string)
    | ValueError(msg: string)
    | KeyError(msg: string)
    | IndexError(msg: string)
    | AttributeError(msg: string)
    | ZeroDivisionError(msg: string)
    | FuzzyWarning(msg: string)
    | TypeError(msg: string)

  /** A value, or the exception raised instead of returning one. */
  datatype Result<T> = Ok(value: T) | Err(error: Failure)

  /** Python's `None` next to a value. */
  datatype Option<T> = None | Some(value: T) {
    function GetOr(default: T): T {
      match this
      case Some(v) => v
      case None => default
    }
  }
}
