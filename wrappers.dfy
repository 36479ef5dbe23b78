/** Option and Result, the stock failure-carrying datatypes used across the model. */
module Wrappers {

  /** A value that may be absent: Python's `None` versus a present value. */
  datatype Option<+T> = None | Some(value: T) {
    function GetOr(default: T): T {
      match this
      case Some(v) => v
      case None => default
    }
  }

  /** The outcome of an operation that can be refused with an error value. */
  datatype Result<+R, +E> = Ok(value: R) | Err(error: E)
}
