/** Option and Result, the two failure-carrying types the model uses. */
module Wrappers {

  /** `None` stands for JavaScript's `null` wherever a routine may return no value. */
  datatype Option<+T> = None | Some(value: T) {
    function GetOr(default: T): T {
      match this
      case Some(v) => v
      case None => default
    }
  }

  /** `Err` carries what a routine reports instead of a value. */
  datatype Result<+T, +E> = Ok(value: T) | Err(error: E)
}
