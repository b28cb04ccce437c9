/** Option and Result, the two failure-carrying datatypes the rest of the model uses. */
module Wrappers {

  /** An optional value: `None` stands for a JavaScript `undefined`/`null` field. */
  datatype Option<+T> = None | Some(value: T) {
    function GetOr(default: T): T {
      match this
      case Some(v) => v
      case None => default
    }
  }

  /** The outcome of an operation that either succeeds or fails with an error value. */
  datatype Result<+R, +E> = Ok(value: R) | Err(error: E)
}
