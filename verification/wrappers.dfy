/** Failure-carrying values shared by every module of the model. */
module Wrappers {

  /** `None` stands for JavaScript's `undefined` or for a NaN produced by a numeric conversion. */
  datatype Option<+T> = None | Some(value: T) {

    function GetOr(default: T): T {
      match this
      case Some(v) => v
      case None => default
    }
  }

  /** The outcome of an operation that can throw: `Err` carries the kind of the thrown error. */
  datatype Result<+T, +E> = Ok(value: T) | Err(error: E)
}
