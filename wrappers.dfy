/** Optional values and error-or-value results, shared by every module of the model.
    `Option` stands for JavaScript's `undefined`/`null` versus a present value. */
module Wrappers {

  datatype Option<+T> = None | Some(value: T) {
    function GetOr(default: T): T {
      match this
      case Some(v) => v
      case None => default
    }
  }

  /** A thrown error or an error response (`Err`) versus a normal result (`Ok`). */
  datatype Result<+T, +E> = Ok(value: T) | Err(error: E)
}
