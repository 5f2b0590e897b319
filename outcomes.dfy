/** Optional values and results with an error, as the pipeline's functions return them. */
module Outcomes {

  /** A value that may be absent (JavaScript's `undefined`/`null`). */
  datatype Option<+T> = None | Some(value: T) {
    function GetOr(default: T): T {
      match this
      case Some(v) => v
      case None => default
    }
  }

  /** Either a value or an error message. */
  datatype Result<+T, +E> = Ok(value: T) | Err(error: E)
}
