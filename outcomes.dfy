/** Optional values and results, used for JavaScript's `undefined` and for thrown errors. */
module Outcomes {

  /** `None` stands for an absent property (`undefined`) or an unmatched regex. */
  datatype Option<+T> = None | Some(value: T) {
    function GetOr(default: T): T {
      match this
      case Some(v) => v
      case None => default
    }
  }

  /** `Err` stands for an exception thrown by the modelled JavaScript code. */
  datatype Result<+T, +E> = Ok(value: T) | Err(error: E)
}
