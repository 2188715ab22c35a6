/** Optional values and success/failure outcomes, used in place of Python's
    `None` and of raised exceptions. */
module Wrappers {

  datatype Option<+T> = None | Some(value: T) {
    function GetOr(default: T): T {
      match this
      case Some(v) => v
      case None => default
    }
  }

  /** The result of a call that either returns a value or raises an error. */
  datatype Result<+T, +E> = Ok(value: T) | Err(error: E)

  /** The result of a call whose only visible effect is a possible error. */
  datatype Outcome<+E> = Pass | Fail(error: E)
}
