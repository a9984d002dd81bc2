/** Optional values and success-or-failure results, used for the absent
    values (`None`) and raised exceptions of the modelled program. */
module Wrappers {

  datatype Option<+T> = None | Some(value: T) {
    function GetOr(default: T): T {
      match this
      case Some(v) => v
      case None => default
    }
  }

  /** An operation that either returns a value or raises an error whose
      message is `error`. */
  datatype Result<+T> = Ok(value: T) | Err(error: string)
}
