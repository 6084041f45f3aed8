/** Optional values (TypeScript's `T | undefined` / `T | null`) and results
    with an error value (a thrown exception or an error response). */
module Wrappers {

  datatype Option<+T> = None | Some(value: T) {
    function GetOr(default: T): T {
      match this
      case Some(v) => v
      case None => default
    }
  }

  datatype Result<+T, +E> = Ok(value: T) | Err(error: E)
}
