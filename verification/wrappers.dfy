/** Optional values (the source's `undefined` / `null`) and HTTP-style outcomes. */
module Wrappers {

  datatype Option<+T> = None | Some(value: T) {
    function GetOr(default: T): T {
      match this
      case Some(v) => v
      case None => default
    }
  }

  /** The response an Express handler sends: a success status with its
      payload, or an error status with the message of the JSON body. */
  datatype HttpResult<+T> =
    | Success(status: int, value: T)
    | Failure(status: int, message: string)
  {
    predicate IsFailure() { Failure? }
  }
}
