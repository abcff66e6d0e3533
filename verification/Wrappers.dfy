/** Result types shared by every module. */
module Wrappers {
  datatype Option<+T> = None | Some(value: T)
  {
    function GetOr(other: T): T {
      if None? then other else value
    }
  }

  datatype Result<+T, +E> = Success(value: T) | Failure(error: E)
}
