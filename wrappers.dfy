/** Optional values and results with an error, used across the model. */
module Wrappers {

  datatype Option<+T> = None | Some(value: T)
  {
    function GetOr(default: T): T {
      match this
      case None => default
      case Some(v) => v
    }
  }

  datatype Result<+T, +E> = Success(value: T) | Failure(error: E)
  {
    predicate IsFailure() {
      Failure?
    }

    function PropagateFailure<U>(): Result<U, E>
      requires Failure?
    {
      Failure(error)
    }

    function Extract(): T
      requires Success?
    {
      value
    }
  }
}
