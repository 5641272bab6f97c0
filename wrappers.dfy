/** Option and Result, the two wrappers every module returns. */
module Wrappers {

  datatype Option<T> = None | Some(value: T)
  {
    function UnwrapOr(default: T): T
    {
      match this
      case Some(v) => v
      case None => default
    }
  }

  /** A Rust `Result<T, String>` / a Python call that may raise. */
  datatype Result<T> = Success(value: T) | Failure(error: string)
  {
    predicate IsFailure()
    {
      Failure?
    }

    function PropagateFailure<U>(): Result<U>
      requires Failure?
    {
      Failure(error)
    }

    function Extract(): T
      requires Success?
    {
      value
    }
  }

  /** The unit value returned by operations that only succeed or fail. */
  datatype Unit = Unit
}
