/** Optional values and results, the model's rendering of Kotlin's nullable types and exceptions. */
module Wrappers {

  datatype Option<+T> = None | Some(value: T)
  {
    function GetOr(default: T): T
    {
      match this
      case None => default
      case Some(v) => v
    }
  }

  /** An operation that either completes with a value or throws `error`. */
  datatype Result<+T, +E> = Ok(value: T) | Err(error: E)
  {
    predicate IsFailure()
    {
      Err?
    }

    function PropagateFailure<U>(): Result<U, E>
      requires Err?
    {
      Err(error)
    }

    function Extract(): T
      requires Ok?
    {
      value
    }
  }
}
