/** Failure-carrying result types shared by every module of the model.
    A Python exception that the source lets escape is modelled as a `Failure`
    carrying a message; a value the source may leave out is an `Option`. */
module Wrappers {

  datatype Option<T> = None | Some(value: T) {

    /** Returns the carried value, or `default` when there is none
        (Python's `x or default` on an optional value). */
    function GetOr(default: T): T {
      match this
      case Some(v) => v
      case None => default
    }
  }

  datatype Result<T> = Success(value: T) | Failure(error: string) {

    predicate IsFailure() {
      Failure?
    }

    function PropagateFailure<U>(): Result<U>
      requires Failure?
    {
      Failure(error)
    }

    function Extract(): T
      requires Success?
    {
      value
    }
  }
}
