/** Failure-compatible result types shared by every model in this project. */
module Prelude {

  datatype Option<+T> = None | Some(value: T)

  /** A value, or the reason an operation threw instead of returning. */
  datatype Result<+T, +E> = Success(value: T) | Failure(error: E) {

    predicate IsFailure() {
      Failure?
    }

    function PropagateFailure<U>(): (r: Result<U, E>)
      requires Failure?
    {
      Failure(error)
    }

    function Extract(): T
      requires Success?
    {
      value
    }
  }
}
