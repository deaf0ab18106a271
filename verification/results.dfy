/** Failure-compatible wrappers used across the model. */
module Results {

  datatype Option<+T> = None | Some(value: T)

  /** Either a computed value or the error that aborts the run. */
  datatype Result<+T, +E> = Success(value: T) | Failure(error: E) {

    predicate IsFailure() {
      Failure?
    }

    function PropagateFailure<U>(): Result<U, E>
      requires Failure?
    {
      Failure(error)
    }

    function Extract(): T
      requires Success?
    {
      value
    }
  }
}
