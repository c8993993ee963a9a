/** Failure-compatible wrappers shared by the other modules. */
module Common {

  /** A value that may be missing; `None` stands for Python's `None`. */
  datatype Option<+T> = None | Some(value: T)

  /** The outcome of a step that may raise: `Failure` carries what was raised. */
  datatype Result<+R, +E> = Success(value: R) | Failure(error: E) {
    predicate IsFailure() {
      Failure?
    }

    function PropagateFailure<U>(): Result<U, E>
      requires Failure?
    {
      Failure(error)
    }

    function Extract(): R
      requires Success?
    {
      value
    }
  }
}
