/** A failure-compatible result type, so that the Python exceptions raised by
    the transformer can be modelled as values and propagated with `:-`. */
module Wrappers {

  datatype Result<+R, +E> = Success(value: R) | Failure(error: E) {

    predicate IsFailure() {
      Failure?
    }

    function PropagateFailure<U>(): Result<U, E>
      requires Failure?
    {
      Failure(error)
    }

    function Extract(): R
      requires Success?
    {
      value
    }
  }
}
