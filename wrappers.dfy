/** Option and Result, the two failure-carrying shapes the handler's
    signatures use (`Option<Result<(), HintError>>` in the source). */
module Wrappers {

  datatype Option<+T> = None | Some(value: T)

  /** A Result propagates its failure through `:-`, as `?` does in the source. */
  datatype Result<+R, +E> = Success(value: R) | Failure(error: E) {

    predicate IsFailure() {
      Failure?
    }

    function PropagateFailure<U>(): Result<U, E>
      requires Failure?
    {
      Failure(error)
    }

    function Extract(): R
      requires Success?
    {
      value
    }
  }
}
