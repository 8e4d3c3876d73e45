/** Failure-carrying result types shared by every module of the model.
    The source signals failure three ways: a returned Go `error`, a
    `panic`, and `log.Fatalf`. All three become values of these types. */
module Results {

  /** An optional value: `None` where the source has "no value" (a parse that failed,
      a map key that is missing). */
  datatype Option<+T> = None | Some(value: T)

  /** Either a value or an error. */
  datatype Result<+T, +E> = Success(value: T) | Failure(error: E) {
    predicate IsFailure() {
      Failure?
    }

    function PropagateFailure<U>(): Result<U, E>
      requires Failure?
    {
      Failure(error)
    }

    function Extract(): T
      requires Success?
    {
      value
    }
  }
}
