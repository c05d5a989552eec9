/** Failure-compatible result and option types used throughout the model.
    A `Failure` stands for an exception the Kotlin code throws; `None` stands
    for a Kotlin `null` returned by a safe cast or a missing entry. */
module Results {

  datatype Option<+T> = None | Some(value: T)

  datatype Result<+T, +E> = Success(value: T) | Failure(error: E) {

    predicate IsFailure() {
      Failure?
    }

    function PropagateFailure<U>(): Result<U, E>
      requires Failure?
    {
      Failure(error)
    }

    function Extract(): T
      requires Success?
    {
      value
    }
  }
}
