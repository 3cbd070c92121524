/** Option, Result and Outcome: the model's stand-ins for Python's `None`,
    for a value-or-raised-exception, and for a check that passes or raises. */
module Results {

  datatype Option<+T> = None | Some(value: T)

  datatype Result<+T, +E> = Success(value: T) | Failure(error: E) {
    predicate IsFailure() { Failure? }

    function PropagateFailure<U>(): Result<U, E>
      requires Failure?
    {
      Failure(error)
    }

    function Extract(): T
      requires Success?
    {
      value
    }
  }

  datatype Outcome<+E> = Pass | Fail(error: E)

  /** A field of a partial update written over the current value: the
      supplied value when there is one, the current value otherwise. */
  function Overlay<T>(current: T, v: Option<T>): T
  {
    if v.Some? then v.value else current
  }
}
