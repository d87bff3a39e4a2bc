/** Failure-compatible result types used for the exceptions of the billing system. */
module Common {

  datatype Option<+T> = None | Some(value: T)

  /** A value or the exception that the Java code would have thrown instead. */
  datatype Result<+T, +E> = Ok(value: T) | Err(error: E) {

    predicate IsFailure() {
      Err?
    }

    function PropagateFailure<U>(): Result<U, E>
      requires Err?
    {
      Err(error)
    }

    function Extract(): T
      requires Ok?
    {
      value
    }

    function MapFailure<F>(wrap: E -> F): Result<T, F>
    {
      match this
      case Ok(v) => Ok(v)
      case Err(e) => Err(wrap(e))
    }
  }
}
