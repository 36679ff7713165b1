/** Failure-carrying values: the error paths of the transpilers and of the
    verification scripts (a Python exception that ends the script) are
    modelled as values rather than excluded by preconditions. */
module Results {

  /** An optional value; `None` stands for a Python `ValueError` raised by a
      conversion such as `int(...)` or `float(...)`, or for text a reader
      does not accept. */
  datatype Option<+T> = None | Some(value: T) {
    predicate IsFailure() {
      None?
    }

    function PropagateFailure<U>(): Option<U>
      requires None?
    {
      None
    }

    function Extract(): T
      requires Some?
    {
      value
    }
  }

  /** A value or the error that stopped the computation. */
  datatype Result<+T, +E> = Success(value: T) | Failure(error: E) {
    predicate IsFailure() {
      Failure?
    }

    function PropagateFailure<U>(): Result<U, E>
      requires Failure?
    {
      Failure(error)
    }

    function Extract(): T
      requires Success?
    {
      value
    }
  }
}
