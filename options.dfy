/** Optional values (Python's `X | None`) and the outcome of an operation that may
    raise (`Result`), usable with `:-`. */
module Options {

  datatype Option<T> = None | Some(value: T)

  /** `Err` carries the message of the exception the source raises. */
  datatype Result<T> = Ok(value: T) | Err(error: string) {

    predicate IsFailure() {
      Err?
    }

    /** Total, so that a failure branch that cannot be taken checks nothing. */
    function PropagateFailure<U>(): Result<U> {
      match this
      case Err(e) => Err(e)
      case Ok(_) => Err("")
    }

    function Extract(): T
      requires Ok?
    {
      value
    }
  }
}
