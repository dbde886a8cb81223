/** Failure-compatible result types shared by every service of the model.

    The application reports failures by throwing exceptions; ErrorHandler maps
    three of them to HTTP statuses. `Unhandled` stands for every exception that
    no handler maps (a NullPointerException on a null field, an
    ArithmeticException on division by zero, an IllegalArgumentException from
    the paging library): the framework answers those with a server error. */
module Wrappers {

  /** The error kinds: NotFoundException (404), ValidationException (400),
      ExistsElementException (409) and anything unmapped (500). */
  datatype Error = NotFound | Validation | Conflict | Unhandled

  /** A nullable reference. */
  datatype Option<+T> = None | Some(value: T) {
    function GetOr(default: T): T {
      match this
      case Some(v) => v
      case None => default
    }
  }

  /** The value of a call that either returns normally or throws. */
  datatype Result<+T> = Ok(value: T) | Err(error: Error) {
    predicate IsFailure() {
      Err?
    }

    function PropagateFailure<U>(): Result<U>
      requires Err?
    {
      Err(error)
    }

    function Extract(): T
      requires Ok?
    {
      value
    }
  }

  /** The outcome of a `void` validator: it passes or throws. */
  datatype Outcome = Pass | Fail(error: Error) {
    predicate IsFailure() {
      Fail?
    }

    function PropagateFailure<U>(): Result<U>
      requires Fail?
    {
      Err(error)
    }
  }

  /** Throws `e` unless `condition` holds. */
  function Need(condition: bool, e: Error): Outcome {
    if condition then Pass else Fail(e)
  }
}
