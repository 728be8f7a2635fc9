/** The exception kinds the library raises, and a failure-compatible result type. */
module Errors {

  /** Python exception classes raised by the modelled code, with their messages. */
  datatype Error =
    | TypeError(msg: string)
    | ValueError(msg: string)
    | ZeroDivisionError(msg: string)

  /** Either the value an operation returns or the exception it raises. */
  datatype Result<+T> = Ok(value: T) | Err(error: Error) {

    predicate IsFailure() {
      Err?
    }

    function PropagateFailure<U>(): Result<U>
      requires Err?
    {
      Err(error)
    }

    function Extract(): T
      requires Ok?
    {
      value
    }
  }

  datatype Option<+T> = None | Some(value: T)
}
