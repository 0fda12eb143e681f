/** Failure-carrying results shared by every module of the model. */
module Wrappers {

  datatype Option<+T> = None | Some(value: T)

  /** The outcome of an operation that either produces a value or raises. */
  datatype Result<+T, +E> = Ok(value: T) | Err(error: E) {
    predicate IsFailure() { Err? }

    function PropagateFailure<U>(): Result<U, E>
      requires Err?
    {
      Err(error)
    }

    function Extract(): T
      requires Ok?
    {
      value
    }
  }

  /** The Python exception classes the modelled code can raise or return. */
  datatype PyError =
    | ValueError
    | TypeError
    | IndexError
    | UnicodeEncodeError
    | ConnectionError
    | ModbusError
    | StructError
    | OSError
    | AttributeError
    | TimeoutError
    /** A plain `Exception(message)` raised by the code itself. */
    | PlainException
}
