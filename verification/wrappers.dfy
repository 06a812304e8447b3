/**
  Failure-compatible wrappers shared by every module of the model.

  Python signals a failed dictionary lookup with `KeyError`, a rejected
  value with `ValueError`, a division by zero with `ZeroDivisionError` and
  a missing attribute with `AttributeError`; each becomes an `Err` here so that each modelled operation states its
  error path instead of excluding it by a precondition.
 */
module Wrappers {

  /** Python's `Optional[T]`: `None` or a present value. */
  datatype Option<+T> = None | Some(value: T)

  /** The exception classes the modelled code raises. */
  datatype Error =
    | KeyError(key: string)
    | ValueError(message: string)
    | ZeroDivisionError
    | AttributeError(typeName: string, attribute: string)

  /** A value or the exception that replaced it; usable with `:-`. */
  datatype Result<+T> = Ok(value: T) | Err(error: Error) {

    predicate IsFailure() {
      Err?
    }

    function PropagateFailure<U>(): Result<U>
      requires Err?
    {
      Err(error)
    }

    function Extract(): T
      requires Ok?
    {
      value
    }
  }
}
