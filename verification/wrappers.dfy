/** Failure-carrying datatypes shared by every module of the model.
    Python exceptions raised by the source become `Failure` values here. */
module Wrappers {

  datatype Option<+T> = None | Some(value: T) {
    function GetOr(default: T): T {
      match this
      case Some(v) => v
      case None => default
    }
  }

  /** The error kinds the source raises (core/exceptions.py), plus the
      Python built-in errors that escape from the modelled code. */
  datatype Error =
    | DataValidation(reason: string)
    | Optimization(reason: string)
    | InvalidConfiguration(reason: string)
    | ValueError(reason: string)
    | IndexError(reason: string)
    | ZeroDivision(reason: string)
    | TypeError(reason: string)
    | StopIteration
    | UnboundLocal(name: string)
    | AttributeError(owner: string, attribute: string)
  {
    /** `str(e)`: the text an `except Exception as e` handler sees. */
    function Message(): string
    {
      match this
      case DataValidation(reason) => reason
      case Optimization(reason) => reason
      case InvalidConfiguration(reason) => reason
      case ValueError(reason) => reason
      case IndexError(reason) => reason
      case ZeroDivision(reason) => reason
      case TypeError(reason) => reason
      case StopIteration => ""
      case UnboundLocal(name) => "cannot access local variable '" + name + "' where it is not associated with a value"
      case AttributeError(owner, attribute) => "'" + owner + "' object has no attribute '" + attribute + "'"
    }
  }

  /** The texts of the built-in errors that carry a fixed message. */
  const IndexOutOfRange: string := "list index out of range"
  const FloatDivisionByZero: string := "float division by zero"
  const IntegerDivisionByZero: string := "integer division or modulo by zero"

  datatype Result<+R> = Success(value: R) | Failure(error: Error) {
    predicate IsFailure() {
      Failure?
    }

    function PropagateFailure<U>(): Result<U>
      requires Failure?
    {
      Failure(this.error)
    }

    function Extract(): R
      requires Success?
    {
      value
    }
  }
}
