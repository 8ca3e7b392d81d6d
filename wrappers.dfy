/** Option and Result types, and the error taxonomy of the FAQ bot (core/exceptions.py). */
module Wrappers {

  /** Python's `Optional[T]`: `None` or a present value. */
  datatype Option<+T> = None | Some(value: T) {
    function GetOr(default: T): T {
      match this
      case Some(v) => v
      case None => default
    }
  }

  /** The exception classes the core raises; each carries its message. */
  datatype Error =
    | ValidationError(msg: string)
    | NotFoundError(msg: string)
    | DatabaseError(msg: string)
    | CacheError(msg: string)
    | ValueError(msg: string)
    /** A Python exception the code does not catch (IndexError, KeyError, ...), by class name. */
    | PythonError(name: string)
    /** An exception raised inside a library the model treats as an oracle (the embedding model). */
    | LibraryError(msg: string)
  {
    /** `str(e)`: the message, or the class name when the model keeps no message. */
    function Str(): string {
      match this
      case ValidationError(m) => m
      case NotFoundError(m) => m
      case DatabaseError(m) => m
      case CacheError(m) => m
      case ValueError(m) => m
      case PythonError(n) => n
      case LibraryError(m) => m
    }
  }

  /** A value, or the exception that replaced it. */
  datatype Result<+T> = Ok(value: T) | Err(error: Error) {
    predicate IsFailure() { Err? }

    function PropagateFailure<U>(): Result<U>
      requires Err?
    {
      Err(error)
    }

    function Extract(): T
      requires Ok?
    {
      value
    }
  }

  /** A call that either completes or raises. */
  datatype Outcome = Done | Raised(error: Error) {
    predicate IsFailure() { Raised? }

    function PropagateFailure<U>(): Result<U>
      requires Raised?
    {
      Err(error)
    }
  }
}
