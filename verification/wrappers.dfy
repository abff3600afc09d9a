/** Failure-compatible wrappers shared by every module of the receiver model.
    Go's `(value, error)` pairs become `Result<T>`, and an `error` whose text
    matters is carried as a string. */
module Wrappers {

  datatype Option<+T> = None | Some(value: T) {
    predicate IsFailure() { None? }

    function PropagateFailure<U>(): Option<U>
      requires None?
    {
      None
    }

    function Extract(): T
      requires Some?
    {
      value
    }
  }

  /** A Go `(T, error)` pair: `Ok(v)` is `(v, nil)`, `Err(msg)` is `(_, errors.New(msg))`. */
  datatype Result<+T> = Ok(value: T) | Err(msg: string) {
    predicate IsFailure() { Err? }

    function PropagateFailure<U>(): Result<U>
      requires Err?
    {
      Err(msg)
    }

    function Extract(): T
      requires Ok?
    {
      value
    }
  }

  /** A Go function that returns only an `error`. */
  datatype Outcome = Pass | Fail(msg: string) {
    predicate IsFailure() { Fail? }

    function PropagateFailure(): Outcome
      requires Fail?
    {
      this
    }
  }

  /** The text of `errors.Wrap(cause, message)` from github.com/pkg/errors. */
  function Wrap(message: string, cause: string): string
  {
    message + ": " + cause
  }
}
