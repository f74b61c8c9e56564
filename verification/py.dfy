/** Python-level error reporting shared by every module of the model.

    A Python call either returns a value or raises an exception; a call on
    a stateful object also leaves that object in some state. `Result`
    models the former, `Outcome` the latter (the state after the call and,
    when one escaped, the exception it raised). */
module Py {

  /** The exceptions the modelled code raises or lets escape. */
  datatype PyError =
    | UndoError(message: string)
    | RuntimeError(message: string)
    | ValueError(message: string)
    | KeyError(key: string)
    | IndexError
    | TypeError
    | ZeroDivisionError
    | IOError
    | RecursionError

  datatype Option<+T> = None | Some(value: T)

  datatype Result<+T> = Ok(value: T) | Raise(error: PyError)
  {
    predicate IsFailure() { Raise? }

    function PropagateFailure<U>(): Result<U>
      requires Raise?
    {
      Raise(error)
    }

    function Extract(): T
      requires Ok?
    {
      value
    }
  }

  /** The state an object is left in by a call, and the exception the call
      raised, if any. */
  datatype Outcome<+S> = Outcome(state: S, raised: Option<PyError>)
  {
    predicate Succeeded() { raised.None? }
  }

  function Done<S>(s: S): Outcome<S> { Outcome(s, None) }

  function Fail<S>(s: S, e: PyError): Outcome<S> { Outcome(s, Some(e)) }
}
