/** The error convention of src/common/errors.ts: every error of the library
    is a `BaseError` subclass carrying a message and, optionally, the error
    that caused it. */
module Errors {
  import opened Wrappers

  /** The `name` of an error, which `BaseError` sets from the class that was
      instantiated. `Error` and `RangeError` are the platform's own classes. */
  datatype ErrorName = Error | RangeError | DatetimeError | ArrayError | CsvError | StringError

  datatype JsError = JsError(name: ErrorName, message: string, cause: Option<JsError>)

  /** `new <name>(message, cause)` for a `BaseError` subclass: a missing
      message becomes "unknown error". */
  function NewBaseError(name: ErrorName, message: Option<string>, cause: Option<JsError>): (e: JsError)
    ensures e.name == name && e.cause == cause
    ensures message.Some? ==> e.message == message.value
    ensures message.None? ==> e.message == "unknown error"
  {
    JsError(name, message.GetOr("unknown error"), cause)
  }

  /** The library's `try { ... } catch (error) { throw new <name>(message, error) }`:
      a value passes through, a thrown error is wrapped with itself as cause. */
  function Rewrap<T>(inner: Result<T, JsError>, name: ErrorName, message: string): (r: Result<T, JsError>)
    ensures r.Success? <==> inner.Success?
    ensures r.Success? ==> r.value == inner.value
    ensures r.Failure? ==> r.error.name == name && r.error.message == message
    ensures r.Failure? ==> r.error.cause == Some(inner.error)
  {
    match inner
    case Success(v) => Success(v)
    case Failure(e) => Failure(NewBaseError(name, Some(message), Some(e)))
  }
}
