/** The error kinds that reach the client code and the function that turns any of them into
    the one string the UI displays. */
module ErrorHandler {
  import opened Wrappers
  import Js

  /** The client's own error kind: an Error subclass carrying the HTTP status and an optional payload. */
  datatype ApiError = ApiError(name: string, message: string, status: int, data: Option<Js.Value>)

  /** `new ApiError(message, status, data)`. */
  function NewApiError(message: string, status: int, data: Option<Js.Value>): (e: ApiError)
    ensures e.name == "ApiError"
    ensures e.message == message && e.status == status && e.data == data
  {
    ApiError("ApiError", message, status, data)
  }

  /** Whatever a rejected promise or a `throw` can carry. */
  datatype Thrown =
    | ApiErrorValue(apiError: ApiError)             // an `ApiError` instance
    | ErrorValue(name: string, message: string)     // any other `Error` instance (TypeError, SyntaxError, ...)
    | NonError(value: Js.Value)                     // a thrown value that is not an `Error`

  /** `value instanceof Error`; `ApiError` extends `Error`. */
  predicate IsError(t: Thrown) {
    t.ApiErrorValue? || t.ErrorValue?
  }

  /** `err instanceof Error ? err.message : fallback`, the expression every handler uses. */
  function MessageOr(t: Thrown, fallback: string): (m: string)
    ensures IsError(t) ==> m == (if t.ApiErrorValue? then t.apiError.message else t.message)
    ensures !IsError(t) ==> m == fallback
  {
    match t
    case ApiErrorValue(e) => e.message
    case ErrorValue(_, message) => message
    case NonError(_) => fallback
  }

  const UnknownErrorMessage: string := "发生未知错误"

  /** Any thrown value to a display string: an `ApiError` gives its message verbatim, any other
      `Error` its message, anything else the fixed unknown-error text. Defined for every input. */
  function HandleApiError(t: Thrown): (m: string)
    ensures t.ApiErrorValue? ==> m == t.apiError.message
    ensures t.ErrorValue? ==> m == t.message
    ensures t.NonError? ==> m == UnknownErrorMessage
  {
    if t.ApiErrorValue? then t.apiError.message
    else if t.ErrorValue? then t.message
    else UnknownErrorMessage
  }

  /** The normaliser and the handlers' inline expression agree once the fallback is the unknown-error text. */
  lemma HandleApiErrorIsMessageOr(t: Thrown)
    ensures HandleApiError(t) == MessageOr(t, UnknownErrorMessage)
  {
  }

  /** A freshly constructed `ApiError`, once thrown, is reported with exactly its own message. */
  lemma HandleNewApiError(message: string, status: int, data: Option<Js.Value>)
    ensures HandleApiError(ApiErrorValue(NewApiError(message, status, data))) == message
  {
  }
}
