/** What the browser code sees of a request to the server: the decoded JSON
    body of a 2xx answer, or a failure. A failure is either an error answer,
    whose body may carry a `message` and/or an `error` text, or no answer at
    all (a network error, or an exception thrown before the request), which
    the model writes as a body with neither field. */
module Responses {

  import opened Common

  datatype ErrorBody = ErrorBody(message: Option<string>, error: Option<string>)

  /** The failure of a request that never reached the server. */
  const NoAnswer: ErrorBody := ErrorBody(None, None)

  datatype Response<T> = Success(data: T) | Failure(body: ErrorBody)

  /** `text || fallback`: the field's text when it is a non-empty string,
      the fallback otherwise. */
  function TextOr(text: Option<string>, fallback: string): (r: string)
    ensures Truthy(text) ==> r == text.value
    ensures !Truthy(text) ==> r == fallback
    ensures |fallback| > 0 ==> |r| > 0
  {
    if Truthy(text) then text.value else fallback
  }
}
