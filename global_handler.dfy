/** src/exceptions/global_handler.py: the JSON error responses. The request's
    `request.state.request_id` and the `APP_PROFILE` value are parameters; `str(exc)` is
    the exception's text. */
module GlobalHandler {
  import opened Wrappers
  import opened EnvUtils

  /** The `"error"` object; `detail` is absent from HTTP-exception responses. */
  datatype ErrorBody = ErrorBody(message: string, detail: Option<string>, requestId: string)

  datatype JsonResponse = JsonResponse(status: int, error: ErrorBody)

  const InternalErrorMessage := "Internal server error"
  const HiddenDetail := "An internal error occurred"

  /** `global_exception_handler`: a 500 whose detail is the exception text only in the
      local environment. */
  function GlobalExceptionHandler(requestId: string, excText: string, appProfile: Option<string>): (r: JsonResponse)
    ensures r.status == 500 && r.error.message == InternalErrorMessage && r.error.requestId == requestId
    ensures r.error.detail.Some?
    ensures IsLocalEnvironment(appProfile) ==> r.error.detail == Some(excText)
    ensures !IsLocalEnvironment(appProfile) ==> r.error.detail == Some(HiddenDetail)
  {
    var detail := if IsLocalEnvironment(appProfile) then excText else HiddenDetail;
    JsonResponse(500, ErrorBody(InternalErrorMessage, Some(detail), requestId))
  }

  /** Outside the local environment the response does not depend on the exception. */
  lemma NoDetailLeak(requestId: string, e1: string, e2: string, appProfile: Option<string>)
    requires !IsLocalEnvironment(appProfile)
    ensures GlobalExceptionHandler(requestId, e1, appProfile) == GlobalExceptionHandler(requestId, e2, appProfile)
  {
  }

  /** With `APP_PROFILE` unset the environment is local, so the detail is shown. */
  lemma UnsetProfileShowsDetail(requestId: string, excText: string)
    ensures GlobalExceptionHandler(requestId, excText, None).error.detail == Some(excText)
  {
  }

  /** `http_exception_handler`: the exception's status, its detail as the message, and no
      `detail` key. */
  function HttpExceptionHandler(requestId: string, status: int, detail: string): (r: JsonResponse)
    ensures r.status == status && r.error.message == detail && r.error.detail.None?
    ensures r.error.requestId == requestId
  {
    JsonResponse(status, ErrorBody(detail, None, requestId))
  }
}
