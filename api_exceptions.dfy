/** `HTTPException` and `raise_api_error`: turning an API error into the
    exception FastAPI reports. */
module ApiExceptions {
  import opened PyValues
  import opened ApiErrors

  /** The `detail` of an `HTTPException`: a dict, or any other value, of which
      only its `str()` rendering is ever used. */
  datatype Detail =
    | DictDetail(fields: map<string, Value>)
    | PlainDetail(str: string)

  datatype HttpException = HttpException(statusCode: int, detail: Detail)

  /** How a Python call ends: it returns a value or raises an `HTTPException`. */
  datatype Flow<+T> = Return(value: T) | Raise(exc: HttpException)

  /** The three keys of every API error body. */
  const ErrorKeys: set<string> := {"code", "message", "details"}

  /** The error body `raise_api_error` builds: the error's own code and
      message with the given details. */
  function ApiErrorBody(e: ApiError, details: Option<string>): map<string, Value> {
    map["code" := Str(e.code), "message" := Str(e.message), "details" := OptionalStr(details)]
  }

  /** `raise_api_error(api_error, details)`: despite its return annotation it
      never returns; it raises with the error's status and a dict detail
      holding exactly the error's code and message and the given details
      (`None` when omitted), all three unchanged. */
  function RaiseApiError(e: ApiError, details: Option<string> := None): (f: Flow<HttpException>)
    ensures f.Raise?
    ensures f.exc.statusCode == e.httpStatus
    ensures f.exc.detail.DictDetail? && f.exc.detail.fields.Keys == ErrorKeys
    ensures f.exc.detail.fields["code"] == Str(e.code)
    ensures f.exc.detail.fields["message"] == Str(e.message)
    ensures details.None? ==> f.exc.detail.fields["details"] == Null
    ensures details.Some? ==> f.exc.detail.fields["details"] == Str(details.value)
  {
    Raise(HttpException(e.httpStatus, DictDetail(ApiErrorBody(e, details))))
  }
}
