/** The synthesis API's validation and error path: `validate_text`, the
    `HTTPException` handler that turns every raised error into a uniform JSON
    body, and how `synthesize` validates what the synthesizer gave back. */
module Api {
  import opened PyValues
  import opened PyStrings
  import opened ApiErrors
  import opened ApiExceptions

  /** A `JSONResponse`: a status and a JSON object body. */
  datatype JsonResponse = JsonResponse(statusCode: int, content: map<string, Value>)

  /** The value `http_exception_handler` falls back to for an error-body key
      missing from a dict detail. */
  function ErrorDefault(key: string): Value {
    if key == "code" then Str("HTTP_ERROR")
    else if key == "message" then Str("")
    else Null
  }

  /** `SynthesizeRequest.validate_text`: blank text (empty once surrounding
      whitespace is stripped) raises `EMPTY_TEXT`; otherwise the stripped text
      is kept, which is non-empty and has no surrounding whitespace. */
  function ValidateText(v: string): (f: Flow<string>)
    ensures f.Raise? <==> AllSpace(v)
    ensures f.Raise? ==> f.exc == RaiseApiError(EmptyText).exc
    ensures f.Return? ==> f.value == Strip(v) && f.value != []
    ensures f.Return? ==> !IsSpace(f.value[0]) && !IsSpace(f.value[|f.value| - 1])
  {
    StripEmptyIffAllSpace(v);
    StripEnds(v);
    if Strip(v) == [] then Raise(RaiseApiError(EmptyText).exc) else Return(Strip(v))
  }

  /** Validated text is a fixed point of validation. */
  lemma ValidateTextIdempotent(v: string)
    requires ValidateText(v).Return?
    ensures ValidateText(ValidateText(v).value) == ValidateText(v)
  {
    StripIdempotent(v);
    var t := Strip(v);
    StripEmptyIffAllSpace(t);
  }

  /** What validation keeps is exactly the text between the leading and the
      trailing whitespace of the input. */
  lemma ValidateTextKeepsMiddle(v: string) returns (lo: nat)
    requires ValidateText(v).Return?
    ensures var t := ValidateText(v).value;
      lo + |t| <= |v| && v[lo..lo + |t|] == t && AllSpace(v[..lo]) && AllSpace(v[lo + |t|..])
  {
    lo := StripIsTrimmedSlice(v);
  }

  /** `http_exception_handler`: the response keeps the exception's status and
      its body always has exactly the keys code, message and details. A dict
      detail supplies each key it holds and the defaults "HTTP_ERROR", "" and
      None stand in for the ones it lacks; any other detail becomes
      code "HTTP_ERROR" with its text as the message and no details. */
  function HandleHttpException(exc: HttpException): (resp: JsonResponse)
    ensures resp.statusCode == exc.statusCode
    ensures resp.content.Keys == ErrorKeys
    ensures exc.detail.DictDetail? ==>
      forall k :: k in ErrorKeys ==>
        resp.content[k] == (if k in exc.detail.fields then exc.detail.fields[k] else ErrorDefault(k))
    ensures exc.detail.PlainDetail? ==>
      resp.content == map["code" := Str("HTTP_ERROR"), "message" := Str(exc.detail.str), "details" := Null]
  {
    var body := match exc.detail
      case DictDetail(d) =>
        map["code" := Get(d, "code", Str("HTTP_ERROR")),
            "message" := Get(d, "message", Str("")),
            "details" := Get(d, "details", Null)]
      case PlainDetail(text) =>
        map["code" := Str("HTTP_ERROR"), "message" := Str(text), "details" := Null];
    JsonResponse(exc.statusCode, body)
  }

  /** Round trip: the handler applied to what `raise_api_error(e, details)`
      raises answers with the error's own status, code and message and with
      the details as given. */
  lemma HandlerInvertsRaiseApiError(e: ApiError, details: Option<string>)
    ensures HandleHttpException(RaiseApiError(e, details).exc)
         == JsonResponse(e.httpStatus, ApiErrorBody(e, details))
  {
    var resp := HandleHttpException(RaiseApiError(e, details).exc);
    var want := ApiErrorBody(e, details);
    assert resp.content.Keys == want.Keys;
    forall k | k in want ensures resp.content[k] == want[k] {
      assert k in ErrorKeys;
    }
  }

  /** What the synthesizer handed back: audio of some kind (`None`, a tensor
      of some length, or any other object), or an exception with its text. */
  datatype Audio = NoAudio | Tensor(length: nat) | NotTensor
  datatype Synthesis = Threw(error: string) | Produced(audio: Audio)

  const NoAudioDetails := "No audio data generated."
  const InvalidAudioDetails := "Generated audio data is invalid or empty."

  /** What `synthesize` does with the synthesizer's result: an exception
      maps to `SYNTHESIS_FAILED` with the exception text as details; `None`
      audio is caught first, with its own details; any other non-tensor or an
      empty tensor is invalid. Only a non-empty tensor goes on to WAV encoding. */
  function CheckSynthesis(s: Synthesis): (f: Flow<Audio>)
    ensures f.Return? <==> s.Produced? && s.audio.Tensor? && s.audio.length > 0
    ensures f.Return? ==> f.value == s.audio
    ensures s.Threw? ==> f.exc == RaiseApiError(SynthesisFailed, Some(s.error)).exc
    ensures s == Produced(NoAudio) ==> f.exc == RaiseApiError(SynthesisFailed, Some(NoAudioDetails)).exc
    ensures s.Produced? && s.audio != NoAudio && f.Raise? ==>
      f.exc == RaiseApiError(SynthesisFailed, Some(InvalidAudioDetails)).exc
  {
    match s
    case Threw(e) => Raise(RaiseApiError(SynthesisFailed, Some(e)).exc)
    case Produced(audio) =>
      if audio.NoAudio? then
        Raise(RaiseApiError(SynthesisFailed, Some(NoAudioDetails)).exc)
      else if audio.NoAudio? || !audio.Tensor? || audio.length == 0 then
        Raise(RaiseApiError(SynthesisFailed, Some(InvalidAudioDetails)).exc)
      else
        Return(audio)
  }

  /** What a client of `POST /synthesize` receives. */
  datatype Response = ErrorResponse(json: JsonResponse) | WavResponse(audio: Audio)

  /** `POST /synthesize` as seen from the client: request validation, the
      synthesizer's outcome `run`, the validation of its result, and every raised error
      passed through `http_exception_handler`. */
  function Synthesize(text: string, run: Synthesis): (r: Response)
    ensures r.WavResponse? <==> !AllSpace(text) && CheckSynthesis(run).Return?
    ensures r.WavResponse? ==> r.audio.Tensor? && r.audio.length > 0 && r.audio == run.audio
    ensures AllSpace(text) ==> r == ErrorResponse(JsonResponse(400, ApiErrorBody(EmptyText, None)))
    ensures !AllSpace(text) && run.Threw? ==>
      r == ErrorResponse(JsonResponse(500, ApiErrorBody(SynthesisFailed, Some(run.error))))
    ensures !AllSpace(text) && run == Produced(NoAudio) ==>
      r == ErrorResponse(JsonResponse(500, ApiErrorBody(SynthesisFailed, Some(NoAudioDetails))))
    ensures !AllSpace(text) && run.Produced? && run.audio != NoAudio && r.ErrorResponse? ==>
      r == ErrorResponse(JsonResponse(500, ApiErrorBody(SynthesisFailed, Some(InvalidAudioDetails))))
  {
    HandlerInvertsRaiseApiError(EmptyText, None);
    match ValidateText(text)
    case Raise(exc) => ErrorResponse(HandleHttpException(exc))
    case Return(_) =>
      match CheckSynthesis(run)
      case Raise(exc) =>
        HandlerInvertsRaiseApiError(SynthesisFailed, Some(NoAudioDetails));
        HandlerInvertsRaiseApiError(SynthesisFailed, Some(InvalidAudioDetails));
        if run.Threw? then
          HandlerInvertsRaiseApiError(SynthesisFailed, Some(run.error));
          ErrorResponse(HandleHttpException(exc))
        else
          ErrorResponse(HandleHttpException(exc))
      case Return(audio) => WavResponse(audio)
  }
}
