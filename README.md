# TTS_kokoro: remote log shipping and the synthesis API's error path

This project models two parts of the Kokoro text-to-speech service in Dafny and proves properties about them.

- **`HTTPLogHandler`** (`log_handler.dfy`). This logging handler turns each log record into a JSON payload. It admits the payload to a bounded queue without blocking, and when the queue is full it drops the oldest entry first. A background worker takes entries from the head one at a time. It posts each entry once to the collector's `/logs` endpoint and prints a diagnostic when the post does not come back with a 2xx status. Nothing is ever retried.
  - The handler is a class. Its queue, its unfinished-task count, the posts made, the diagnostics printed and the records passed to `handleError` are fields that its methods update.
  - Ghost bookkeeping records the order in which payloads were admitted. The class invariant states that the payloads posted, followed by those still queued, appear in that order.
  - The admission policy and endpoint resolution are also pure functions. The lemmas about overflow and endpoint resolution are proved about those functions.
- **The synthesis API** (`api_errors.dfy`, `api_exceptions.dfy`, `api.dfy`). These files cover:
  - the error catalogue;
  - `raise_api_error`;
  - the `HTTPException` handler, which gives every error the same JSON body;
  - request-text validation;
  - how `POST /synthesize` validates what the synthesizer returns.

  A raised exception is the `Raise` case of a `Flow` value.
- **Python helpers**. `py_values.dfy` models JSON-like values, truthiness and `dict.get`. `py_strings.dfy` models `str.strip` over the Unicode whitespace set, `rstrip(ch)` and `endswith`.

Things that are not computed inside the model become parameters:
- the `SERVICE_NAME` environment variable;
- what `self.format(record)` and the ISO timestamp give, with `None` when that call raises, and whether the exception raised while building the payload was `queue.Full` or another one;
- an unexpected failure of `put_nowait`;
- the outcome of each post (a status or a transport error);
- what the synthesizer returned.

Three behaviours of the code are worth stating outright, and the model follows the code in each:
- **A URL ending in `/logs/`.** The docstring at tests/test_handler.py:60 says the worker posts to a single `/logs` endpoint "regardless of trailing slash", but that test only tries a URL ending in `/logs`. A trailing `/` makes no difference only for a URL that does not already end in `/logs`. `http://h/logs/` does not end in `/logs`, so the code strips the `/` and appends `/logs` a second time, giving `http://h/logs/logs`. `ResolveKeepsSlashAfterLogs` and `DoubledLogsPath` state this.
- **Payload errors.** Any exception other than `queue.Full` raised while the payload is built, formatting included, sends the record to `handleError`, and nothing is queued; there is no fallback text. A `queue.Full` raised there (from a message's `__str__`, say) is caught by the overflow clause at src/log_handler.py:31-35: the oldest queued entry is dropped, nothing is inserted because there is no payload, and `handleError` is not called.
- **Timestamps.** The payload's timestamp is the record's `created` time, not the time `emit` runs.

## Model

| member | source | states |
|---|---|---|
| PyValues.Get | src/api/api.py:78-80 | `dict.get` gives the stored value for a present key and the default for an absent one |
| PyValues.OptionalStr | src/api/exceptions.py:5-10 | an optional string becomes `None` exactly when it is absent, and otherwise the string itself |
| PyStrings.StripLeft | src/api/api.py:48 | the result is a suffix of the input, everything cut off is whitespace, and it does not start with whitespace |
| PyStrings.StripRight | src/api/api.py:48 | the result is a prefix of the input, everything cut off is whitespace, and it does not end with whitespace |
| PyStrings.RStripChar | src/log_handler.py:51 | `rstrip(ch)` keeps a prefix, removes only `ch` characters, and leaves no trailing `ch` |
| PyStrings.StripEnds | src/api/api.py:48-50 | the stripped text is empty or neither starts nor ends with whitespace |
| PyStrings.StripIsTrimmedSlice | src/api/api.py:48-50 | `strip()` keeps a contiguous slice of the input, and everything before and after that slice is whitespace |
| PyStrings.StripEmptyIffAllSpace | src/api/api.py:48 | `not v.strip()` holds exactly when every character of `v` is whitespace |
| PyStrings.StripIdempotent | src/api/api.py:50 | stripping twice gives the same text as stripping once |
| ApiErrors.CatalogueIsConsistent | src/api/errors.py:10-20 | `EMPTY_TEXT` and `SYNTHESIS_FAILED` have different codes; the first is a 4xx client error and the second a 5xx server error |
| ApiExceptions.RaiseApiError | src/api/exceptions.py:5-12 | it always raises, with the error's status and a dict detail of exactly code, message and details; code and message come from the error, and details is `None` when omitted |
| Api.ValidateText | src/api/api.py:45-50 | it raises `EMPTY_TEXT` exactly when the text is all whitespace (including empty text); otherwise it returns the stripped text, which is non-empty and has no surrounding whitespace |
| Api.ValidateTextIdempotent | src/api/api.py:45-50 | validating already-validated text returns it unchanged |
| Api.ValidateTextKeepsMiddle | src/api/api.py:48-50 | the validated text is the input with only its leading and trailing whitespace removed |
| Api.HandleHttpException | src/api/api.py:73-89 | the response keeps the exception's status, and its body has exactly the keys code, message and details; a dict detail supplies the keys it has, with defaults `HTTP_ERROR`, `""` and `None` for the rest; any other detail becomes `HTTP_ERROR` with its text as the message |
| Api.HandlerInvertsRaiseApiError | src/api/api.py:73-89 | the handler, applied to what `raise_api_error(e, details)` raises, answers with `e`'s status, code and message and the given details |
| Api.CheckSynthesis | src/api/api.py:101-114 | only a non-empty tensor passes; a synthesizer exception becomes `SYNTHESIS_FAILED` with the exception text; `None` audio gets its own details; any other result gets the invalid-audio details |
| Api.Synthesize | src/api/api.py:93-119 | blank text gets a 400 `EMPTY_TEXT` body; each synthesis failure gets a 500 `SYNTHESIS_FAILED` body with its details; WAV audio is returned exactly when the text is not blank and the tensor is non-empty |
| LogHandler.CopyExtra | src/log_handler.py:21-28 | a missing or falsy `extra` gives `{}` and a dict is copied; the copy fails exactly when `extra` is truthy and not a dict |
| LogHandler.BuildPayload | src/log_handler.py:19-29 | a payload is built exactly when formatting, the timestamp and the extra copy all succeed; it carries the record's name, level, message, timestamp and extras; the service is the record's own, else `SERVICE_NAME`, else `"unknown"` |
| LogHandler.Admit | src/log_handler.py:30-35 | admission appends the new entry after the newest old entries, in their old order; the size grows by one unless the queue was full (only a positive `maxsize` can be full) |
| LogHandler.AdmitStaysBounded | src/log_handler.py:30-35 | with a positive capacity the queue never grows past it, and an entry is appended without eviction while there is room |
| LogHandler.AdmitIsLastN | src/log_handler.py:30-35 | one admission gives the newest `maxsize` entries of the old queue with the new entry appended |
| LogHandler.AdmitAllKeepsNewest | src/log_handler.py:30-35 | after any run of submissions the queue holds exactly the newest `maxsize` of the old entries and the submissions, in order |
| LogHandler.SubmissionsKeepNewest | src/log_handler.py:13-35 | starting from an empty queue, N submissions leave the last min(N, `maxsize`) of them, in submission order |
| LogHandler.AdmitAllUnbounded | src/log_handler.py:13-30 | with `maxsize <= 0` nothing is ever dropped |
| LogHandler.RunStaysBounded | src/log_handler.py:30-45 | no interleaving of admissions and takes makes the queue longer than a positive capacity |
| LogHandler.ResolveEndpoint | src/log_handler.py:49-51 | the endpoint always ends in `/logs`; a URL already ending in `/logs` is used as it is; otherwise the endpoint is the URL without its trailing `/`s, followed by `/logs` |
| LogHandler.ResolveEndpointIdempotent | src/log_handler.py:49-51 | resolving a resolved endpoint changes nothing |
| LogHandler.ResolveIgnoresTrailingSlash | src/log_handler.py:49-51 | for a URL not ending in `/logs`, a trailing `/` makes no difference |
| LogHandler.ResolveKeepsSlashAfterLogs | src/log_handler.py:49-51 | a `/` after `/logs` is not removed, so `/logs` is appended a second time |
| LogHandler.DoubledLogsPath | src/log_handler.py:49-51 | `http://h/logs/` resolves to `http://h/logs/logs` |
| LogHandler.Classify | src/log_handler.py:53-57 | a post prints no diagnostic exactly when it gets a 2xx status; any other status prints one naming the status; a transport error prints one without a status; each names the payload |
| LogHandler.HttpLogHandler.constructor | src/log_handler.py:9-13 | the handler starts with the given URL and capacity (1000 unless given), an empty queue, no tasks, no posts and no diagnostics |
| LogHandler.HttpLogHandler.PutNowait | src/log_handler.py:30 | a full queue reports `Full` and is unchanged; otherwise the entry is appended and counted as an unfinished task |
| LogHandler.HttpLogHandler.GetNowait | src/log_handler.py:33 | an empty queue gives nothing; otherwise the head is removed and returned, and the task count is unchanged |
| LogHandler.HttpLogHandler.Emit | src/log_handler.py:18-39 | if building the payload raises `queue.Full`, the oldest entry is dropped, nothing is inserted and `handleError` is not called; if it raises anything else or the insert fails, the record goes to `handleError` once and the queue is unchanged; otherwise the queue becomes `Admit(queue, maxsize, payload)` and one task is added; nothing is posted and the ordering invariant is kept |
| LogHandler.HttpLogHandler.DeliverOne | src/log_handler.py:44-59 | on an empty queue nothing changes; otherwise the head is taken, posted once to the resolved endpoint and never put back, its diagnostic is printed, and one task is marked done |
| LogHandler.HttpLogHandler.DrainPass | src/log_handler.py:43-59 | one worker pass moves the next queued entry, if any, from the queue to the posts, and adds its diagnostic |
| LogHandler.HttpLogHandler.Drain | src/log_handler.py:41-59 | over n passes the first min(n, the queue length) entries are taken in queue order; each is posted once to the resolved endpoint, in that order, with the diagnostics of its outcome; the rest stay queued |

## Left out

- The worker thread, its stop flag, the 0.5-second polling timeout and `daemon=True` are not modelled. The worker's passes are the calls `DeliverOne` and `Drain` make one after another. Concurrent `emit` calls and the race between `get_nowait` and the second `put_nowait` (src/log_handler.py:33-35) are therefore not modelled.
- The HTTP post itself (`requests.Session`, the JSON encoding, the timeout) is not modelled. Each post is represented by its outcome, a status or a transport error.
- The printed diagnostic text is not modelled; each diagnostic is a `Diagnostic` value that records the status, when there is one, and the payload.
- `self.format(record)` and the timestamp rendering are not modelled. The record carries what they give, or `None` when they raise.
- `os.getenv("SERVICE_NAME")` is a parameter of `BuildPayload` and `Emit`.
- `handleError` is modelled only as a record appended to `handledErrors`.
- Emit: an unexpected exception from `put_nowait` is the `insertFails` parameter and is not derived from any queue state.
- Python's queue `unfinished_tasks` counter is kept. An entry evicted on overflow is never marked done, so the counter does not return to zero. The handler never calls `join`, so this has no visible effect.
- Values are limited to JSON-like kinds. An `extra` object that is not a dict but has its own `.items()` is treated as failing the copy.
- HandleHttpException: a detail that is not a dict carries its `str()` rendering as text; `str()` itself is not modelled.
- Audio is abstracted to `None`, a tensor of some length, or any other object. A zero-dimensional tensor, for which `len` raises outside the `try` block, is not modelled. Neither are WAV encoding, `SAMPLE_RATE` and the streamed response.
- FastAPI routing, pydantic request parsing (missing or mistyped fields), CORS, the lifespan hook, the synthesis lock, `asyncio.to_thread`, logging calls and the environment configuration (src/api/api.py:22-36) are not modelled. Neither is `/health`.
- src/api.py, src/synthesize_TTS.py and TTS_API/synthesize_TTS.py are not part of this model.
