/** `HTTPLogHandler`: a logging handler that ships each record as a JSON
    payload to a central collector. `emit` builds the payload and admits it
    to a bounded queue without blocking, dropping the oldest entry when the
    queue is full; a background worker takes entries from the head one at a
    time and posts each once to the collector's `/logs` endpoint.

    The worker thread, its stop flag and polling timeout are not modelled:
    the worker's iterations are method calls here, run one after another. */
module LogHandler {
  import opened PyValues
  import opened PyStrings

  // ---------------------------------------------------------------------
  // Payloads
  // ---------------------------------------------------------------------

  /** What `emit` reads from a `logging.LogRecord`. The optional `service`
      and `extra` attributes are absent unless the caller attached them.
      `formatted` is what `self.format(record)` gives and `timestamp` the
      ISO-8601 UTC rendering of `record.created`; each is `None` when that
      library call raises. */
  datatype LogRecord = LogRecord(
    name: string,
    levelname: string,
    service: Option<Value>,
    extra: Option<Value>,
    formatted: Option<string>,
    timestamp: Option<string>)

  /** The JSON object posted to the collector. */
  datatype Payload = Payload(
    service: Value,
    logger: string,
    level: string,
    message: string,
    timestamp: string,
    extra: map<string, Value>)

  /** The service name used when neither the record nor the `SERVICE_NAME`
      environment variable gives one. */
  const DefaultService := "unknown"

  /** `dict((getattr(record, "extra", {}) or {}).items())`: a missing or falsy
      `extra` gives `{}`, a dict is copied, and any other truthy value has no
      `.items()`, so the copy raises (`None` here). */
  function CopyExtra(extra: Option<Value>): (r: Option<map<string, Value>>)
    ensures r.None? <==> extra.Some? && Truthy(extra.value) && !extra.value.Dict?
    ensures extra.Some? && extra.value.Dict? ==> r == Some(extra.value.entries)
    ensures extra.None? || !Truthy(extra.value) ==> r == Some(map[])
  {
    match extra
    case None => Some(map[])
    case Some(v) =>
      if !Truthy(v) then Some(map[])
      else if v.Dict? then Some(v.entries)
      else None
  }

  /** The payload `emit` builds, or `None` when building it raises.
      `serviceEnv` is the `SERVICE_NAME` environment variable, if set. */
  function BuildPayload(record: LogRecord, serviceEnv: Option<string>): (p: Option<Payload>)
    ensures p.Some? <==>
      record.formatted.Some? && record.timestamp.Some? && CopyExtra(record.extra).Some?
    ensures p.Some? ==>
      && p.value.logger == record.name
      && p.value.level == record.levelname
      && p.value.message == record.formatted.value
      && p.value.timestamp == record.timestamp.value
      && p.value.extra == CopyExtra(record.extra).value
    ensures p.Some? && record.service.Some? ==> p.value.service == record.service.value
    ensures p.Some? && record.service.None? && serviceEnv.Some? ==> p.value.service == Str(serviceEnv.value)
    ensures p.Some? && record.service.None? && serviceEnv.None? ==> p.value.service == Str(DefaultService)
  {
    var extra := CopyExtra(record.extra);
    if record.formatted.None? || record.timestamp.None? || extra.None? then None
    else
      Some(Payload(
        record.service.GetOr(Str(serviceEnv.GetOr(DefaultService))),
        record.name,
        record.levelname,
        record.formatted.value,
        record.timestamp.value,
        extra.value))
  }

  /** The exception raised while a payload is built (by a formatter or a
      message's `__str__`, say): `queue.Full`, or anything else. */
  datatype BuildError = RaisedFull | RaisedOther

  // ---------------------------------------------------------------------
  // The bounded queue's admission policy, as functions on its contents
  // ---------------------------------------------------------------------

  /** `queue.Queue(maxsize)` refuses `put_nowait` with `queue.Full` only when
      `maxsize` is positive and reached; a `maxsize` of zero or less means the
      queue is unbounded. */
  predicate IsFull<T>(q: seq<T>, maxSize: int) {
    0 < maxSize && maxSize <= |q|
  }

  /** The queue after `emit` admits `x`: appended at the tail, after dropping
      the head if the queue was full. The new entry is last, the entries
      before it are the newest of the old ones in their old order, and the
      size grows by one unless the queue was full. */
  function Admit<T>(q: seq<T>, maxSize: int, x: T): (r: seq<T>)
    ensures |r| == if IsFull(q, maxSize) then |q| else |q| + 1
    ensures r == q[|q| - (|r| - 1)..] + [x]
  {
    if IsFull(q, maxSize) then
      var kept := q[1..];
      assert kept == q[|q| - (|kept + [x]| - 1)..];
      kept + [x]
    else
      assert q == q[|q| - (|q + [x]| - 1)..];
      q + [x]
  }

  /** A positive capacity the queue respects before an admission it still
      respects afterwards. */
  lemma AdmitStaysBounded<T>(q: seq<T>, maxSize: int, x: T)
    requires 0 < maxSize && |q| <= maxSize
    ensures |Admit(q, maxSize, x)| <= maxSize
    ensures |q| < maxSize ==> Admit(q, maxSize, x) == q + [x]
  {
    if |q| < maxSize {
      assert !IsFull(q, maxSize);
      assert q[|q| - |q|..] == q;
    }
  }

  /** The last `n` elements of `s` (all of `s` when it is shorter). */
  function LastN<T>(s: seq<T>, n: nat): (r: seq<T>)
    ensures |r| == if |s| <= n then |s| else n
    ensures r == s[|s| - |r|..]
  {
    if |s| <= n then
      assert s == s[|s| - |s|..];
      s
    else
      s[|s| - n..]
  }

  /** The queue after admitting each of `xs` in turn, with no deliveries. */
  function AdmitAll<T>(q: seq<T>, maxSize: int, xs: seq<T>): seq<T>
    decreases |xs|
  {
    if xs == [] then q else AdmitAll(Admit(q, maxSize, xs[0]), maxSize, xs[1..])
  }

  lemma LastNOfLastN<T>(s: seq<T>, t: seq<T>, n: nat)
    ensures LastN(LastN(s, n) + t, n) == LastN(s + t, n)
  {
    var a := LastN(s, n);
    assert a + t == (s + t)[|s| - |a|..];
  }

  /** Under a positive capacity, one admission gives the newest `maxSize`
      entries of the old queue with the new entry appended. */
  lemma AdmitIsLastN<T>(q: seq<T>, maxSize: int, x: T)
    requires 0 < maxSize && |q| <= maxSize
    ensures Admit(q, maxSize, x) == LastN(q + [x], maxSize)
  {
    if IsFull(q, maxSize) {
      assert (q + [x])[|q + [x]| - maxSize..] == q[1..] + [x];
    }
  }

  /** With a positive capacity, admitting `xs` leaves exactly the newest
      `maxSize` of the old entries and the submissions, in submission order:
      overflow drops the oldest entries, never the newest. */
  lemma {:induction false} AdmitAllKeepsNewest<T>(q: seq<T>, maxSize: int, xs: seq<T>)
    requires 0 < maxSize && |q| <= maxSize
    ensures AdmitAll(q, maxSize, xs) == LastN(q + xs, maxSize)
    decreases |xs|
  {
    if xs == [] {
      assert q + xs == q;
    } else {
      var q' := Admit(q, maxSize, xs[0]);
      calc {
        AdmitAll(q, maxSize, xs);
        AdmitAll(q', maxSize, xs[1..]);
        { AdmitAllKeepsNewest(q', maxSize, xs[1..]); }
        LastN(q' + xs[1..], maxSize);
        { AdmitIsLastN(q, maxSize, xs[0]); }
        LastN(LastN(q + [xs[0]], maxSize) + xs[1..], maxSize);
        { LastNOfLastN(q + [xs[0]], xs[1..], maxSize); }
        LastN(q + [xs[0]] + xs[1..], maxSize);
        { assert q + [xs[0]] + xs[1..] == q + xs; }
        LastN(q + xs, maxSize);
      }
    }
  }

  /** From an empty queue, N submissions leave the last min(N, maxSize) of
      them, in submission order. */
  lemma SubmissionsKeepNewest<T>(maxSize: int, xs: seq<T>)
    requires 0 < maxSize
    ensures AdmitAll([], maxSize, xs) == LastN(xs, maxSize)
  {
    AdmitAllKeepsNewest([], maxSize, xs);
    assert [] + xs == xs;
  }

  /** With a capacity of zero or less nothing is ever dropped. */
  lemma {:induction false} AdmitAllUnbounded<T>(q: seq<T>, maxSize: int, xs: seq<T>)
    requires maxSize <= 0
    ensures AdmitAll(q, maxSize, xs) == q + xs
    decreases |xs|
  {
    if xs == [] {
      assert q + xs == q;
    } else {
      assert !IsFull(q, maxSize);
      assert AdmitAll(q, maxSize, xs) == AdmitAll(q + [xs[0]], maxSize, xs[1..]);
      AdmitAllUnbounded(q + [xs[0]], maxSize, xs[1..]);
      assert q + [xs[0]] + xs[1..] == q + xs;
    }
  }

  /** One operation on the queue: `emit` admitting a payload, or the worker
      taking the head. */
  datatype QueueOp<T> = Put(x: T) | Take

  function Step<T>(q: seq<T>, maxSize: int, op: QueueOp<T>): seq<T> {
    match op
    case Put(x) => Admit(q, maxSize, x)
    case Take => if q == [] then q else q[1..]
  }

  function Run<T>(q: seq<T>, maxSize: int, ops: seq<QueueOp<T>>): seq<T>
    decreases |ops|
  {
    if ops == [] then q else Run(Step(q, maxSize, ops[0]), maxSize, ops[1..])
  }

  /** With a positive capacity, no interleaving of admissions and takes ever
      makes the queue longer than its capacity. */
  lemma {:induction false} RunStaysBounded<T>(q: seq<T>, maxSize: int, ops: seq<QueueOp<T>>)
    requires 0 < maxSize && |q| <= maxSize
    ensures |Run(q, maxSize, ops)| <= maxSize
    decreases |ops|
  {
    if ops != [] {
      if ops[0].Put? {
        AdmitStaysBounded(q, maxSize, ops[0].x);
      }
      RunStaysBounded(Step(q, maxSize, ops[0]), maxSize, ops[1..]);
    }
  }

  // ---------------------------------------------------------------------
  // Delivery
  // ---------------------------------------------------------------------

  /** The collection path every delivery goes to. */
  const LogsPath := "/logs"

  /** The endpoint the worker posts to: a URL already ending in "/logs" is
      used as it is; otherwise every trailing "/" is removed and "/logs" is
      appended. */
  function ResolveEndpoint(url: string): (endpoint: string)
    ensures EndsWith(endpoint, LogsPath)
    ensures EndsWith(url, LogsPath) ==> endpoint == url
    ensures !EndsWith(url, LogsPath) ==>
      var base := endpoint[..|endpoint| - |LogsPath|];
      && |base| <= |url|
      && base == url[..|base|]
      && (forall i :: |base| <= i < |url| ==> url[i] == '/')
      && (base == [] || base[|base| - 1] != '/')
  {
    if EndsWith(url, LogsPath) then url
    else
      var endpoint := RStripChar(url, '/') + LogsPath;
      assert endpoint[..|endpoint| - |LogsPath|] == RStripChar(url, '/');
      endpoint
  }

  /** Resolving a resolved endpoint changes nothing. */
  lemma ResolveEndpointIdempotent(url: string)
    ensures ResolveEndpoint(ResolveEndpoint(url)) == ResolveEndpoint(url)
  {
  }

  /** A trailing "/" on a URL that does not end in "/logs" makes no difference. */
  lemma ResolveIgnoresTrailingSlash(url: string)
    requires !EndsWith(url, LogsPath)
    ensures ResolveEndpoint(url + "/") == ResolveEndpoint(url)
  {
    var u := url + "/";
    assert u[|u| - 1] == '/';
    assert !EndsWith(u, LogsPath) by {
      if |LogsPath| <= |u| {
        assert u[|u| - |LogsPath|..][4] == '/' != LogsPath[4];
      }
    }
    assert u[..|u| - 1] == url;
  }

  /** But a "/" after "/logs" is not removed: the URL no longer ends in
      "/logs", so the path is appended a second time. */
  lemma ResolveKeepsSlashAfterLogs(url: string)
    requires EndsWith(url, LogsPath)
    ensures ResolveEndpoint(url + "/") == url + "/logs"
  {
    var u := url + "/";
    assert u[|u| - 1] == '/';
    assert !EndsWith(u, LogsPath) by {
      if |LogsPath| <= |u| {
        assert u[|u| - |LogsPath|..][4] == '/' != LogsPath[4];
      }
    }
    assert u[..|u| - 1] == url;
    assert url[|url| - 1] == LogsPath[4];
  }

  /** The concrete case: "http://h/logs/" resolves to "http://h/logs/logs". */
  lemma DoubledLogsPath()
    ensures ResolveEndpoint("http://h/logs/") == "http://h/logs/logs"
  {
    assert EndsWith("http://h/logs", LogsPath);
    ResolveKeepsSlashAfterLogs("http://h/logs");
    assert "http://h/logs" + "/" == "http://h/logs/";
  }

  /** What one post to the collector came back with: an HTTP status, or an
      exception from the transport (timeout, refused connection, ...). */
  datatype DeliveryOutcome = Status(code: int) | TransportError

  /** A 2xx status. */
  predicate IsSuccess(status: int) {
    200 <= status < 300
  }

  /** A "Failed to send log to central logger" line the worker prints,
      with the status when there was one, and the payload it gave up on. */
  datatype Diagnostic =
    | StatusFailure(status: int, payload: Payload)
    | TransportFailure(payload: Payload)

  /** The diagnostic one delivery attempt prints: none for a 2xx status, one
      naming the status for any other status, one without a status for a
      transport error. */
  function Classify(outcome: DeliveryOutcome, payload: Payload): (d: Option<Diagnostic>)
    ensures d.None? <==> outcome.Status? && IsSuccess(outcome.code)
    ensures d.Some? ==> d.value.payload == payload
    ensures d.Some? && outcome.Status? ==> d.value == StatusFailure(outcome.code, payload)
    ensures outcome.TransportError? ==> d == Some(TransportFailure(payload))
  {
    match outcome
    case Status(code) => if IsSuccess(code) then None else Some(StatusFailure(code, payload))
    case TransportError => Some(TransportFailure(payload))
  }

  function Reported(d: Option<Diagnostic>): seq<Diagnostic> {
    if d.Some? then [d.value] else []
  }

  /** The diagnostics printed when the first `n` payloads of `ps` are posted
      in turn, the i-th post meeting the outcome `outs[i]`. */
  function DiagnosticsOf(outs: seq<DeliveryOutcome>, ps: seq<Payload>, n: nat): seq<Diagnostic>
    requires n <= |outs| && n <= |ps|
  {
    if n == 0 then [] else DiagnosticsOf(outs, ps, n - 1) + Reported(Classify(outs[n - 1], ps[n - 1]))
  }

  /** One post: where it went and what it carried. */
  datatype Post = Post(endpoint: string, payload: Payload)

  function PostsTo(endpoint: string, ps: seq<Payload>): (r: seq<Post>)
    ensures |r| == |ps|
    ensures forall i :: 0 <= i < |ps| ==> r[i] == Post(endpoint, ps[i])
  {
    seq(|ps|, i requires 0 <= i < |ps| => Post(endpoint, ps[i]))
  }

  lemma PostsToAppend(endpoint: string, ps: seq<Payload>, p: Payload)
    ensures PostsTo(endpoint, ps + [p]) == PostsTo(endpoint, ps) + [Post(endpoint, p)]
  {
  }

  /** Taking the head of the rest `s[k..]` of a sequence moves one element
      from the rest to the prefix. */
  lemma TakeStep<T>(s: seq<T>, k: nat)
    requires k < |s|
    ensures s[k..] != [] && s[k..][0] == s[k] && s[k..][1..] == s[k + 1..]
    ensures s[..k] + [s[k]] == s[..k + 1]
  {
  }

  /** The indices are strictly increasing. */
  ghost predicate Increasing(s: seq<nat>) {
    forall i, j :: 0 <= i < j < |s| ==> s[i] < s[j]
  }

  /** Each queued payload is the admitted payload at its recorded position. */
  ghost predicate QueuedFrom(queue: seq<Payload>, at: seq<nat>, admitted: seq<Payload>) {
    && |at| == |queue|
    && forall i :: 0 <= i < |queue| ==> at[i] < |admitted| && queue[i] == admitted[at[i]]
  }

  /** Each post went to `endpoint` and carried the admitted payload at its
      recorded position. */
  ghost predicate PostedFrom(posts: seq<Post>, at: seq<nat>, admitted: seq<Payload>, endpoint: string) {
    && |at| == |posts|
    && forall i :: 0 <= i < |posts| ==>
         at[i] < |admitted| && posts[i] == Post(endpoint, admitted[at[i]])
  }

  lemma IncreasingWithoutHead(a: seq<nat>, b: seq<nat>)
    requires Increasing(a + b) && b != []
    ensures Increasing(a + b[1..])
  {
    var s, t := a + b, a + b[1..];
    forall i, j | 0 <= i < j < |t| ensures t[i] < t[j] {
      var i' := if i < |a| then i else i + 1;
      var j' := if j < |a| then j else j + 1;
      assert t[i] == s[i'] && t[j] == s[j'];
    }
  }

  // ---------------------------------------------------------------------
  // The handler
  // ---------------------------------------------------------------------

  class HttpLogHandler {
    /** The configured collector URL. */
    const url: string
    /** `queue_size`: the queue's `maxsize`. */
    const maxSize: int

    /** The payloads waiting in `self._queue`, head first. */
    var queue: seq<Payload>
    /** The queue's count of unfinished tasks: raised by every put, lowered
        by every `task_done`. */
    var unfinishedTasks: nat
    /** Every post the worker made, in order. */
    var posts: seq<Post>
    /** Every diagnostic the worker printed, in order. */
    var diagnostics: seq<Diagnostic>
    /** Every record passed to `handleError`, in order. */
    var handledErrors: seq<LogRecord>

    /** Every payload admitted to the queue, in admission order. */
    ghost var admitted: seq<Payload>
    /** For each queued payload, and for each posted one, its position in
        `admitted`. */
    ghost var queuedAt: seq<nat>
    ghost var postedAt: seq<nat>

    /** The capacity bound (when positive), the task count, and the ordering
        promise: the payloads posted and then those still queued are
        admitted payloads, in the order they were admitted. */
    ghost predicate Valid()
      reads this
    {
      && (0 < maxSize ==> |queue| <= maxSize)
      && |queue| <= unfinishedTasks
      && QueuedFrom(queue, queuedAt, admitted)
      && PostedFrom(posts, postedAt, admitted, ResolveEndpoint(url))
      && Increasing(postedAt + queuedAt)
    }

    /** `HTTPLogHandler(url, queue_size=...)` with an empty queue; the worker
        thread it starts is the `DeliverOne` steps below. */
    constructor (url: string, queueSize: int := 1000)
      ensures Valid()
      ensures this.url == url && maxSize == queueSize
      ensures queue == [] && unfinishedTasks == 0
      ensures posts == [] && diagnostics == [] && handledErrors == []
      ensures admitted == []
    {
      this.url := url;
      maxSize := queueSize;
      queue, unfinishedTasks := [], 0;
      posts, diagnostics, handledErrors := [], [], [];
      admitted, queuedAt, postedAt := [], [], [];
    }

    /** `self._queue.put_nowait(x)`: reports `queue.Full` when the queue is
        full and changes nothing; otherwise appends `x` and counts a task. */
    method PutNowait(x: Payload) returns (full: bool)
      requires Valid()
      modifies this
      ensures Valid()
      ensures full == IsFull(old(queue), maxSize)
      ensures full ==> queue == old(queue) && unfinishedTasks == old(unfinishedTasks) && admitted == old(admitted)
      ensures !full ==>
        queue == old(queue) + [x] && unfinishedTasks == old(unfinishedTasks) + 1 && admitted == old(admitted) + [x]
      ensures posts == old(posts) && diagnostics == old(diagnostics) && handledErrors == old(handledErrors)
    {
      full := IsFull(queue, maxSize);
      if !full {
        queuedAt := queuedAt + [|admitted|];
        admitted := admitted + [x];
        queue := queue + [x];
        unfinishedTasks := unfinishedTasks + 1;
        assert postedAt + queuedAt == old(postedAt + queuedAt) + [|old(admitted)|];
      }
    }

    /** `self._queue.get_nowait()`: reports `queue.Empty` on an empty queue;
        otherwise removes and returns the head. The worker's
        `get(timeout=0.5)` behaves the same when nothing else runs. */
    method GetNowait() returns (x: Option<Payload>)
      requires Valid()
      modifies this
      ensures Valid()
      ensures old(queue) == [] ==> x == None && queue == old(queue) && queuedAt == old(queuedAt)
      ensures old(queue) != [] ==>
        x == Some(old(queue)[0]) && queue == old(queue)[1..] && queuedAt == old(queuedAt)[1..]
      ensures unfinishedTasks == old(unfinishedTasks) && admitted == old(admitted) && postedAt == old(postedAt)
      ensures posts == old(posts) && diagnostics == old(diagnostics) && handledErrors == old(handledErrors)
    {
      if queue == [] {
        x := None;
      } else {
        x := Some(queue[0]);
        IncreasingWithoutHead(postedAt, queuedAt);
        queue, queuedAt := queue[1..], queuedAt[1..];
      }
    }

    /** `emit(record)`. Building the payload may raise; `buildError` says
        which exception it was. A `queue.Full` raised there is caught by the
        overflow clause: the oldest entry is dropped (if any) and, as there is
        no payload, nothing is inserted and `handleError` is not called. Any
        other build failure, or an insert failing with anything but
        `queue.Full` (`insertFails`), calls `handleError(record)` once and
        leaves the queue untouched. Otherwise the payload is admitted by
        `Admit`: appended, after dropping the oldest entry when the queue is
        full. `emit` never raises and never posts. */
    method Emit(record: LogRecord, serviceEnv: Option<string>, buildError: BuildError, insertFails: bool)
      requires Valid()
      modifies this
      ensures Valid()
      ensures posts == old(posts) && diagnostics == old(diagnostics)
      ensures var p := BuildPayload(record, serviceEnv);
        if p.None? && buildError == RaisedFull then
          && queue == (if old(queue) == [] then [] else old(queue)[1..])
          && unfinishedTasks == old(unfinishedTasks)
          && admitted == old(admitted)
          && handledErrors == old(handledErrors)
        else if p.None? || insertFails then
          && queue == old(queue)
          && unfinishedTasks == old(unfinishedTasks)
          && admitted == old(admitted)
          && handledErrors == old(handledErrors) + [record]
        else
          && queue == Admit(old(queue), maxSize, p.value)
          && unfinishedTasks == old(unfinishedTasks) + 1
          && admitted == old(admitted) + [p.value]
          && handledErrors == old(handledErrors)
    {
      var payload := BuildPayload(record, serviceEnv);
      if payload.None? && buildError == RaisedFull {
        // queue.Full with `payload` still None: evict, skip the insert
        var _ := GetNowait();
        return;
      }
      if payload.None? || insertFails {
        handledErrors := handledErrors + [record];
        return;
      }
      var full := PutNowait(payload.value);
      if full {
        // queue.Full: drop the oldest entry, then insert again
        var oldest := GetNowait();
        if oldest.Some? {
          full := PutNowait(payload.value);
          assert !full;
        }
      }
    }

    /** One pass of the worker that finds an entry: take the head, post it
        once to the resolved endpoint, print a diagnostic unless the outcome
        is a 2xx status, and mark the task done. The entry is never put back.
        On an empty queue the pass times out and nothing changes. */
    method DeliverOne(outcome: DeliveryOutcome) returns (taken: Option<Payload>)
      requires Valid()
      modifies this
      ensures Valid()
      ensures handledErrors == old(handledErrors) && admitted == old(admitted)
      ensures old(queue) == [] ==>
        && taken == None
        && queue == old(queue)
        && posts == old(posts)
        && diagnostics == old(diagnostics)
        && unfinishedTasks == old(unfinishedTasks)
      ensures old(queue) != [] ==>
        && taken == Some(old(queue)[0])
        && queue == old(queue)[1..]
        && posts == old(posts) + [Post(ResolveEndpoint(url), old(queue)[0])]
        && diagnostics == old(diagnostics) + Reported(Classify(outcome, old(queue)[0]))
        && unfinishedTasks == old(unfinishedTasks) - 1
    {
      ghost var order := postedAt + queuedAt;
      ghost var headAt := if queuedAt == [] then 0 else queuedAt[0];
      taken := GetNowait();
      if taken.None? {
        return;
      }
      var payload := taken.value;
      postedAt := postedAt + [headAt];
      assert postedAt + queuedAt == order;
      var endpoint := ResolveEndpoint(url);
      posts := posts + [Post(endpoint, payload)];
      var report := Classify(outcome, payload);
      if report.Some? {
        diagnostics := diagnostics + [report.value];
      }
      // task_done, in the `finally` clause
      unfinishedTasks := unfinishedTasks - 1;
    }

    /** After `i` of the passes `Drain` makes, starting from the queue `q0`,
        the posts `p0`, the diagnostics `d0` and the task count `u0`: the
        entries `taken` were taken from the head of `q0` in order, one per
        pass while any were left, each posted once, and the diagnostics of
        those posts printed. */
    ghost predicate DrainedSoFar(outcomes: seq<DeliveryOutcome>, i: nat, taken: seq<Payload>,
                                 q0: seq<Payload>, p0: seq<Post>, d0: seq<Diagnostic>, u0: nat)
      reads this
    {
      && i <= |outcomes|
      && |taken| == (if i < |q0| then i else |q0|)
      && taken == q0[..|taken|] && queue == q0[|taken|..]
      && posts == p0 + PostsTo(ResolveEndpoint(url), taken)
      && diagnostics == d0 + DiagnosticsOf(outcomes, q0, |taken|)
      && unfinishedTasks == u0 - |taken|
    }

    /** The i-th pass of `Drain`: one `DeliverOne`, and the entry it took, if
        any, added to `taken`. */
    method DrainPass(outcomes: seq<DeliveryOutcome>, i: nat, taken: seq<Payload>,
                     ghost q0: seq<Payload>, ghost p0: seq<Post>, ghost d0: seq<Diagnostic>, ghost u0: nat)
      returns (taken': seq<Payload>)
      requires Valid() && i < |outcomes| && DrainedSoFar(outcomes, i, taken, q0, p0, d0, u0)
      modifies this
      ensures Valid() && DrainedSoFar(outcomes, i + 1, taken', q0, p0, d0, u0)
      ensures handledErrors == old(handledErrors) && admitted == old(admitted)
    {
      if |taken| < |q0| {
        TakeStep(q0, |taken|);
      }
      var got := DeliverOne(outcomes[i]);
      taken' := taken;
      if got.Some? {
        PostsToAppend(ResolveEndpoint(url), taken, got.value);
        taken' := taken + [got.value];
      }
    }

    /** The worker loop run for `|outcomes|` passes, the i-th post meeting
        `outcomes[i]`: the first k = min(|outcomes|, |queue|) entries are
        taken from the head in queue order and each posted once; the later
        passes find the queue empty. */
    method Drain(outcomes: seq<DeliveryOutcome>) returns (taken: seq<Payload>)
      requires Valid()
      modifies this
      ensures Valid()
      ensures var k := if |outcomes| < |old(queue)| then |outcomes| else |old(queue)|;
        && taken == old(queue)[..k]
        && queue == old(queue)[k..]
        && posts == old(posts) + PostsTo(ResolveEndpoint(url), taken)
        && diagnostics == old(diagnostics) + DiagnosticsOf(outcomes, old(queue), k)
        && unfinishedTasks == old(unfinishedTasks) - k
      ensures handledErrors == old(handledErrors) && admitted == old(admitted)
    {
      ghost var q0, p0, d0, u0 := queue, posts, diagnostics, unfinishedTasks;
      taken := [];
      var i := 0;
      while i < |outcomes|
        invariant Valid() && DrainedSoFar(outcomes, i, taken, q0, p0, d0, u0)
        invariant handledErrors == old(handledErrors) && admitted == old(admitted)
      {
        taken := DrainPass(outcomes, i, taken, q0, p0, d0, u0);
        i := i + 1;
      }
    }
  }
}
