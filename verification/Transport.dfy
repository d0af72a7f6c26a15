/**
 * One SDK call: attempts with a retry loop, response classification, and the question whether a
 * mutation may have been delivered. The network is a script of attempts.
 */
module Transport {
  import opened Prelude
  import opened JsonModel
  import opened Delays
  import Admission

  datatype Safety = ReadOnly | Mutation | PaidMutation

  datatype TimeoutPhase = PermitWait | QpsWait | RequestWait | BodyWait

  datatype FailureKind = Connect | Connection | RequestFault | BodyFault | OtherFault

  datatype Stage = Sending | ResponseHeaders | ResponseBody | JsonDecode | ModelDecode

  datatype ApiError = ApiError(status: nat, machineType: Option<string>, message: Option<string>)

  datatype Error =
    | Api(api: ApiError)
    | RateLimited(retryAfter: Option<nat>)
    | Failed(kind: FailureKind)
    | Timeout(phase: TimeoutPhase)
    | ResponseTooLarge(limit: nat)
    | Decode
    | InvalidRequest
    | OutcomeUnknown(stage: Stage, status: Option<nat>)

  datatype RetryPolicy = RetryPolicy(
    maxAttempts: nat, baseDelay: nat, maxDelay: nat, maxRetryAfter: nat, jitter: Ratio)

  datatype Client = Client(
    admission: Admission.Config, requestTimeout: nat, maxResponseBytes: nat, retry: RetryPolicy)

  /** What `RetryPolicy::validate` and the builder insist on. */
  ghost predicate ValidClient(c: Client) {
    && Admission.ValidConfig(c.admission)
    && c.requestTimeout > 0 && c.maxResponseBytes > 0
    && c.retry.maxAttempts > 0 && ValidRatio(c.retry.jitter) && c.retry.baseDelay <= c.retry.maxDelay
  }

  // ---------------------------------------------------------------- the network's side

  type Byte = bv8

  datatype Chunk = Bytes(data: seq<Byte>) | Broken

  datatype Body = Stalled | Arrives(chunks: seq<Chunk>, took: nat)

  /** `json` is the parsed body, if it parses; `decodes` says whether the target model accepts it. */
  datatype Headers = Headers(
    status: nat, retryAfter: Option<nat>, contentLength: Option<nat>, body: Body, json: Option<Json>, decodes: bool)

  datatype SendFault = SendFault(isConnect: bool, isTimeout: bool, isRequest: bool, isBody: bool)

  datatype Reply = NoReply | Fault(fault: SendFault, took: nat) | Replied(headers: Headers, took: nat)

  datatype AdmissionEnd = Granted | PermitTimedOut | QpsTimedOut | SemaphoreClosed

  /**
   * One attempt. `waited` is the admission time, `reached` the truth about delivery, and `backoff`
   * the delay that would be drawn after it.
   */
  datatype Attempt = Attempt(
    builds: bool, admission: AdmissionEnd, waited: nat, reply: Reply, reached: bool, backoff: nat)

  /** The request was handed to the HTTP client. */
  predicate Handed(a: Attempt) {
    a.builds && a.admission.Granted?
  }

  predicate Delivered(a: Attempt) {
    Handed(a) && a.reached
  }

  function BackoffBase(p: RetryPolicy, attempt: nat): nat {
    var exponent := if attempt == 0 then 0 else attempt - 1;
    Min(p.baseDelay * Pow2(Min(exponent, 31)), p.maxDelay)
  }

  /** Attempt number `n` respects the timeouts, the jitter range, and what the signals mean. */
  ghost predicate ValidAttempt(c: Client, n: nat, a: Attempt)
    requires ValidClient(c)
  {
    && a.waited <= Admission.Longest(c.admission)
    && Jittered(c.retry.jitter, BackoffBase(c.retry, n), a.backoff)
    && match a.reply
       case NoReply => true
       case Fault(fault, took) => took <= c.requestTimeout && (fault.isConnect ==> !a.reached)
       case Replied(headers, took) =>
         && took <= c.requestTimeout && a.reached
         && (headers.body.Arrives? ==> headers.body.took <= c.requestTimeout)
  }

  ghost predicate ValidScript(c: Client, script: seq<Attempt>)
    requires ValidClient(c)
  {
    |script| >= c.retry.maxAttempts && forall i :: 0 <= i < |script| ==> ValidAttempt(c, i + 1, script[i])
  }

  // ---------------------------------------------------------------- reading the body

  datatype ReadError = TooLarge | BrokenStream

  function Concat(chunks: seq<Chunk>): seq<Byte>
    requires forall chunk :: chunk in chunks ==> chunk.Bytes?
  {
    if chunks == [] then [] else Concat(chunks[..|chunks| - 1]) + chunks[|chunks| - 1].data
  }

  /** The chunks up to and including the first that breaks or goes over the limit. */
  function ReadFrom(chunks: seq<Chunk>, limit: nat, buffer: seq<Byte>): Result<seq<Byte>, ReadError> {
    if chunks == [] then Ok(buffer)
    else if chunks[0].Broken? then Err(BrokenStream)
    else if |buffer| + |chunks[0].data| > limit then Err(TooLarge)
    else ReadFrom(chunks[1..], limit, buffer + chunks[0].data)
  }

  /** Chunk `i` is the first broken one and everything before it fits. */
  predicate BreaksAt(chunks: seq<Chunk>, limit: nat, i: nat)
    requires i < |chunks|
  {
    chunks[i].Broken? && (forall j :: 0 <= j < i ==> chunks[j].Bytes?) && |Concat(chunks[..i])| <= limit
  }

  /**
   * Reads the whole body or fails at the first chunk that breaks or would exceed the limit; the
   * buffer never grows past the limit.
   */
  method ReadBounded(chunks: seq<Chunk>, limit: nat) returns (r: Result<seq<Byte>, ReadError>)
    ensures r == ReadFrom(chunks, limit, [])
    ensures r.Ok? <==> (forall chunk :: chunk in chunks ==> chunk.Bytes?) && |Concat(chunks)| <= limit
    ensures r.Ok? ==> r.value == Concat(chunks)
    ensures r == Err(BrokenStream) <==> exists i :: 0 <= i < |chunks| && BreaksAt(chunks, limit, i)
  {
    var buffer: seq<Byte> := [];
    for i := 0 to |chunks|
      invariant forall j :: 0 <= j < i ==> chunks[j].Bytes?
      invariant buffer == Concat(chunks[..i]) && |buffer| <= limit
      invariant ReadFrom(chunks, limit, []) == ReadFrom(chunks[i..], limit, buffer)
    {
      assert chunks[..i + 1][..i] == chunks[..i];
      assert chunks[i..][1..] == chunks[i + 1..];
      if chunks[i].Broken? {
        assert BreaksAt(chunks, limit, i) && chunks[i] in chunks;
        return Err(BrokenStream);
      }
      if |buffer| + |chunks[i].data| > limit {
        PrefixTooLong(chunks, i + 1, limit);
        return Err(TooLarge);
      }
      buffer := buffer + chunks[i].data;
    }
    assert chunks[..|chunks|] == chunks;
    return Ok(buffer);
  }

  /** Once a readable prefix is over the limit, so is every longer one. */
  lemma PrefixTooLong(chunks: seq<Chunk>, n: nat, limit: nat)
    requires n <= |chunks| && (forall j :: 0 <= j < n ==> chunks[j].Bytes?) && |Concat(chunks[..n])| > limit
    ensures (forall chunk :: chunk in chunks ==> chunk.Bytes?) ==> |Concat(chunks)| > limit
    ensures forall i :: n <= i <= |chunks| && (forall j :: 0 <= j < i ==> chunks[j].Bytes?) ==>
      |Concat(chunks[..i])| > limit
  {
    forall i | n <= i <= |chunks| && (forall j :: 0 <= j < i ==> chunks[j].Bytes?)
      ensures |Concat(chunks[..i])| > limit
    {
      PrefixGrows(chunks, n, i);
    }
    assert chunks[..|chunks|] == chunks;
  }

  lemma PrefixGrows(chunks: seq<Chunk>, n: nat, i: nat)
    requires n <= i <= |chunks| && forall j :: 0 <= j < i ==> chunks[j].Bytes?
    ensures |Concat(chunks[..n])| <= |Concat(chunks[..i])|
  {
    if n < i {
      assert chunks[..i][..i - 1] == chunks[..i - 1];
      PrefixGrows(chunks, n, i - 1);
    }
  }

  // ---------------------------------------------------------------- one attempt

  datatype AttemptFailure = AttemptFailure(error: Error, retryable: bool, retryAfter: Option<nat>)

  function Final(error: Error): AttemptFailure {
    AttemptFailure(error, false, None)
  }

  function Unknown(stage: Stage, status: Option<nat>): Error {
    OutcomeUnknown(stage, status)
  }

  function SendTimeout(safety: Safety): AttemptFailure {
    if safety.ReadOnly? then AttemptFailure(Timeout(RequestWait), true, None) else Final(Unknown(Sending, None))
  }

  function SendError(safety: Safety, fault: SendFault): AttemptFailure {
    if fault.isConnect then AttemptFailure(Failed(Connect), safety.ReadOnly?, None)
    else if !safety.ReadOnly? then Final(Unknown(Sending, None))
    else
      var error := if fault.isTimeout then Timeout(RequestWait)
        else Failed(if fault.isRequest then RequestFault else if fault.isBody then BodyFault else Connection);
      AttemptFailure(error, true, None)
  }

  function AfterDelivery(safety: Safety, stage: Stage, status: nat, readOnlyError: Error): AttemptFailure {
    Final(if safety.ReadOnly? then readOnlyError else Unknown(stage, Some(status)))
  }

  function TopLevelFailure(value: Json): bool {
    value.Object? && "success" in value.fields
    && var success := value.fields["success"];
      success == Boolean(false) || success == Integer(0) || success == Text("0")
  }

  function FirstText(fields: map<string, Json>, keys: seq<string>): Option<string> {
    if keys == [] then None
    else if keys[0] in fields && fields[keys[0]].Text? then Some(fields[keys[0]].text)
    else FirstText(fields, keys[1..])
  }

  function DecodeApiError(status: nat, value: Json): ApiError {
    if !value.Object? then ApiError(status, None, None)
    else ApiError(status,
      FirstText(value.fields, ["type", "error_type", "code"]),
      FirstText(value.fields, ["message", "error", "description"]))
  }

  function ClampRetryAfter(c: Client, header: Option<nat>): Option<nat> {
    if header.None? then None else Some(Min(header.value, c.retry.maxRetryAfter))
  }

  function ClassifyBody(c: Client, safety: Safety, h: Headers, canRetry: bool): Result<Json, AttemptFailure>
    requires h.body.Arrives?
  {
    match ReadFrom(h.body.chunks, c.maxResponseBytes, [])
    case Err(TooLarge) => Err(AfterDelivery(safety, ResponseBody, h.status, ResponseTooLarge(c.maxResponseBytes)))
    case Err(BrokenStream) => Err(AfterDelivery(safety, ResponseBody, h.status, Failed(BodyFault)))
    case Ok(_) =>
      if h.status in {500, 502, 503, 504} && safety.ReadOnly? && canRetry then
        Err(AttemptFailure(Api(ApiError(h.status, None, None)), true, None))
      else if h.json.None? then Err(AfterDelivery(safety, JsonDecode, h.status, Decode))
      else if !(200 <= h.status < 300) || TopLevelFailure(h.json.value) then
        Err(Final(Api(DecodeApiError(h.status, h.json.value))))
      else if !h.decodes then Err(AfterDelivery(safety, ModelDecode, h.status, Decode))
      else Ok(h.json.value)
  }

  function ClassifyReply(c: Client, safety: Safety, h: Headers, canRetry: bool): Result<Json, AttemptFailure> {
    if h.status == 429 then
      var retryAfter := ClampRetryAfter(c, h.retryAfter);
      Err(if safety.ReadOnly? then AttemptFailure(RateLimited(retryAfter), true, retryAfter)
        else Final(RateLimited(retryAfter)))
    else if h.contentLength.Some? && h.contentLength.value > c.maxResponseBytes then
      Err(AfterDelivery(safety, ResponseHeaders, h.status, ResponseTooLarge(c.maxResponseBytes)))
    else if h.body.Stalled? then Err(AfterDelivery(safety, ResponseBody, h.status, Timeout(BodyWait)))
    else ClassifyBody(c, safety, h, canRetry)
  }

  function RunAttempt(c: Client, safety: Safety, a: Attempt, canRetry: bool): Result<Json, AttemptFailure> {
    if !a.builds then Err(Final(InvalidRequest))
    else match a.admission
    case PermitTimedOut => Err(Final(Timeout(PermitWait)))
    case QpsTimedOut => Err(Final(Timeout(QpsWait)))
    case SemaphoreClosed => Err(Final(Failed(OtherFault)))
    case Granted =>
      match a.reply
      case NoReply => Err(SendTimeout(safety))
      case Fault(fault, _) => Err(SendError(safety, fault))
      case Replied(headers, _) => ClassifyReply(c, safety, headers, canRetry)
  }

  /** How long the attempt takes; headers and body each have a full request timeout. */
  function Elapsed(c: Client, a: Attempt): nat {
    if !a.builds then 0
    else if !a.admission.Granted? then a.waited
    else match a.reply
    case NoReply => a.waited + c.requestTimeout
    case Fault(_, took) => a.waited + took
    case Replied(h, took) =>
      if h.status == 429 || (h.contentLength.Some? && h.contentLength.value > c.maxResponseBytes) then a.waited + took
      else if h.body.Stalled? then a.waited + took + c.requestTimeout
      else a.waited + took + h.body.took
  }

  // ---------------------------------------------------------------- the retry loop

  /** What a whole call did: result, attempts, time, requests handed over, requests delivered. */
  datatype Outcome = Outcome(result: Result<Json, Error>, attempts: nat, elapsed: nat, handed: nat, delivered: nat)

  function MaxAttempts(c: Client, safety: Safety): nat {
    if safety.ReadOnly? then c.retry.maxAttempts else 1
  }

  function One(b: bool): nat {
    if b then 1 else 0
  }

  function RetryDelay(f: AttemptFailure, a: Attempt): nat {
    if f.retryAfter.Some? then f.retryAfter.value else a.backoff
  }

  /** The run from attempt number `n` on. */
  function ExecuteFrom(c: Client, safety: Safety, script: seq<Attempt>, n: nat): Outcome
    requires 1 <= n <= MaxAttempts(c, safety) <= |script|
    decreases MaxAttempts(c, safety) - n
  {
    var a := script[n - 1];
    match RunAttempt(c, safety, a, n < MaxAttempts(c, safety))
    case Ok(value) => Outcome(Ok(value), 1, Elapsed(c, a), One(Handed(a)), One(Delivered(a)))
    case Err(f) =>
      if f.retryable && n < MaxAttempts(c, safety) then
        var rest := ExecuteFrom(c, safety, script, n + 1);
        Outcome(rest.result, 1 + rest.attempts, Elapsed(c, a) + RetryDelay(f, a) + rest.elapsed,
          One(Handed(a)) + rest.handed, One(Delivered(a)) + rest.delivered)
      else Outcome(Err(f.error), 1, Elapsed(c, a), One(Handed(a)), One(Delivered(a)))
  }

  /** `execute`: a request that fails validation is never attempted. */
  method Execute(c: Client, safety: Safety, requestOk: bool, script: seq<Attempt>) returns (o: Outcome)
    requires 1 <= MaxAttempts(c, safety) <= |script|
    ensures requestOk ==> o == ExecuteFrom(c, safety, script, 1)
    ensures !requestOk ==> o == Outcome(Err(InvalidRequest), 0, 0, 0, 0)
  {
    if !requestOk {
      return Outcome(Err(InvalidRequest), 0, 0, 0, 0);
    }
    var n, elapsed, handed, delivered := 1, 0, 0, 0;
    while true
      invariant 1 <= n <= MaxAttempts(c, safety)
      invariant var rest, all := ExecuteFrom(c, safety, script, n), ExecuteFrom(c, safety, script, 1);
        && all.result == rest.result && all.attempts == n - 1 + rest.attempts
        && all.elapsed == elapsed + rest.elapsed
        && all.handed == handed + rest.handed && all.delivered == delivered + rest.delivered
      decreases MaxAttempts(c, safety) - n
    {
      var a := script[n - 1];
      var attempt := RunAttempt(c, safety, a, n < MaxAttempts(c, safety));
      elapsed := elapsed + Elapsed(c, a);
      handed := handed + One(Handed(a));
      delivered := delivered + One(Delivered(a));
      match attempt {
        case Ok(value) => return Outcome(Ok(value), n, elapsed, handed, delivered);
        case Err(f) =>
          if !(f.retryable && n < MaxAttempts(c, safety)) {
            return Outcome(Err(f.error), n, elapsed, handed, delivered);
          }
          elapsed := elapsed + RetryDelay(f, a);
      }
      n := n + 1;
    }
  }

  // ---------------------------------------------------------------- delivery

  /** The errors after which a mutation may or did reach the provider. */
  predicate MayHaveActed(e: Error) {
    e.Api? || e.RateLimited? || e.OutcomeUnknown?
  }

  /**
   * A mutation is handed over at most once; any error other than an API answer, a rate limit or an
   * unknown outcome means that nothing was delivered, and an unknown outcome that it was handed over.
   */
  lemma MutationDelivery(c: Client, safety: Safety, script: seq<Attempt>)
    requires ValidClient(c) && ValidScript(c, script) && !safety.ReadOnly?
    ensures var o := ExecuteFrom(c, safety, script, 1);
      && o.attempts == 1 && o.handed <= 1
      && (o.result.Err? && !MayHaveActed(o.result.error) ==> o.delivered == 0)
      && (o.result.Err? && MayHaveActed(o.result.error) ==> o.handed == 1)
      && (o.result.Ok? ==> o.delivered == 1)
  {
    assert ValidAttempt(c, 1, script[0]);
  }

  /** A read-only call is handed over at most once per attempt and never ends in an unknown outcome. */
  lemma {:induction false} ReadOnlyDelivery(c: Client, script: seq<Attempt>, n: nat)
    requires ValidClient(c) && ValidScript(c, script) && 1 <= n <= c.retry.maxAttempts
    ensures var o := ExecuteFrom(c, ReadOnly, script, n);
      && 1 <= o.attempts <= c.retry.maxAttempts - n + 1 && o.handed <= o.attempts
      && !(o.result.Err? && o.result.error.OutcomeUnknown?)
    decreases c.retry.maxAttempts - n
  {
    hide RunAttempt, Elapsed, Handed, Delivered, ValidAttempt;
    ReadOnlyIsNeverUnknown(c, script[n - 1], n < c.retry.maxAttempts);
    if n < c.retry.maxAttempts {
      ReadOnlyDelivery(c, script, n + 1);
    }
  }

  lemma ReadOnlyIsNeverUnknown(c: Client, a: Attempt, canRetry: bool)
    ensures var r := RunAttempt(c, ReadOnly, a, canRetry);
      r.Err? ==> !r.error.error.OutcomeUnknown?
  {
  }

  /**
   * A read-only call gives up early only on a final failure: a retryable error is returned exactly by
   * the last permitted attempt, and every earlier attempt failed retryably.
   */
  lemma {:induction false} RetriesAreExhaustive(c: Client, script: seq<Attempt>, n: nat, k: nat)
    requires ValidClient(c) && ValidScript(c, script) && 1 <= n <= c.retry.maxAttempts
    requires n <= k < n + ExecuteFrom(c, ReadOnly, script, n).attempts
    ensures n + ExecuteFrom(c, ReadOnly, script, n).attempts - 1 <= c.retry.maxAttempts
    ensures var attempt := RunAttempt(c, ReadOnly, script[k - 1], k < c.retry.maxAttempts);
      if k == n + ExecuteFrom(c, ReadOnly, script, n).attempts - 1 then
        match attempt
        case Ok(value) => ExecuteFrom(c, ReadOnly, script, n).result == Ok(value)
        case Err(f) =>
          ExecuteFrom(c, ReadOnly, script, n).result == Err(f.error) && (f.retryable ==> k == c.retry.maxAttempts)
      else attempt.Err? && attempt.error.retryable
    decreases c.retry.maxAttempts - n
  {
    hide RunAttempt, ValidAttempt, Elapsed;
    if n < c.retry.maxAttempts {
      ReadOnlyDelivery(c, script, n + 1);
      if k > n {
        RetriesAreExhaustive(c, script, n + 1, k);
      }
    }
  }

  /** Success is genuine: a 2xx answer, fully read within the limit, parsed, no failure envelope, decoded. */
  lemma SuccessIsGenuine(c: Client, safety: Safety, a: Attempt, canRetry: bool)
    ensures RunAttempt(c, safety, a, canRetry).Ok? <==> a.reply.Replied? && Handed(a) && Genuine(c, a.reply.headers)
    ensures RunAttempt(c, safety, a, canRetry).Ok? ==>
      a.reply.headers.json == Some(RunAttempt(c, safety, a, canRetry).value)
  {
  }

  predicate Genuine(c: Client, h: Headers) {
    && 200 <= h.status < 300 && Readable(c, h)
    && h.json.Some? && !SaysFailed(h.json.value) && h.decodes
  }

  /** A failure told in the body: an object whose own success field is false, the integer 0 or the text "0". */
  predicate SaysFailed(value: Json) {
    value.Object? && "success" in value.fields
    && (value.fields["success"] == Boolean(false)
        || value.fields["success"] == Integer(0)
        || value.fields["success"] == Text("0"))
  }

  /** No rate limit that a call reports asks for more than the configured maximum. */
  lemma {:induction false} ReportedPauseIsClamped(c: Client, safety: Safety, script: seq<Attempt>, n: nat)
    requires 1 <= n <= MaxAttempts(c, safety) <= |script|
    ensures var r := ExecuteFrom(c, safety, script, n).result;
      r.Err? && r.error.RateLimited? && r.error.retryAfter.Some? ==> r.error.retryAfter.value <= c.retry.maxRetryAfter
    decreases MaxAttempts(c, safety) - n
  {
    hide Elapsed, Handed, Delivered;
    if n < MaxAttempts(c, safety) {
      ReportedPauseIsClamped(c, safety, script, n + 1);
    }
  }

  // ---------------------------------------------------------------- what is retried, and what remains unknown

  /** The provider's answer settles a request: a rate limit, or a readable JSON answer that is an error or decodes. */
  predicate Settles(c: Client, h: Headers) {
    h.status == 429 || (Readable(c, h) && h.json.Some?
      && (!(200 <= h.status < 300) || SaysFailed(h.json.value) || h.decodes))
  }

  predicate Readable(c: Client, h: Headers) {
    && (h.contentLength.Some? ==> h.contentLength.value <= c.maxResponseBytes)
    && h.body.Arrives? && ReadFrom(h.body.chunks, c.maxResponseBytes, []).Ok?
  }

  /** A mutation ends unknown exactly when it was handed over, surely not refused a connection, and not settled. */
  lemma UnknownIffUnsettled(c: Client, safety: Safety, a: Attempt, canRetry: bool)
    requires !safety.ReadOnly?
    ensures var r := RunAttempt(c, safety, a, canRetry);
      r.Err? && r.error.error.OutcomeUnknown? <==>
        && Handed(a)
        && (a.reply.Fault? ==> !a.reply.fault.isConnect)
        && (a.reply.Replied? ==> !Settles(c, a.reply.headers))
  {
  }

  /**
   * A read-only attempt is retryable exactly after a missing or faulty reply, a rate limit, or, while
   * attempts remain, a readable answer with one of four gateway statuses.
   */
  lemma RetriedIff(c: Client, a: Attempt, canRetry: bool)
    ensures var r := RunAttempt(c, ReadOnly, a, canRetry);
      r.Err? && r.error.retryable <==>
        && Handed(a)
        && (a.reply.Replied? ==>
              || a.reply.headers.status == 429
              || (canRetry && a.reply.headers.status in {500, 502, 503, 504} && Readable(c, a.reply.headers)))
  {
  }

  /** Each timeout names the wait that ran out; a mutation never reports one from after the hand-over. */
  lemma TimeoutsNameTheirWait(c: Client, safety: Safety, a: Attempt, canRetry: bool)
    requires a.builds
    ensures var r := RunAttempt(c, safety, a, canRetry);
      && (r.Err? && r.error.error == Timeout(PermitWait) <==> a.admission.PermitTimedOut?)
      && (r.Err? && r.error.error == Timeout(QpsWait) <==> a.admission.QpsTimedOut?)
      && (r.Err? && r.error.error == Timeout(RequestWait) <==>
            safety.ReadOnly? && Handed(a)
            && (a.reply.NoReply? || (a.reply.Fault? && a.reply.fault.isTimeout && !a.reply.fault.isConnect)))
      && (r.Err? && r.error.error == Timeout(BodyWait) <==>
            safety.ReadOnly? && Handed(a) && a.reply.Replied? && a.reply.headers.body.Stalled?
            && a.reply.headers.status != 429
            && (a.reply.headers.contentLength.Some? ==> a.reply.headers.contentLength.value <= c.maxResponseBytes))
  {
  }

  // ---------------------------------------------------------------- what a failure tells

  /**
   * A readable 2xx answer that parsed is an API error exactly if its body says that the request failed,
   * for a paid mutation as for a read.
   */
  lemma FailedIffBodySaysSo(c: Client, safety: Safety, a: Attempt, canRetry: bool)
    requires Handed(a) && a.reply.Replied? && 200 <= a.reply.headers.status < 300
    requires Readable(c, a.reply.headers) && a.reply.headers.json.Some?
    ensures var r, value := RunAttempt(c, safety, a, canRetry), a.reply.headers.json.value;
      r.Err? && r.error.error.Api? <==>
        value.Object? && "success" in value.fields
        && (value.fields["success"] == Boolean(false)
            || value.fields["success"] == Integer(0)
            || value.fields["success"] == Text("0"))
  {
  }

  /** The text under a key, if there is one. */
  predicate Tells(value: Json, key: string, text: string) {
    value.Object? && key in value.fields && value.fields[key] == Text(text)
  }

  predicate Silent(value: Json, key: string) {
    value.Object? ==> key in value.fields ==> !value.fields[key].Text?
  }

  /** The first of three keys that holds a text holds this one. */
  predicate FirstTells(value: Json, a: string, b: string, c: string, text: string) {
    || Tells(value, a, text)
    || (Silent(value, a) && Tells(value, b, text))
    || (Silent(value, a) && Silent(value, b) && Tells(value, c, text))
  }

  /**
   * What an API error carries: the answer's status, the machine type from "type", "error_type" or
   * "code", and the message from "message", "error" or "description", each from the first key with a text.
   * Only a retryable gateway answer is reported without looking at its body.
   */
  lemma ApiErrorTells(c: Client, safety: Safety, a: Attempt, canRetry: bool, text: string)
    requires var r := RunAttempt(c, safety, a, canRetry); r.Err? && r.error.error.Api?
    ensures Handed(a) && a.reply.Replied?
    ensures var r, h := RunAttempt(c, safety, a, canRetry), a.reply.headers;
      var api := r.error.error.api;
      && api.status == h.status
      && (if r.error.retryable then api.machineType.None? && api.message.None?
          else
            h.json.Some?
            && (api.machineType == Some(text) <==> FirstTells(h.json.value, "type", "error_type", "code", text))
            && (api.message == Some(text) <==> FirstTells(h.json.value, "message", "error", "description", text)))
  {
    var r, h := RunAttempt(c, safety, a, canRetry), a.reply.headers;
    if !r.error.retryable && h.json.value.Object? {
      FirstTextTells(h.json.value, "type", "error_type", "code", text);
      FirstTextTells(h.json.value, "message", "error", "description", text);
    }
    hide FirstText, FirstTells, ReadFrom;
  }

  lemma FirstTextTells(value: Json, a: string, b: string, c: string, text: string)
    requires value.Object?
    ensures FirstText(value.fields, [a, b, c]) == Some(text) <==> FirstTells(value, a, b, c, text)
  {
    OneTextFirst(value.fields, a, [b, c]);
    OneTextFirst(value.fields, b, [c]);
    OneTextFirst(value.fields, c, []);
    assert [a, b, c] == [a] + [b, c] && [b, c] == [b] + [c] && [c] == [c] + [];
  }

  lemma OneTextFirst(fields: map<string, Json>, key: string, rest: seq<string>)
    ensures FirstText(fields, [key] + rest)
      == if key in fields && fields[key].Text? then Some(fields[key].text) else FirstText(fields, rest)
    ensures FirstText(fields, []) == None
  {
    assert ([key] + rest)[1..] == rest;
  }

  /**
   * A rate limit is reported exactly for a 429 answer, with the server's wait cut down to the configured
   * maximum; a retry waits just as long, and the drawn backoff only if the server named no wait.
   */
  lemma RateLimitTells(c: Client, safety: Safety, a: Attempt, canRetry: bool)
    ensures var r := RunAttempt(c, safety, a, canRetry);
      r.Err? && r.error.error.RateLimited? <==> Handed(a) && a.reply.Replied? && a.reply.headers.status == 429
    ensures var r := RunAttempt(c, safety, a, canRetry);
      r.Err? && r.error.error.RateLimited? ==>
        var asked := a.reply.headers.retryAfter;
        && (asked.None? ==> r.error.error.retryAfter == None)
        && (asked.Some? && asked.value <= c.retry.maxRetryAfter ==> r.error.error.retryAfter == asked)
        && (asked.Some? && asked.value > c.retry.maxRetryAfter ==>
              r.error.error.retryAfter == Some(c.retry.maxRetryAfter))
        && (r.error.retryable ==>
              RetryDelay(r.error, a)
              == if asked.None? then a.backoff else r.error.error.retryAfter.value)
    ensures var r := RunAttempt(c, safety, a, canRetry);
      r.Err? && r.error.retryable && !r.error.error.RateLimited? ==> RetryDelay(r.error, a) == a.backoff
  {
  }

  /** The backoff before jitter starts at the base delay, doubles up to attempt 32, and stops at the cap. */
  lemma BackoffDoubles(p: RetryPolicy, n: nat)
    requires n >= 1 && p.baseDelay <= p.maxDelay
    ensures BackoffBase(p, 1) == p.baseDelay
    ensures n < 32 ==> BackoffBase(p, n + 1) == Min(2 * BackoffBase(p, n), p.maxDelay)
    ensures n >= 32 ==> BackoffBase(p, n + 1) == BackoffBase(p, n)
    ensures p.baseDelay <= BackoffBase(p, n) <= p.maxDelay
  {
    var e := Min(n - 1, 31);
    MulMono(1, Pow2(e), p.baseDelay);
    assert Pow2(0) == 1;
    if n < 32 {
      assert Pow2(n) == 2 * Pow2(n - 1);
      Doubled(p.baseDelay, Pow2(n - 1));
    }
  }

  lemma Doubled(base: nat, power: nat)
    ensures base * (2 * power) == 2 * (base * power)
    ensures base * power == power * base
  {
  }

  /** Time is spent waiting for admission, then for headers, then for a body that is worth reading. */
  lemma TimeIsSpentInPhases(c: Client, a: Attempt)
    ensures !a.builds ==> Elapsed(c, a) == 0
    ensures a.builds && !a.admission.Granted? ==> Elapsed(c, a) == a.waited
    ensures Handed(a) && !a.reply.Replied? ==>
      Elapsed(c, a) == a.waited + if a.reply.NoReply? then c.requestTimeout else a.reply.took
    ensures Handed(a) && a.reply.Replied? ==>
      var h := a.reply.headers;
      var unread := h.status == 429 || (h.contentLength.Some? && h.contentLength.value > c.maxResponseBytes);
      Elapsed(c, a) == a.waited + a.reply.took
        + if unread then 0 else if h.body.Stalled? then c.requestTimeout else h.body.took
  {
  }

  predicate DeclaredTooLong(c: Client, h: Headers) {
    h.contentLength.Some? && h.contentLength.value > c.maxResponseBytes
  }

  /** An unknown outcome tells how far the request got, and the status if an answer had begun. */
  lemma UnknownNamesItsStage(c: Client, safety: Safety, a: Attempt, canRetry: bool)
    requires var r := RunAttempt(c, safety, a, canRetry); r.Err? && r.error.error.OutcomeUnknown?
    ensures var e := RunAttempt(c, safety, a, canRetry).error.error;
      if !a.reply.Replied? then e == OutcomeUnknown(Sending, None)
      else
        var h := a.reply.headers;
        && e.status == Some(h.status)
        && (e.stage == ResponseHeaders <==> DeclaredTooLong(c, h))
        && (e.stage == ResponseBody <==> !DeclaredTooLong(c, h) && !Readable(c, h))
        && (e.stage == JsonDecode <==> Readable(c, h) && h.json.None?)
        && (e.stage == ModelDecode <==> Readable(c, h) && h.json.Some? && !h.decodes)
  {
  }

  /** Every other failure names its one cause; after the hand-over it is a read's, or a refused connection. */
  lemma FailureNamesItsCause(c: Client, safety: Safety, a: Attempt, canRetry: bool)
    requires RunAttempt(c, safety, a, canRetry).Err?
    ensures var e := RunAttempt(c, safety, a, canRetry).error.error;
      && (e == InvalidRequest <==> !a.builds)
      && (e == Failed(OtherFault) <==> a.builds && a.admission.SemaphoreClosed?)
      && (e == Failed(Connect) <==> Handed(a) && a.reply.Fault? && a.reply.fault.isConnect)
      && (e == Failed(RequestFault) <==> PlainFault(safety, a) && a.reply.fault.isRequest)
      && (e == Failed(Connection) <==> PlainFault(safety, a) && !a.reply.fault.isRequest && !a.reply.fault.isBody)
      && (e == Failed(BodyFault) <==>
            || (PlainFault(safety, a) && !a.reply.fault.isRequest && a.reply.fault.isBody)
            || (Read(c, safety, a)
                && ReadFrom(a.reply.headers.body.chunks, c.maxResponseBytes, []) == Err(BrokenStream)))
      && (e.ResponseTooLarge? <==>
            || (safety.ReadOnly? && Handed(a) && a.reply.Replied? && a.reply.headers.status != 429
                && DeclaredTooLong(c, a.reply.headers))
            || (Read(c, safety, a) && ReadFrom(a.reply.headers.body.chunks, c.maxResponseBytes, []) == Err(TooLarge)))
      && (e.ResponseTooLarge? ==> e.limit == c.maxResponseBytes)
  {
  }

  /** A fault while sending a read that is neither a refused connection nor a timeout. */
  predicate PlainFault(safety: Safety, a: Attempt) {
    safety.ReadOnly? && Handed(a) && a.reply.Fault? && !a.reply.fault.isConnect && !a.reply.fault.isTimeout
  }

  /** The body of a read's answer was read as far as it came. */
  predicate Read(c: Client, safety: Safety, a: Attempt) {
    && safety.ReadOnly? && Handed(a) && a.reply.Replied? && a.reply.headers.status != 429
    && !DeclaredTooLong(c, a.reply.headers) && a.reply.headers.body.Arrives?
  }
}
