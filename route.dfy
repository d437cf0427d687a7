/**
 * The `POST` handler of `src/app/api/rag/route.ts`: reading `query` from the JSON body,
 * `validateAndSanitizeQuery`, the choice of client address and user agent from the
 * request headers, the status decision, and the `start` loop that forwards the
 * completion stream into the response body.
 */
module RagRoute {
  import opened JsText
  import opened JsRegex
  import opened Rag
  import opened RagStream

  // ---------------------------------------------------------------------------
  // The request body

  /** A parsed JSON document; numbers are kept as integers, their value never matters here. */
  datatype Json =
    | JNull
    | JBool(b: bool)
    | JNumber(n: int)
    | JString(s: string)
    | JArray(items: seq<Json>)
    | JObject(fields: map<string, Json>)

  /** A JavaScript value read from a parsed body: `undefined` or a JSON value. */
  datatype JsValue = Undefined | Defined(json: Json)

  /**
   * `body.query`. Reading a property of `null` throws a `TypeError` (`None`); a string,
   * number, boolean or array has no own `query` and gives `undefined`.
   */
  function QueryProperty(body: Json): (r: Option<JsValue>)
    ensures r.None? <==> body.JNull?
    ensures r == Some(Undefined) <==> !body.JNull? && !(body.JObject? && "query" in body.fields)
  {
    match body
    case JNull => None
    case JObject(fields) => if "query" in fields then Some(Defined(fields["query"])) else Some(Undefined)
    case _ => Some(Undefined)
  }

  // ---------------------------------------------------------------------------
  // validateAndSanitizeQuery

  const MaxQueryLength := 1000
  const QueryRequired := "Query is required"
  const QueryNotString := "Query must be a string"
  const QueryEmpty := "Query cannot be empty"
  const QueryTooLong := "Query exceeds maximum length of 1000 characters"
  const CodeBlockRemoved := "[code block removed]"
  const FilteredContent := "[filtered content]"

  /** The result object `{ valid, sanitizedQuery?, error? }`. */
  datatype QueryCheck = QueryCheck(valid: bool, sanitizedQuery: Option<string>, error: Option<string>)

  /**
   * The replace chain applied to the trimmed query, in source order. Whatever text goes
   * in, the chain yields "[code block removed]", twice for non-empty text: `.*` with `g`
   * and `s` replaces the whole text and then the empty string at its end, and none of
   * the four phrase filters finds a match in what is left.
   */
  function RewriteQuery(trimmed: string): (r: string)
    ensures r == if trimmed == "" then CodeBlockRemoved else CodeBlockRemoved + CodeBlockRemoved
  {
    var noCode := ReplaceAll(DotStarAll, trimmed, CodeBlockRemoved);
    DotStarReplacesTwice(trimmed, CodeBlockRemoved);
    CodeBlockTextLetters(noCode);
    var r1 := ReplaceAll(IgnoreInstr, noCode, FilteredContent);
    var r2 := ReplaceAll(ForgetInstr, r1, FilteredContent);
    var r3 := ReplaceAll(SystemColonPrompt, r2, FilteredContent);
    PhraseFiltersKeep(noCode);
    ReplaceAll(YouAreNow, r3, FilteredContent)
  }

  /** The queries the validator lets through: strings whose trim has 1 to 1000 code units. */
  predicate IsAcceptableQuery(query: JsValue) {
    query.Defined? && query.json.JString? && 1 <= |Trim(query.json.s)| <= MaxQueryLength
  }

  /** `validateAndSanitizeQuery`: four checks in order, then the rewrite chain. */
  function ValidateAndSanitizeQuery(query: JsValue): (r: QueryCheck)
    ensures r.valid <==> IsAcceptableQuery(query)
    ensures r.valid <==> r.sanitizedQuery.Some?
    ensures r.valid <==> r.error.None?
    ensures r.valid ==> r.sanitizedQuery.value == CodeBlockRemoved + CodeBlockRemoved
  {
    if query == Undefined || query == Defined(JNull) then
      QueryCheck(false, None, Some(QueryRequired))
    else if !query.json.JString? then
      QueryCheck(false, None, Some(QueryNotString))
    else
      var trimmedQuery := Trim(query.json.s);
      if trimmedQuery == "" then
        QueryCheck(false, None, Some(QueryEmpty))
      else if |trimmedQuery| > MaxQueryLength then
        QueryCheck(false, None, Some(QueryTooLong))
      else
        QueryCheck(true, Some(RewriteQuery(trimmedQuery)), None)
  }

  /** The four errors and the order in which they are checked. */
  lemma QueryErrors(query: JsValue)
    ensures var r := ValidateAndSanitizeQuery(query);
      && (query == Undefined || query == Defined(JNull) ==> r.error == Some(QueryRequired))
      && (query.Defined? && !query.json.JNull? && !query.json.JString? ==> r.error == Some(QueryNotString))
      && (query.Defined? && query.json.JString? && Trim(query.json.s) == "" ==> r.error == Some(QueryEmpty))
      && (query.Defined? && query.json.JString? && |Trim(query.json.s)| > MaxQueryLength ==> r.error == Some(QueryTooLong))
  {
  }

  /** No character of "[code block removed]", once or twice over, is the lead letter of a phrase filter. */
  lemma CodeBlockTextLetters(s: string)
    requires s == CodeBlockRemoved || s == CodeBlockRemoved + CodeBlockRemoved
    ensures forall k :: 0 <= k < |s| ==> AsciiLower(s[k]) !in {'i', 'f', 's', 'y'}
  {
    var c := CodeBlockRemoved;
    assert forall k :: 0 <= k < |c| ==> AsciiLower(c[k]) !in {'i', 'f', 's', 'y'};
    forall k | 0 <= k < |s|
      ensures AsciiLower(s[k]) !in {'i', 'f', 's', 'y'}
    {
      if k >= |c| {
        assert s[k] == c[k - |c|];
      }
    }
  }

  /** The four phrase filters, in order, leave a text without their lead letters as it is. */
  lemma PhraseFiltersKeep(s: string)
    requires forall k :: 0 <= k < |s| ==> AsciiLower(s[k]) !in {'i', 'f', 's', 'y'}
    ensures ReplaceAll(YouAreNow, ReplaceAll(SystemColonPrompt, ReplaceAll(ForgetInstr,
              ReplaceAll(IgnoreInstr, s, FilteredContent), FilteredContent), FilteredContent), FilteredContent) == s
  {
    NoMatchWithoutLead(IgnoreInstr, s);
    ReplaceAllNoMatch(IgnoreInstr, s, FilteredContent);
    NoMatchWithoutLead(ForgetInstr, s);
    ReplaceAllNoMatch(ForgetInstr, s, FilteredContent);
    NoMatchWithoutLead(SystemColonPrompt, s);
    ReplaceAllNoMatch(SystemColonPrompt, s, FilteredContent);
    NoMatchWithoutLead(YouAreNow, s);
    ReplaceAllNoMatch(YouAreNow, s, FilteredContent);
  }

  // ---------------------------------------------------------------------------
  // getIpAddress and the user agent

  /** Header lists, keyed by lower-case header name. */
  type Headers = map<string, string>

  /** `headers.get(name)`: `null` (`None`) when the header is absent. */
  function HeaderValue(h: Headers, name: string): Option<string> {
    if name in h then Some(h[name]) else None
  }

  const IpHeaderNames: seq<string> := ["x-real-ip", "x-forwarded-for", "cf-connecting-ip", "true-client-ip"]
  const Unknown := "unknown"

  /** The eight candidate values: the four headers from `headers()`, then the same four from the request. */
  function IpSources(platform: Headers, request: Headers): (r: seq<Option<string>>)
    ensures |r| == 2 * |IpHeaderNames| == 8
    ensures forall k :: 0 <= k < |IpHeaderNames| ==>
      r[k] == HeaderValue(platform, IpHeaderNames[k]) && r[|IpHeaderNames| + k] == HeaderValue(request, IpHeaderNames[k])
  {
    seq(4, k requires 0 <= k < 4 => HeaderValue(platform, IpHeaderNames[k]))
      + seq(4, k requires 0 <= k < 4 => HeaderValue(request, IpHeaderNames[k]))
  }

  /** Index of the first truthy value. */
  function FirstTruthy(values: seq<Option<string>>): (r: Option<nat>)
    ensures r.Some? ==> r.value < |values| && IsTruthy(values[r.value])
    ensures r.Some? ==> forall k :: 0 <= k < r.value ==> !IsTruthy(values[k])
    ensures r.None? ==> forall k :: 0 <= k < |values| ==> !IsTruthy(values[k])
  {
    if |values| == 0 then None
    else if IsTruthy(values[0]) then Some(0)
    else match FirstTruthy(values[1..])
      case None => None
      case Some(i) => Some(i + 1)
  }

  /** The address `getIpAddress` reports for a list of candidate values. */
  function IpFromSources(sources: seq<Option<string>>): string {
    match FirstTruthy(sources)
    case None => Unknown
    case Some(i) => Trim(FirstField(sources[i].value, ','))
  }

  /**
   * `getIpAddress`: the first candidate that is neither null nor empty, cut at its first
   * comma and trimmed; "unknown" when there is none.
   */
  method GetIpAddress(platform: Headers, request: Headers) returns (ip: string)
    ensures ip == IpFromSources(IpSources(platform, request))
    ensures (forall k :: 0 <= k < 8 ==> !IsTruthy(IpSources(platform, request)[k])) ==> ip == Unknown
    ensures ',' !in ip
  {
    var ipSources := IpSources(platform, request);
    for i := 0 to |ipSources|
      invariant forall k :: 0 <= k < i ==> !IsTruthy(ipSources[k])
    {
      var candidate := ipSources[i];
      if IsTruthy(candidate) {
        assert FirstTruthy(ipSources) == Some(i);
        ip := Trim(FirstField(candidate.value, ','));
        assert forall k :: 0 <= k < |ip| ==> ip[k] in FirstField(candidate.value, ',');
        return;
      }
    }
    return Unknown;
  }

  /** A present header whose first entry is blank gives the empty address, not "unknown". */
  lemma BlankFirstEntryGivesEmptyIp()
    ensures IpFromSources(IpSources(map["x-real-ip" := " ,1.2.3.4"], map[])) == ""
  {
    var v := " ,1.2.3.4";
    var sources := IpSources(map["x-real-ip" := v], map[]);
    assert sources[0] == Some(v);
    assert FirstTruthy(sources) == Some(0);
    assert v[1] == ',' && v[..1] == " ";
    assert ',' !in v[..1];
    assert FirstField(v, ',') == " ";
    assert IsJsSpace(" "[0]);
  }

  /** `headersList.get("user-agent") || req.headers.get("user-agent") || "unknown"`. */
  function UserAgent(platform: Headers, request: Headers): (r: string)
    ensures r != ""
    ensures IsTruthy(HeaderValue(platform, "user-agent")) ==> r == platform["user-agent"]
    ensures !IsTruthy(HeaderValue(platform, "user-agent")) && IsTruthy(HeaderValue(request, "user-agent")) ==> r == request["user-agent"]
    ensures !IsTruthy(HeaderValue(platform, "user-agent")) && !IsTruthy(HeaderValue(request, "user-agent")) ==> r == Unknown
  {
    var fromPlatform := HeaderValue(platform, "user-agent");
    var fromRequest := HeaderValue(request, "user-agent");
    if IsTruthy(fromPlatform) then fromPlatform.value
    else if IsTruthy(fromRequest) then fromRequest.value
    else Unknown
  }

  // ---------------------------------------------------------------------------
  // POST

  /** The fields of the request-log record (its timestamp is the clock's and is not modelled). */
  datatype RequestLogEntry = RequestLogEntry(ip: string, query: string, userAgent: string)

  /** What the handler does outside the response: start a log write, call the pipeline. */
  datatype RouteEffect = LogRequest(entry: RequestLogEntry) | PipelineCall(call: RagCall)

  const BadRequest := 400
  const ServerError := 500
  const FailedToProcess := "Failed to process request"

  /** A JSON error response, or the streaming response over the completion stream. */
  datatype HttpResponse =
    | ErrorResponse(status: nat, error: string)
    | StreamResponse(upstream: UpstreamStream)

  /** The handler's result: the response and, in order, what it set in motion. */
  datatype RouteRun = RouteRun(response: HttpResponse, effects: seq<RouteEffect>)

  /** The pipeline's calls, one effect each, in order. */
  function CallEffects(calls: seq<RagCall>): (e: seq<RouteEffect>)
    ensures |e| == |calls| && forall k :: 0 <= k < |calls| ==> e[k] == PipelineCall(calls[k])
  {
    seq(|calls|, k requires 0 <= k < |calls| => PipelineCall(calls[k]))
  }

  /**
   * `POST`. `body` is `None` when `req.json()` rejects. A failed validation answers 400
   * at once; a thrown error (unparsable body, `null` body, a failing pipeline call)
   * answers 500; otherwise the request is logged and the pipeline's stream is returned.
   */
  function Post(body: Option<Json>, platform: Headers, request: Headers, svc: Services): (r: RouteRun)
    ensures r.effects == [] <==>
      !(body.Some? && QueryProperty(body.value).Some? && IsAcceptableQuery(QueryProperty(body.value).value))
    ensures |r.effects| <= 4
    ensures r.effects != [] ==> r.effects[0].LogRequest? && forall k :: 1 <= k < |r.effects| ==> r.effects[k].PipelineCall?
    ensures r.response.StreamResponse? ==> |r.effects| == 4
  {
    if body.None? || QueryProperty(body.value).None? then
      RouteRun(ErrorResponse(ServerError, FailedToProcess), [])
    else
      var validation := ValidateAndSanitizeQuery(QueryProperty(body.value).value);
      if !validation.valid then
        RouteRun(ErrorResponse(BadRequest, validation.error.value), [])
      else
        var sanitizedQuery := validation.sanitizedQuery.value;
        var ip := IpFromSources(IpSources(platform, request));
        var log := LogRequest(RequestLogEntry(ip, sanitizedQuery, UserAgent(platform, request)));
        var run := RagPipeline(sanitizedQuery, svc);
        var effects := [log] + CallEffects(run.calls);
        match run.outcome
        case Failed(_) => RouteRun(ErrorResponse(ServerError, FailedToProcess), effects)
        case Streaming(stream) => RouteRun(StreamResponse(stream), effects)
  }

  /**
   * The status decision: 400 exactly for a body whose `query` fails validation, with
   * nothing logged and nothing called; 500 for an unreadable or `null` body or a failing
   * pipeline; a stream only after all three services answered.
   */
  lemma PostStatus(body: Option<Json>, platform: Headers, request: Headers, svc: Services)
    ensures var run := Post(body, platform, request, svc);
      && (run.response.ErrorResponse? ==> run.response.status in {BadRequest, ServerError})
      && (run.response.ErrorResponse? && run.response.status == BadRequest <==>
            body.Some? && !body.value.JNull? && !IsAcceptableQuery(QueryProperty(body.value).value))
      && (run.response.ErrorResponse? && run.response.status == BadRequest ==> run.effects == [])
      && (run.response.ErrorResponse? && run.response.status == BadRequest ==>
            run.response.error == ValidateAndSanitizeQuery(QueryProperty(body.value).value).error.value)
      && (run.response.ErrorResponse? && run.response.status == ServerError ==> run.response.error == FailedToProcess)
      && (body.None? || body == Some(JNull) ==> run == RouteRun(ErrorResponse(ServerError, FailedToProcess), []))
      && (run.response.StreamResponse? <==>
            body.Some? && !body.value.JNull? && IsAcceptableQuery(QueryProperty(body.value).value)
            && svc.embedding.Some? && svc.matches.Some? && svc.completion.Some?)
  {
    if body.Some? && !body.value.JNull? && IsAcceptableQuery(QueryProperty(body.value).value) {
      var q := ValidateAndSanitizeQuery(QueryProperty(body.value).value).sanitizedQuery.value;
    }
  }

  /**
   * An accepted request is logged first, with the constant rewritten query, and the
   * pipeline then embeds that same constant text: the user's words never reach it.
   */
  lemma PostLogsRewrittenQuery(body: Option<Json>, platform: Headers, request: Headers, svc: Services)
    requires body.Some? && !body.value.JNull? && IsAcceptableQuery(QueryProperty(body.value).value)
    ensures var run := Post(body, platform, request, svc);
      && |run.effects| >= 2
      && run.effects[0] == LogRequest(RequestLogEntry(
           IpFromSources(IpSources(platform, request)), CodeBlockRemoved + CodeBlockRemoved, UserAgent(platform, request)))
      && run.effects[1] == PipelineCall(EmbedCall(CodeBlockRemoved + CodeBlockRemoved))
  {
    var q := ValidateAndSanitizeQuery(QueryProperty(body.value).value).sanitizedQuery.value;
    PostAcceptedEffects(body, platform, request, svc);
    assert q == CodeBlockRemoved + CodeBlockRemoved;
    RewrittenQueryIsSanitized();
  }

  /** The first two effects of an accepted request, in terms of its sanitised query. */
  lemma PostAcceptedEffects(body: Option<Json>, platform: Headers, request: Headers, svc: Services)
    requires body.Some? && !body.value.JNull? && IsAcceptableQuery(QueryProperty(body.value).value)
    ensures var q := ValidateAndSanitizeQuery(QueryProperty(body.value).value).sanitizedQuery.value;
      var run := Post(body, platform, request, svc);
      && |run.effects| >= 2
      && run.effects[0] == LogRequest(RequestLogEntry(IpFromSources(IpSources(platform, request)), q, UserAgent(platform, request)))
      && run.effects[1] == PipelineCall(EmbedCall(SanitizeInput(q)))
  {
    var q := ValidateAndSanitizeQuery(QueryProperty(body.value).value).sanitizedQuery.value;
    var calls := RagPipeline(q, svc).calls;
    var effects := Post(body, platform, request, svc).effects;
    assert |effects| == 1 + |calls| && effects[1] == PipelineCall(calls[0]);
  }

  /** The rewritten query passes through `sanitizeInput` unchanged. */
  lemma RewrittenQueryIsSanitized()
    ensures SanitizeInput(CodeBlockRemoved + CodeBlockRemoved) == CodeBlockRemoved + CodeBlockRemoved
  {
    var c := CodeBlockRemoved;
    assert forall k :: 0 <= k < |c| ==> !IsControl(c[k]);
    forall k | 0 <= k < |c + c|
      ensures !IsControl((c + c)[k])
    {
      if k >= |c| {
        assert (c + c)[k] == c[k - |c|];
      }
    }
    assert (c + c)[0] == '[' && (c + c)[|c + c| - 1] == ']';
    SanitizeInputFixpoint(c + c);
  }

  // ---------------------------------------------------------------------------
  // The response stream

  /** `chunk.choices[0]?.delta?.content || ""`. */
  function DeltaText(chunk: Chunk): (r: string)
    ensures |chunk.choices| > 0 && chunk.choices[0].delta.Some? && chunk.choices[0].delta.value.content.Some?
            ==> r == chunk.choices[0].delta.value.content.value
    ensures !(|chunk.choices| > 0 && chunk.choices[0].delta.Some? && chunk.choices[0].delta.value.content.Some?)
            ==> r == ""
  {
    if |chunk.choices| == 0 then ""
    else match chunk.choices[0].delta
      case None => ""
      case Some(d) => match d.content
        case None => ""
        case Some(text) => text
  }

  /** The text a reader of the response receives from the chunks, in order. */
  function StreamedText(chunks: seq<Chunk>): string {
    if |chunks| == 0 then "" else StreamedText(chunks[..|chunks| - 1]) + DeltaText(chunks[|chunks| - 1])
  }

  datatype StreamState = Readable | Closed | Errored

  /** The controller of the response's `ReadableStream`: its queue of enqueued pieces and its state. */
  class StreamController {
    var queue: seq<string>
    var state: StreamState

    constructor()
      ensures queue == [] && state == Readable
    {
      queue := [];
      state := Readable;
    }

    /** `controller.enqueue(piece)`. */
    method Enqueue(piece: string)
      requires state == Readable
      modifies this
      ensures queue == old(queue) + [piece] && state == Readable
    {
      queue := queue + [piece];
    }

    /** `controller.close()`. */
    method Close()
      requires state == Readable
      modifies this
      ensures queue == old(queue) && state == Closed
    {
      state := Closed;
    }

    /** The stream errors: a rejection of `start` while the upstream is read. */
    method Error()
      requires state == Readable
      modifies this
      ensures queue == old(queue) && state == Errored
    {
      state := Errored;
    }
  }

  /**
   * `start(controller)`: one piece per upstream chunk, in order, then close; if the upstream
   * fails after its chunks, the `for await` throws and the stream errors instead.
   */
  method Start(controller: StreamController, upstream: UpstreamStream)
    requires controller.state == Readable && controller.queue == []
    modifies controller
    ensures |controller.queue| == |upstream.chunks|
    ensures forall i :: 0 <= i < |upstream.chunks| ==> controller.queue[i] == DeltaText(upstream.chunks[i])
    ensures Concat(controller.queue) == StreamedText(upstream.chunks)
    ensures controller.state == if upstream.interrupted then Errored else Closed
  {
    var chunks := upstream.chunks;
    for i := 0 to |chunks|
      invariant controller.state == Readable
      invariant |controller.queue| == i
      invariant forall k :: 0 <= k < i ==> controller.queue[k] == DeltaText(chunks[k])
      invariant Concat(controller.queue) == StreamedText(chunks[..i])
    {
      var content := DeltaText(chunks[i]);
      ConcatAppend(controller.queue, [content]);
      assert chunks[..i + 1][..i] == chunks[..i];
      controller.Enqueue(content);
    }
    assert chunks[..|chunks|] == chunks;
    if upstream.interrupted {
      controller.Error();
    } else {
      controller.Close();
    }
  }
}
