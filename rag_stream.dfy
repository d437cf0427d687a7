/**
 * `askRAGStream` of `src/lib/rag.ts`: sanitise the query, embed it, query the vector
 * index, and start a streaming chat completion over what was retrieved. The three
 * external services are represented by the answers they give; a trace records each
 * call and its arguments.
 */
module RagStream {
  import opened JsText
  import opened Rag

  /** A piece of a streamed completion: `chunk.choices[i].delta.content`. */
  datatype Delta = Delta(content: Option<string>)
  datatype Choice = Choice(delta: Option<Delta>)
  datatype Chunk = Chunk(choices: seq<Choice>)

  /** The upstream completion stream: the chunks it delivers and whether it then fails. */
  datatype UpstreamStream = UpstreamStream(chunks: seq<Chunk>, interrupted: bool)

  type Embedding = seq<real>

  /**
   * The external calls of the pipeline, in the order they are made. A completion call is
   * recorded with the arguments of `generateResponseStream`; the request it sends is
   * `StreamRequestMessages(query, context)`.
   */
  datatype RagCall =
    | EmbedCall(text: string)
    | SearchCall(vector: Embedding, topK: nat)
    | CompletionCall(query: string, context: seq<string>)  // `generateResponseStream(query, context)`

  datatype RagFailure = EmbeddingFailed | SearchFailed | CompletionFailed

  datatype RagOutcome = Streaming(stream: UpstreamStream) | Failed(failure: RagFailure)

  datatype RagRun = RagRun(outcome: RagOutcome, calls: seq<RagCall>)

  /**
   * What the external services answer during one request, in call order: the embedding
   * service, the vector index, the chat-completion service. `None` stands for a call that
   * throws.
   */
  datatype Services = Services(
    embedding: Option<Embedding>,
    matches: Option<seq<IndexMatch>>,
    completion: Option<UpstreamStream>)

  const TopK := 50

  /**
   * What a request to the pipeline does, stated once: embed the sanitised query, ask the
   * index for 50 neighbours, request a completion over the sanitised query and the
   * retrieved texts.
   * The first failing call ends the run.
   */
  function RagPipeline(query: string, svc: Services): (run: RagRun)
    ensures 1 <= |run.calls| <= 3
    ensures run.calls[0] == EmbedCall(SanitizeInput(query))
    ensures |run.calls| >= 2 <==> svc.embedding.Some?
    ensures |run.calls| >= 2 ==> run.calls[1] == SearchCall(svc.embedding.value, 50)
    ensures |run.calls| == 3 <==> svc.embedding.Some? && svc.matches.Some?
    ensures |run.calls| == 3 ==> run.calls[2] == CompletionCall(SanitizeInput(query), RetrievedTexts(svc.matches.value))
    ensures run.outcome.Streaming? <==> |run.calls| == 3 && svc.completion.Some?
    ensures run.outcome.Failed? ==> run.outcome.failure == [EmbeddingFailed, SearchFailed, CompletionFailed][|run.calls| - 1]
  {
    var q := SanitizeInput(query);
    match svc.embedding
    case None => RagRun(Failed(EmbeddingFailed), [EmbedCall(q)])
    case Some(v) =>
      match svc.matches
      case None => RagRun(Failed(SearchFailed), [EmbedCall(q), SearchCall(v, TopK)])
      case Some(matches) =>
        var calls := [EmbedCall(q), SearchCall(v, TopK), CompletionCall(q, RetrievedTexts(matches))];
        match svc.completion
        case None => RagRun(Failed(CompletionFailed), calls)
        case Some(stream) => RagRun(Streaming(stream), calls)
  }

  /**
   * The completion call sends the same user message as a call with the raw query:
   * sanitising twice, in `askRAGStream` and again in `generateResponseStream`, is
   * sanitising once. The request is `StreamRequestMessages(call.query, call.context)`,
   * whose user message is `SanitizeInput(call.query)`.
   */
  lemma CompletionRequest(query: string, svc: Services)
    requires svc.embedding.Some? && svc.matches.Some?
    ensures var call := RagPipeline(query, svc).calls[2];
      && call.context == RetrievedTexts(svc.matches.value)
      && SanitizeInput(call.query) == SanitizeInput(query)
  {
    var q := SanitizeInput(query);
    assert RagPipeline(query, svc).calls[2] == CompletionCall(q, RetrievedTexts(svc.matches.value));
    SanitizeInputIdempotent(query);
  }

  /**
   * `askRAGStream` as the source runs it: sanitise, await the embedding, await the
   * search, and on an empty result call the stream generator with no context, otherwise
   * with the retrieved texts; the generator sanitises the query a second time.
   */
  method AskRAGStream(query: string, svc: Services) returns (outcome: RagOutcome, calls: seq<RagCall>)
    ensures RagRun(outcome, calls) == RagPipeline(query, svc)
  {
    var sanitizedQuery := SanitizeInput(query);
    calls := [EmbedCall(sanitizedQuery)];
    if svc.embedding.None? {
      return Failed(EmbeddingFailed), calls;
    }
    var queryEmbedding := svc.embedding.value;
    calls := calls + [SearchCall(queryEmbedding, 50)];
    if svc.matches.None? {
      return Failed(SearchFailed), calls;
    }
    var retrievedContext := RetrievedTexts(svc.matches.value);
    if |retrievedContext| == 0 {
      calls := calls + [CompletionCall(sanitizedQuery, [])];
    } else {
      calls := calls + [CompletionCall(sanitizedQuery, retrievedContext)];
    }
    assert calls == RagPipeline(query, svc).calls;
    if svc.completion.None? {
      return Failed(CompletionFailed), calls;
    }
    return Streaming(svc.completion.value), calls;
  }

}
