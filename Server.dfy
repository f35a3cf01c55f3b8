/**
 * The `/ask` handler: ingest every document of the fixed list into the index
 * (writer `Handler`: ids `fileId-<i+1>`, metadata `{text, docId}`), embed the
 * query, search the index restricted to those documents, join the matches'
 * texts into a context, ask the chat model with the context and the question,
 * and answer. Any failure anywhere ends the request with status 500.
 */
module Server {
  import opened Wrappers
  import opened Strings
  import opened Chunker
  import opened VectorIndex
  import opened Ingestion

  /** The query filter `{docId: {$in: fileIds}}`: the record names one of the documents. */
  predicate PassesFilter(meta: Metadata, fileIds: seq<string>) {
    meta.docId.Some? && meta.docId.value in fileIds
  }

  /** The `metadata.text` of each match, in the order the search returned them. */
  function Texts(matches: seq<Metadata>): (texts: seq<string>)
    ensures |texts| == |matches|
    ensures forall k | 0 <= k < |matches| :: texts[k] == matches[k].text
  {
    seq(|matches|, k requires 0 <= k < |matches| => matches[k].text)
  }

  /** The context handed to the chat model: the match texts joined by newlines. */
  function Context(matches: seq<Metadata>): (ctx: string)
    ensures matches == [] ==> ctx == ""
    ensures |matches| == 1 ==> ctx == matches[0].text
  {
    Join(Texts(matches), "\n")
  }

  /** The user message template `Context:\n${context}\n\nQuestion: ${query}`. */
  function UserMessage(ctx: string, query: string): (msg: string)
    ensures |msg| == 9 + |ctx| + 12 + |query|
    ensures msg[..9] == "Context:\n"
    ensures msg[9..9 + |ctx|] == ctx
    ensures msg[9 + |ctx|..9 + |ctx| + 12] == "\n\nQuestion: "
    ensures msg[9 + |ctx| + 12..] == query
  {
    "Context:\n" + ctx + "\n\nQuestion: " + query
  }

  /** What the chat completion returned: its message content, possibly null. */
  datatype Completion = Completion(content: Option<string>)

  /**
   * The query-side services: `search(records, vector, fileIds)` is the index
   * query (top 5 with metadata, filtered to `fileIds`) over the index as it
   * stands; `complete(userMessage)` the chat completion with the fixed system
   * prompt. None: the call threw.
   */
  datatype QueryServices = QueryServices(
    search: (map<string, Record>, Embedding, seq<string>) -> Option<seq<Metadata>>,
    complete: string -> Option<Completion>)

  /** The handler's reply: `{answer}` with status 200, or a status and `{error}`. */
  datatype Response = Answer(answer: Option<string>) | Failure(status: nat, error: string)

  /** The one error reply the handler ever sends. */
  const InternalError: Response := Failure(500, "Internal server error.")

  /** The index after a request and the reply sent. */
  datatype Outcome = Outcome(records: map<string, Record>, response: Response)

  /** A whole `/ask` request against index state `m`. */
  function AskOutcome(m: map<string, Record>, query: string, fileIds: seq<string>, p: Providers, q: QueryServices): (o: Outcome)
  {
    var run := IngestDocs(Handler, fileIds, p);
    var after := Apply(m, run.writes);
    if !run.ok then Outcome(after, InternalError)
    else match p.embed(query)
      case None => Outcome(after, InternalError)
      case Some(e) =>
        match q.search(after, e, fileIds)
        case None => Outcome(after, InternalError)
        case Some(matches) =>
          match q.complete(UserMessage(Context(matches), query))
          case None => Outcome(after, InternalError)
          case Some(c) => Outcome(after, Answer(c.content))
  }

  /**
   * Step 1 of the handler: for each document in order, download and read its
   * text, chunk it, upsert its chunks, and append them to `allChunks`; the
   * first failure ends the loop.
   */
  method IngestFiles(index: Index, fileIds: seq<string>, p: Providers) returns (ok: bool, allChunks: seq<string>)
    modifies index
    ensures var run := IngestDocs(Handler, fileIds, p);
      ok == run.ok && allChunks == run.chunks &&
      index.records == Apply(old(index.records), run.writes)
  {
    var w := WriterFor(Handler);
    ghost var m0 := index.records;
    allChunks := [];
    var k := 0;
    while k < |fileIds|
      invariant 0 <= k <= |fileIds|
      invariant IngestDocs(Handler, fileIds[..k], p).ok
      invariant allChunks == IngestDocs(Handler, fileIds[..k], p).chunks
      invariant index.records == Apply(m0, IngestDocs(Handler, fileIds[..k], p).writes)
    {
      var fileId := fileIds[k];
      ghost var pre := IngestDocs(Handler, fileIds[..k], p);
      IngestStep(Handler, fileIds, k, p);
      var text := p.fetch(fileId);
      if text.None? {
        assert pre.writes + [] == pre.writes && pre.chunks + [] == pre.chunks;
        return false, allChunks;
      }
      IngestDocFetched(w, fileId, p, text.value);
      var chunks := ChunkText(text.value, MaxWords);
      ghost var d := DocUpserts(w, fileId, chunks, 0, p);
      ok := UpsertChunks(index, w, fileId, chunks, p);
      ApplyConcat(m0, pre.writes, d.writes);
      if !ok {
        assert pre.chunks + [] == pre.chunks;
        return false, allChunks;
      }
      allChunks := allChunks + chunks;
      k := k + 1;
    }
    assert fileIds[..k] == fileIds;
    return true, allChunks;
  }

  /** The `/ask` handler for `query` over the documents `fileIds`. */
  method Ask(index: Index, query: string, fileIds: seq<string>, p: Providers, q: QueryServices)
    returns (response: Response)
    modifies index
    ensures var o := AskOutcome(old(index.records), query, fileIds, p, q);
      index.records == o.records && response == o.response
  {
    var ok, allChunks := IngestFiles(index, fileIds, p);
    if !ok {
      return InternalError;
    }
    var queryEmbedding := p.embed(query);
    if queryEmbedding.None? {
      return InternalError;
    }
    var results := q.search(index.records, queryEmbedding.value, fileIds);
    if results.None? {
      return InternalError;
    }
    var context := Context(results.value);
    var completion := q.complete(UserMessage(context, query));
    if completion.None? {
      return InternalError;
    }
    return Answer(completion.value.content);
  }

  // ----- properties -----

  /**
   * The reply is an answer exactly when ingestion, the query embedding, the
   * search and the completion all went through, and the answer is then the
   * completion of the user message built from the matches; every other reply
   * is the fixed 500 error.
   */
  lemma AskResponse(m: map<string, Record>, query: string, fileIds: seq<string>, p: Providers, q: QueryServices)
    ensures var o, run := AskOutcome(m, query, fileIds, p, q), IngestDocs(Handler, fileIds, p);
      o.response.Answer? <==>
        run.ok && p.embed(query).Some? &&
        q.search(o.records, p.embed(query).value, fileIds).Some? &&
        q.complete(UserMessage(Context(q.search(o.records, p.embed(query).value, fileIds).value), query)).Some?
    ensures var o := AskOutcome(m, query, fileIds, p, q);
      o.response.Answer? ==>
        var matches := q.search(o.records, p.embed(query).value, fileIds).value;
        Some(Completion(o.response.answer)) == q.complete(UserMessage(Context(matches), query))
    ensures var o := AskOutcome(m, query, fileIds, p, q);
      !o.response.Answer? ==> o.response == InternalError && o.response.status == 500
    ensures AskOutcome(m, query, fileIds, p, q).records == Apply(m, IngestDocs(Handler, fileIds, p).writes)
  {
  }

  /**
   * When document `n` is the first to fail, the request ends with the 500
   * error, and the index holds exactly what the documents before it and the
   * failing document's own successful chunks wrote: no later document is
   * touched.
   */
  lemma AskAbortsAt(m: map<string, Record>, query: string, fileIds: seq<string>, p: Providers, q: QueryServices, n: nat)
    requires n < |fileIds|
    requires IngestDocs(Handler, fileIds[..n], p).ok
    requires !IngestDoc(WriterFor(Handler), fileIds[n], p).ok
    ensures var o := AskOutcome(m, query, fileIds, p, q);
      o.response == InternalError &&
      o.records == Apply(m, IngestDocs(Handler, fileIds[..n + 1], p).writes)
  {
    IngestStep(Handler, fileIds, n, p);
  }

  /**
   * Every record the handler writes names one of the requested documents, so
   * it passes the query's `docId` filter.
   */
  lemma ServerWritesPassFilter(fileIds: seq<string>, p: Providers, k: nat)
    requires k < |IngestDocs(Handler, fileIds, p).writes|
    ensures PassesFilter(IngestDocs(Handler, fileIds, p).writes[k].record.metadata, fileIds)
  {
    IngestWritesOwned(Handler, fileIds, p, k);
  }

  /** Every match text appears in the context. */
  lemma ContextContains(matches: seq<Metadata>, k: nat)
    requires k < |matches|
    ensures Contains(Context(matches), matches[k].text)
  {
    JoinContainsParts(Texts(matches), "\n", k);
  }

  /**
   * The context keeps the matches in order, none lost: when no text holds a
   * newline, splitting the context on newlines gives back exactly the texts.
   */
  lemma ContextLines(matches: seq<Metadata>)
    requires |matches| >= 1
    requires forall k | 0 <= k < |matches| :: '\n' !in matches[k].text
    ensures SplitOn(Context(matches), '\n') == Texts(matches)
  {
    SplitOnJoin(Texts(matches), '\n');
  }

  /** The context of two runs of matches is their contexts joined by a newline. */
  lemma ContextAppend(a: seq<Metadata>, b: seq<Metadata>)
    requires |a| >= 1 && |b| >= 1
    ensures Context(a + b) == Context(a) + "\n" + Context(b)
  {
    assert Texts(a + b) == Texts(a) + Texts(b);
    JoinAppend(Texts(a), Texts(b), "\n");
  }
}
