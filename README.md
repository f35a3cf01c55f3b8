# word-ai-assistant: the retrieval pipeline's text and record handling

This project models the core of the word-ai-assistant Word add-in and its
retrieval-augmented `/ask` backend, and proves properties of that model:

- **the word-window chunker** `chunkText` (identical in `server.js` and
  `preprocess.js`). It splits a document on runs of whitespace exactly as
  JavaScript's `split(/\s+/)` does, cuts the tokens into windows of 150, and
  joins each window with single spaces (`Chunker`, on top of `Strings`);
- **ingestion into the vector index**. For each file id in order, it fetches
  the text, chunks it, and embeds and upserts one vector per chunk. The first
  failing step ends the whole run. The `/ask` handler writes ids
  `fileId-<i+1>` with metadata `{text, docId}`. The preprocessing script
  writes ids `fileId_chunk_<i>` with metadata `{text}` only. The index is a
  class whose `map` field `upsert` overwrites key by key (`VectorIndex`,
  `Ingestion`, `Server.IngestFiles`, `Preprocessing.Run`);
- **the `/ask` handler**. After ingestion it embeds the query and searches
  the index under the `docId ∈ fileIds` filter. It joins the match texts by
  newlines into a context, fills the user-message template, and answers with
  the completion's content. Any failure ends the request with status 500 and
  `{error: "Internal server error."}` (`Server`);
- **the task pane's string logic**: `escapeHtml`, the role-to-CSS-class
  mapping, the trim-and-reject guards and query templates of `sendPrompt`
  and `sendPromptWithSelection`, and the `data.answer || "No answer
  returned."` fallback (`Taskpane`).

The outside services are parameters:
- `fetch` downloads and reads a document (None: the download or the read threw);
- `embed` returns an embedding (None: the call threw);
- `accepts` says whether the index accepted an upsert;
- `search` is the filtered top-5 query, taken over the index as it stands;
- `complete` is the chat completion.

Embeddings are opaque values that are never inspected. The fixed lists of
file ids become a `fileIds` parameter.

Ingestion does not recover per document. The handler (`server.js:52`,
`server.js:120-122`) and the script (`preprocess.js:38`, `preprocess.js:69-71`)
each wrap the whole loop in one `try`, so the first thrown error skips every
later chunk and document, and fails the request (or ends the script after
logging). The model does the same: `RunFiles` stops at the first failing file,
and `DocUpserts` at the first failing chunk.

## Model

| member | source | states |
|---|---|---|
| Strings.SplitTokens | server.js:33 | `Split`, the model of `text.split(/\s+/)`, always yields at least one token. No token contains whitespace (the same whitespace set `trim` uses). Only the first and last tokens can be empty. |
| Strings.SplitDecompose | server.js:33 | `Split` loses nothing but the whitespace it splits on. The text is its tokens with one non-empty, all-whitespace run between each consecutive pair. So text that starts (ends) with whitespace gives an empty first (last) token. |
| Strings.SplitJoin | server.js:36 | Splitting the single-space join of such tokens gives the tokens back, in order. |
| Chunker.ChunkText | server.js:32-39 | The loop stepping `i` by `maxWords` and pushing `words.slice(i, i + maxWords).join(" ")` returns exactly `Chunks(text, maxWords)`, the space-joined token windows. It requires `maxWords >= 1`, since the loop never advances otherwise. The script's `chunkText` (preprocess.js:28-35) is the same code and is modelled by this method. |
| Chunker.ChunkCount | server.js:33-38 | About `Chunks`: for the n >= 1 tokens, the chunk count c satisfies (c-1)·maxWords < n <= c·maxWords, i.e. c = ceil(n / maxWords). The result is never empty, and `""` gives `[""]`. |
| Chunker.ChunkTokens | server.js:35-36 | Re-splitting chunk k gives exactly the tokens [k·maxWords, min((k+1)·maxWords, n)). So every chunk has between 1 and maxWords tokens, and every chunk but the last has exactly maxWords. |
| Chunker.ChunksRoundTrip | server.js:33-37 | The space-joined chunks equal the space-joined tokens of the text. Splitting them again gives the text's tokens in order, with none dropped and none duplicated. |
| Strings.DecimalRoundTrip | server.js:72 | The decimal rendering of a position reads back as that position. |
| Strings.DecimalInjective | server.js:72 | Distinct positions render as distinct digit strings. |
| VectorIndex.Index.Upsert | server.js:70-79 | `upsert` inserts or overwrites the entry under the vector's id and changes nothing else. |
| VectorIndex.ApplyFrame | server.js:70-79 | A sequence of upserts changes only the ids it writes, and every written id is then present. |
| VectorIndex.ApplyLastWins | server.js:70-79 | An id's entry is the record of its last upsert. |
| VectorIndex.ApplyIdempotent | server.js:70-79 | Upserting the same vectors again leaves the index as after the first time (overwrite, not duplicate). |
| VectorIndex.ApplyConcat | server.js:56-84 | Upserting one batch and then another equals upserting their concatenation. |
| Ingestion.UpsertChunks | server.js:64-80 | The chunk loop (embed, then upsert `{id, values, metadata}`) reports success exactly when the chunk-loop specification `DocUpserts` does. It leaves the index as that specification's writes applied to the old index. The script's chunk loop (preprocess.js:47-63) is the same loop under its own naming rule. |
| Ingestion.DocUpsertsShape | server.js:64-79 | The t-th write of a document is chunk t under the writer's id for t, with that chunk's metadata and embedding. A run that succeeds writes every chunk. A run that fails stops exactly at the chunk whose embedding or upsert failed. |
| Ingestion.DocRunShape | server.js:60-83 | A document that is fetched and chunked writes its chunks in order, at most one upsert per chunk. When it succeeds it wrote every chunk and contributes them all to `allChunks`. |
| Ingestion.VectorIdDecode | server.js:72 | About `VectorId`: a handler id reads back as the file id, then `-`, then a numeral whose value is the chunk position plus one. A script id (preprocess.js:54) reads back as the file id, then `_chunk_`, then a numeral whose value is the position itself. |
| Ingestion.VectorIdInjective | server.js:72 | Distinct (document, position) pairs get distinct ids, because the character before the trailing digits is never a digit. The same holds for the script's `_chunk_` ids (preprocess.js:54), which count from 0. |
| Ingestion.WriterInjective | preprocess.js:54 | Each writer's naming rule is injective over (document, position). |
| Ingestion.SchemesDisjoint | preprocess.js:54 | No script id equals a handler id, because `_` rather than `-` precedes the trailing digits. The two paths therefore duplicate entries rather than overwrite each other. |
| Ingestion.RunFilesAppend | server.js:56-84 | About the file loop `RunFiles` (and so `IngestDocs`): ingesting `a + b` is ingesting `a` and then, only if all of `a` went through, ingesting `b`. Documents are processed in order. |
| Ingestion.RunFilesStep | server.js:56-84 | One pass of the file loop adds document k's vectors and chunks. If document k fails, the whole run ends there. |
| Ingestion.IngestStep | server.js:52-84 | The same step for the ingestion of either writer. |
| Ingestion.RunFilesOwned | server.js:56-84 | Every vector a run writes belongs to one of its documents. |
| Ingestion.IngestWritesOwned | server.js:70-79 | Every vector the run writes has id `VectorId(f, i)` and the writer's metadata, for some listed document f and some position i. |
| Ingestion.IngestFrame | server.js:70-79 | Ingestion leaves every other entry of the index unchanged, i.e. every entry whose id is not `VectorId(f, i)` for a listed f. The script likewise touches no key outside its own `_chunk_` id set. |
| Ingestion.ReingestIdempotent | preprocess.js:54-61 | Re-running ingestion with the same service answers leaves the index exactly as one run did, embeddings included. `ReingestKeepsLabels` covers a re-run whose embeddings or upsert answers differ. |
| Ingestion.ReingestKeepsLabels | server.js:56-80 | Re-ingesting unchanged documents (the same fetched texts) on a later request overwrites rather than duplicates, even when the embedding service answers differently. After a second successful run, the index has exactly the ids it had after the first, with the same metadata under each. |
| Ingestion.IngestedEntries | server.js:64-79 | After the first n documents went through, the index holds chunk i of each of them (document ids distinct) under `VectorId(f, i)`, with that chunk's metadata and embedding. This holds even if a later document failed. |
| Ingestion.RunFilesEntries | server.js:56-84 | After a successful run over distinct documents, the index holds every document's t-th vector under that document's id for t. |
| Server.IngestFiles | server.js:53-84 | The handler's loop reports success exactly as the ingestion specification does. It returns that specification's `allChunks` and leaves the index as its writes applied to the old index. |
| Server.Ask | server.js:52-123 | The handler's index and reply are those of the whole-request specification `AskOutcome`, whose promises `AskResponse` and `AskAbortsAt` prove. |
| Server.AskResponse | server.js:86-122 | The reply is an answer exactly when ingestion, the query embedding, the search and the completion all succeed. The answer is then the completion's content for the user message built from the matches. Every other reply is the fixed 500 error. |
| Server.AskAbortsAt | server.js:120-122 | When document n is the first to fail, the reply is the 500 error. The index then holds exactly what the earlier documents and the failing document's successful chunks wrote, and no later document is touched. |
| Server.ServerWritesPassFilter | server.js:96-98 | About the filter `PassesFilter`: every record the handler writes has a `docId` among the requested ids, so it passes the query filter. |
| Server.Context | server.js:101 | Zero matches give the empty context, and one match gives its text. |
| Server.ContextContains | server.js:101 | Every match text occurs in the context. |
| Server.ContextLines | server.js:101 | When no text contains a newline, splitting the context on newlines gives back the match texts, in the returned order. |
| Server.ContextAppend | server.js:101 | The context of two runs of matches is their two contexts joined by a newline. |
| Server.UserMessage | server.js:113 | The user message is `Context:\n`, then the context, then `\n\nQuestion: `, then the query, at those exact positions. |
| Preprocessing.Run | preprocess.js:37-72 | The script completes exactly when the ingestion specification succeeds under the `_chunk_` writer. It leaves the index as that specification's writes applied to the old index, and it ends normally either way. |
| Preprocessing.NoneTaggedForSearch | preprocess.js:60 | Script records carry no `docId`, so none passes the handler's `docId ∈ fileIds` filter. |
| Preprocessing.KeepsServerEntries | preprocess.js:54 | A script run leaves every entry under a handler id unchanged, in presence and in record. |
| Strings.TrimSpec | public/taskpane.js:12-13 | `Trim`, the model of `trim()`, yields s = leading whitespace + result + trailing whitespace, and the result has whitespace at neither end. The result is empty exactly when s is all whitespace. |
| Strings.TrimIdempotent | public/taskpane.js:50 | Trimming twice gives the same result as trimming once. |
| Taskpane.EscapeChar | public/taskpane.js:110-117 | The escape map replaces each of `& < > " '` with its entity and keeps every other character. No replacement contains a raw `<`, `>`, `"` or `'`. |
| Taskpane.EscapeHtml | public/taskpane.js:108-119 | The output of `escapeHtml` contains none of `<`, `>`, `"` or `'`. |
| Taskpane.EscapePlain | public/taskpane.js:109 | A text without any of the five special characters is returned unchanged. |
| Taskpane.EscapeHtmlAppend | public/taskpane.js:109-118 | `escapeHtml(a + b) == escapeHtml(a) + escapeHtml(b)`. |
| Taskpane.EscapeLength | public/taskpane.js:109-118 | The output is never shorter than the input. It has the same length exactly when no special character is present. |
| Taskpane.UnescapeEscape | public/taskpane.js:111-116 | A left-to-right decoder of the five entities recovers the original text from the output of `escapeHtml`. |
| Taskpane.UnescapeStep | public/taskpane.js:111-116 | The decoder undoes the escape of one character in front of any rest. |
| Taskpane.CssRole | public/taskpane.js:70 | Role `"You"` maps to `"user"`, and every other role maps to `"ai"`. `replaceLastLog` (line 91) uses the same mapping. |
| Taskpane.SendPromptGuard | public/taskpane.js:50-59 | `SendPrompt`, the model of `sendPrompt`, alerts and sends nothing exactly when the field is blank. Otherwise it sends and echoes the trimmed field, which is non-empty and has whitespace at neither end. |
| Taskpane.SendWithSelectionGuard | public/taskpane.js:12-24 | In `SendPromptWithSelection`, a blank selection is rejected first, whatever the prompt, and then a blank prompt. Otherwise the query is the trimmed prompt, `\n\nSelected Text:\n`, and the trimmed selection. The echo is the trimmed prompt followed by `\n\n(Selected Text: <selection>)`. |
| Taskpane.DisplayedAnswerSpec | public/taskpane.js:65 | `DisplayedAnswer`: the pane shows `data.answer` when it is a non-empty string, and `"No answer returned."` otherwise, including for the handler's 500 reply. It never shows an empty bubble. `sendPromptWithSelection` (line 30) uses the same fallback. |

## Left out

- Downloading and reading documents (`downloadTextFile`, `fs.readFileSync`, the export URL and the temporary file path) is I/O. It is modelled only as the `fetch` parameter, which returns the text or fails.
- The OpenAI and Pinecone services are foreign calls and are parameters here:
  - the embedding and chat calls;
  - Pinecone's `upsert` and `query` internals, including similarity ranking and the top-5 limit;
  - the fixed system prompt.
  The model never looks inside an embedding.
- Within one run, each service is a function of its input. A later request may meet different answers, which is modelled by a second `Providers` value.
- Ingestion.ReingestIdempotent: whole-index equality, embeddings included, is stated only for a re-run with the same service answers. For a re-run with other embeddings, `Ingestion.ReingestKeepsLabels` promises the same ids and metadata but not the same embeddings, since those come from the provider.
- Ingestion.UpsertChunks: whether the index accepts an upsert is modelled as a function of the vector id alone (`accepts`). A failure that depends on the embedding or on timing is not modelled.
- Express setup, static serving, request-body parsing and `res.json` plumbing are left out. Only the reply value is modelled: `{answer}` with its possibly-null content, or the fixed 500 error. The logged error detail is left out.
- The handler does not validate the query, and neither does the model. An empty query is embedded like any other.
- The handler computes `allChunks` but never reads it. `Server.IngestFiles` returns it so its contents are stated.
- The fixed file-id lists in both files become the `fileIds` parameter.
- The script's console messages are output only and are left out: the per-file progress line and the completion line (preprocess.js:65, 68). `Preprocessing.Run` returns whether the run completed instead.
- `async`/`await` ordering is modelled as plain sequential steps, since the code awaits each call in turn.
- Strings.Decimal: a position is rendered in plain decimal. This matches JavaScript's number-to-string only for positions below 10^21, far beyond any real chunk count.
- Everything in public/taskpane.js that touches the DOM or Office.js is left out:
  - `Office.onReady`, `Word.run` and selection loading;
  - the `keydown` handler;
  - the log entries built by `appendToLog` and `replaceLastLog`, with their timestamps and scrolling;
  - clearing the prompt field;
  - the `fetch` to the backend;
  - `marked.parse`, which renders AI replies as Markdown and so bypasses `escapeHtml`.
  Only the guards, the query and echo templates, the CSS-class mapping, the escaping and the answer fallback are modelled. The two send actions are pure functions to an `Alert` or `Send` value.
- Taskpane.DisplayedAnswerSpec: a reply body that is not JSON (`response.json()` throwing) is not modelled. The reply is one of the handler's two outcomes.
- src/taskpane/taskpane.js is not part of this model. It is DOM and fetch glue with one blank-prompt check.
- `clearLog` only empties the DOM log and is not modelled.
