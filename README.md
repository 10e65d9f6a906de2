# faq-worker in Dafny

This project models faq-worker, a FAQ question-answering service in two parts.

- An offline build script (`build-index.ts`) turns a list of question/answer
  entries into an index. Each entry in the index carries its id, its question,
  its answer and an embedding vector.
- A serving worker (`main.ts`) keeps a copy of that index fresh, using
  conditional requests with an ETag. It then answers `POST` requests whose
  JSON body holds a `question`:
  - it validates the request;
  - it gets the question's embedding;
  - it ranks the index by cosine similarity and keeps the top 3;
  - it formats the 3 as a numbered context block;
  - it asks a completion model and returns the trimmed answer.

Modules follow the program:

| module | models |
|---|---|
| `FaqTypes` | `Faq`, `FaqIndexItem` and an `Option` |
| `JsString` | the JavaScript string behaviour the code relies on: truthiness of strings, `String.prototype.trim` with the ECMAScript white-space and line-terminator set, `length` in UTF-16 code units, decimal rendering of numbers in template literals, and `Array.prototype.join` |
| `BuildIndex` | the embedding input texts and the index assembly of the build script |
| `Cosine` | the accumulation loop of `cosine` |
| `Ranking` | the top-3 selection: score, stable sort by descending score, slice, project |
| `Context` | the context string given to the completion model |
| `Loader` | `loadIndex`, as a class whose fields are the `INDEX` and `ETAG` variables |
| `Handler` | `headersJSON`, the request handler and the answer extraction |

Outbound calls are parameters of the model:

- the index fetch is a function from request headers to a reply;
- the embeddings call is a function from question to reply;
- the completion call is a function from user message to reply.

Cosine similarity is an abstract function `(seq<real>, seq<real>) -> real`. The
ranking is proved for every score function. `Deno.env.get("OPENAI_API_KEY")`
is an input of the handler. The handler reads the index as a parameter: this
is the snapshot the loader holds when ranking runs. In the source, that read
happens after the request body has been parsed and the embeddings call has
returned.

Some facts about the worker as written:

- It has no rate limiting.
- It does not reload the index when the index is empty.
- The answer is read only from the completion reply's `output_text`. An
  absent `output_text` gives `""`.
- The similarity loop runs over the question vector's length. A shorter
  index vector makes the sums that read it NaN; no score is special-cased.
- On the pre-flight path (`OPTIONS`), the handler passes the header record
  itself where `new Response` expects its init object. The model records
  exactly that (`HeaderRecordAsInit`). It claims nothing about the status or
  the headers that such a response ends up with.
- `main.ts` declares `INDEX` twice at the top level of one module: with `let`
  at main.ts:3 and with `const` at main.ts:29. That is a duplicate
  declaration, a SyntaxError raised before any of the module runs, so the
  file as written does not load. The model assumes the mutable binding,
  the one that `loadIndex` assigns.

## Model

| member | source | states |
|---|---|---|
| Loader.IndexLoader.constructor | main.ts:3-4 | the worker starts with an empty index and no ETag |
| Loader.ConditionalHeaders | main.ts:7-8 | `If-None-Match` is present exactly when a non-empty ETag is held and the load is not forced; its value is the held ETag; no other header is sent |
| Loader.IndexLoader.RequestHeaders | main.ts:7-8 | the header record built in place equals `ConditionalHeaders` of the held ETag and `force` |
| Loader.IndexLoader.LoadIndex | main.ts:6-15 | the fetch is called with `ConditionalHeaders`. A 304 returns with nothing changed. A rejected fetch throws. A status outside 2xx, other than 304, throws "Fetch index failed: <status>". An ok reply whose body is not JSON throws. Each of these is an if-and-only-if. In every one of them the index and the ETag keep their old values. An ok JSON reply replaces the index with the body and the ETag with the reply's `etag` header, which may be absent |
| Loader.StatusMessage | main.ts:12 | the message is the fixed text "Fetch index failed: " followed by digits that parse back to the status |
| Loader.IsOk | main.ts:12 | `Response.ok`: the status lies in 200-299 |
| Loader.StatusMessageInjective | main.ts:12 | distinct statuses give distinct error messages |
| Loader.RevalidateTwice | main.ts:6-15 | a 200 reply with a non-empty ETag, followed by an unforced load answered 304 when the request carries that ETag: the first load replaces the state, the second revalidates with the tag and keeps the entries and the tag |
| Handler.JsonHeaders | main.ts:34-40 | the header record has exactly five keys, with these values: JSON content type, the portfolio origin, methods `POST, OPTIONS`, allowed header `Content-Type`, and `no-store` caching |
| Handler.HeadersJson | main.ts:31-42 | `headersJSON(status)` is the given status (200 by default) with the five fixed headers |
| Handler.TrimOrEmpty | main.ts:110-112 | an absent string gives `""`. Otherwise the result is the string with exactly its leading and trailing white space removed: a slice with no white space at either end and only white space outside it |
| Handler.ExtractAnswer | main.ts:110-112 | the answer is `TrimOrEmpty` of the reply's `output_text` |
| Handler.Question | main.ts:59 | the question is `TrimOrEmpty` of the body's `question` |
| Handler.LongEnough | main.ts:60 | the length test counts UTF-16 code units. It always passes for 3 or more characters and never passes for fewer than 2. For exactly 2 characters it passes just when one of them lies outside the Basic Multilingual Plane |
| Handler.UserMessage | main.ts:91 | the user message is `Question: `, then the question, then the blank line and the `Contexte FAQ:` heading line, then the context: 26 fixed characters in all |
| Handler.ScoreBy | main.ts:80 | an index item's score is the similarity of the question vector with the item's embedding |
| Handler.Prompt | main.ts:79-91 | the prompt starts with the question line. After the 26 fixed characters comes exactly the formatted context of the top 3 index items by score. That context part is empty exactly when the index is empty |
| Handler.Handle | main.ts:50-112 | only the `OPTIONS` response has a null body, and only it passes the header record as the init |
| Handler.PreflightFirst | main.ts:51 | an `OPTIONS` request gets a null body and the header record as its init, whatever the body, key, index or outbound calls |
| Handler.ValidationOrder | main.ts:53-63 | checks run in source order. A non-POST method gets 405 "Use POST". An unparsable body gets 400 "Invalid JSON". A trimmed question shorter than 3 UTF-16 units gets 400 "Question too short". A missing or empty key gets 500 "Missing OPENAI_API_KEY". Each applies only when all earlier checks pass |
| Handler.ShortQuestionIgnoresKey | main.ts:59-63 | a too-short question gets 400, and the same response whatever the API key is |
| Handler.BlankQuestionTooShort | main.ts:59-60 | a question made only of white space is refused as too short |
| Handler.SuccessExactly | main.ts:53-112 | status 200 exactly when the method is POST, the body is JSON, the trimmed question is long enough, the key is truthy, the embedding call succeeds and the completion call on the prompt succeeds; a 200's body is the answer extracted from that completion reply's `output_text` |
| Handler.OutboundFailures | main.ts:71-108 | once validation passes: a failed embeddings call gives 500 with "Embedding failed" and the reply's text; after a successful embedding, a failed completion call gives 500 with "LLM failed" and the reply's text |
| Handler.UniformResponses | main.ts:53-112 | every modelled non-`OPTIONS` response has a body and the five fixed headers. Its status is one of 200, 400, 405 and 500. It carries an answer exactly when the status is 200 |
| BuildIndex.EntryText | build-index.ts:11 | the text of one entry, `Q: <q>\nA: <a>`; `EntryTextRoundTrip` decodes it back |
| BuildIndex.Texts | build-index.ts:11 | one text per entry, in order; text i is `Q: <q>\nA: <a>` of entry i |
| BuildIndex.TextsAppend | build-index.ts:11 | text construction distributes over concatenation of entry lists |
| BuildIndex.EntryTextRoundTrip | build-index.ts:11 | for a question without a newline, the entry is recovered from its text |
| BuildIndex.EntryTextInjective | build-index.ts:11 | entries whose questions have no newline and whose texts are equal are equal |
| BuildIndex.ItemsFrom | build-index.ts:30-35 | item i has id `next + i`, the question and answer of entry `next + i` and embedding i |
| BuildIndex.AssembleIndex | build-index.ts:30-35 | assembly fails (the `entries[i]` read throws) exactly when there are more embeddings than entries; otherwise there is one item per embedding, item i having id i, entry i's question and answer and embedding i |
| BuildIndex.AssembledIdsAscending | build-index.ts:31 | ids strictly increase along the index |
| BuildIndex.AssembledItemMatchesText | build-index.ts:11-35 | item i of the index is the entry whose text was embedded at position i |
| Cosine.Dot | main.ts:46 | the sum of `a[i] * b[i]` over the positions of `a`, added in loop order; the lemmas below state its properties |
| Cosine.CosineSums | main.ts:44-46 | the loop's three accumulators: `na` is the sum of squares of `a`. When `b` is at least as long, `dot` and `nb` are the sums over the first `|a|` positions. When `b` is shorter, `dot` and `nb` are undefined (NaN) |
| Cosine.SquaredNormNonNegative | main.ts:46 | the squared-norm accumulator is never negative |
| Cosine.DotNegation | main.ts:46 | the dot product with the negated vector is the negated squared norm |
| Cosine.DotPrefixOnly | main.ts:46 | only the first `|a|` positions of `b` affect the sum |
| Cosine.DotSymmetric | main.ts:46 | for equal lengths, the dot product is symmetric |
| Ranking.ScoreAll | main.ts:80 | one scored pair per index item, in index order, with that item's score |
| Ranking.Insert | main.ts:81 | inserting one pair adds exactly that pair to the multiset |
| Ranking.InsertDescending | main.ts:81 | insertion keeps a descending sequence descending |
| Ranking.InsertStable | main.ts:81 | insertion places the new pair before all pairs of equal score (stability step) |
| Ranking.SortDescending | main.ts:81 | the sort by `b.score - a.score` yields a descending permutation of its input |
| Ranking.SortStable | main.ts:81 | pairs of equal score keep their original relative order (the sort is stable) |
| Ranking.Items | main.ts:83 | projection keeps the length |
| Ranking.ItemsAt | main.ts:83 | projection keeps position i's item |
| Ranking.ItemsAppend | main.ts:83 | projection distributes over concatenation |
| Ranking.ItemsPermutation | main.ts:81-83 | projecting permuted pairs gives permuted items |
| Ranking.WithScorePrefix | main.ts:82 | the slice's pairs of a given score are a prefix of the sequence's |
| Ranking.TopK | main.ts:79-83 | the result has `min(k, |index|)` items, drawn from the index as a sub-multiset, by non-increasing score. Every index item left out scores at most every kept item. Items of equal score appear in index order, as a prefix of the index's items with that score |
| Ranking.TopKSplit | main.ts:81-83 | the kept items and the dropped items together are exactly the index |
| Ranking.ItemsOfScoreAll | main.ts:80-83 | scoring then projecting gives back the index |
| Context.Block | main.ts:85 | each block starts with `#` |
| Context.Blocks | main.ts:85 | one block per ranked item; block i is `#<i+1>\nQ: <q>\nA: <a>` |
| Context.FormatContext | main.ts:85 | the context is empty exactly when no item is ranked; otherwise it starts with block `#1` |
| Context.ContextHasBlock | main.ts:85 | block k (numbered k+1) sits at its offset in the context, followed by a blank line unless it is the last one |
| Context.ContextAppend | main.ts:85 | appending a ranked item appends a blank line and its block |
| Context.ContextSingle | main.ts:85 | a single ranked item gives exactly its block `#1` |
| JsString.Truthy | main.ts:8 | JavaScript truthiness of an optional string, as in the ETag test and the API-key test at main.ts:63: present and not empty |
| JsString.SkipLeading | main.ts:59 | the forward scan stops at the first character that is not white space, or at the end, and passes only white space |
| JsString.SkipTrailing | main.ts:59 | the backward scan stops just after the last character that is not white space, never below its lower bound, and passes only white space |
| JsString.Trim | main.ts:59 | the result has no white space at either end, and it is the input with only white space removed from each end |
| JsString.TrimIdempotent | main.ts:59 | trimming twice equals trimming once |
| JsString.TrimmedIsFixed | main.ts:112 | a string already without white space at either end is unchanged by `trim` |
| JsString.TrimAllWhitespace | main.ts:59 | an all-white-space string trims to `""` |
| JsString.Utf16Length | main.ts:60 | `length` counts UTF-16 code units: between the number of code points and twice that |
| JsString.Utf16LengthOfBmp | main.ts:60 | for text in the Basic Multilingual Plane, `length` is the number of characters |
| JsString.DecimalString | main.ts:85 | a number renders as a non-empty digit string with no leading zero |
| JsString.DecimalRoundTrip | main.ts:85 | parsing a rendered number gives the number back |
| JsString.DecimalInjective | main.ts:85 | distinct numbers render differently, so blocks are numbered distinctly |
| JsString.Join | main.ts:85 | the parts laid end to end with the separator between neighbours; `JoinPlacesPart` and `JoinAppend` state where each part lands |
| JsString.JoinPlacesPart | main.ts:85 | part k of a join sits at its offset and is followed by the separator unless it is the last part |
| JsString.JoinAppend | main.ts:85 | joining a longer list appends the separator and the new part |

## Left out

- The fetches at main.ts:10, 66-70 and 94-104 and at build-index.ts:13-23 are parameters. Left out: their URLs, request bodies, model names, and the `Authorization` header built from the key.
- `Deno.serve` (main.ts:50) and the async machinery are left out. The handler is a function of the request, key, index snapshot and outbound calls.
- The cold-start `await loadIndex()` (main.ts:20) and the 15-minute `setInterval` refresh that swallows errors (main.ts:22) are left out. `LoadIndex` models one call, and callers decide what to do with `Threw`.
- The static import at main.ts:28-29 is left out. Its `const INDEX` clashes with the `let INDEX` of main.ts:3, so the module as written does not load. The model assumes the mutable binding that `loadIndex` assigns.
- Logging (main.ts:16, build-index.ts:25, 38) is left out.
- File reads and writes (build-index.ts:10, 37), `Deno.exit` (build-index.ts:26) and the key check (build-index.ts:1-2) are left out. Only the computation from parsed entries and embeddings to the index is modelled.
- JSON parsing is left out. Parsed bodies are datatypes (`RequestBody`, `IndexBody`, `Payload`), and "not JSON" is its own case.
- The `question` field is modelled as already converted to a string. `toString` of non-string values is left out.
- `output_text` is modelled as a string or absent. `String(answer)` of a non-string `output_text` (main.ts:112) is left out.
- Loader.IndexLoader.LoadIndex: an ok reply's body is modelled as either an entry array or not JSON. Other JSON values are left out. For example, a body of `null`: main.ts:14-15 then replace both variables, and reading `INDEX.length` at line 16 throws. On such a throw the state does not keep its old values, unlike what the contract states for the modelled throws.
- The embedding reply's shape (`embJson.data[0].embedding`, main.ts:75-76) is not modelled. A reply missing it would throw inside the handler.
- A completion reply body that is not JSON (main.ts:109) is not modelled.
- A rejected embeddings or completion `fetch` (main.ts:66, 94) is not modelled. Neither is a completion body of JSON `null`, which makes reading `output_text` throw at main.ts:110. On these paths the handler throws. Deno then answers with its own error response, not one built by `headersJSON`. The reply datatypes have no case for them, so `UniformResponses` covers only the exits the handler itself returns.
- The system prompt text (main.ts:87-89) is a constant, not modelled. The completion call receives the user message only.
- The final division and square roots of `cosine` (main.ts:47) are left out, because they are floating point. Numbers are `real`, and the ranking is proved for an arbitrary score function.
- The ranking assumes every score is a `real`. A NaN score turns the comparator into inconsistent order, and that is not modelled.
- `Cosine.CosineSums`: NaN is modelled as `None` for `dot` and `nb` when `b` is shorter than `a`. The model does not follow NaN into `na`, which stays defined, as in the source.
- Strings are sequences of Unicode code points. Lone UTF-16 surrogates cannot appear.
