/** The request handler of the serving worker: a fixed sequence of checks, each
    an early return with its own status and error, then the embedding call, the
    top-3 retrieval, the completion call and the answer. The two outbound calls
    and the similarity function are parameters; the index is the loader's
    current snapshot. */
module Handler {
  import opened FaqTypes
  import opened JsString
  import Ranking
  import Context

  const Origin := "https://delitamakanda.github.io"

  /** How the request body parsed: not JSON at all, or JSON whose `question`
      field, when present and not null, is already converted to a string. */
  datatype RequestBody = InvalidJson | Json(question: Option<string>)

  datatype Request = Request(verb: string, body: RequestBody)

  /** The embeddings call: a non-ok reply with its text, or the question's vector. */
  datatype EmbeddingReply = EmbeddingFailed(details: string) | Embedded(vector: seq<real>)

  /** The completion call: a non-ok reply with its text, or the reply's
      `output_text` field, absent when missing or null. */
  datatype CompletionReply = CompletionFailed(details: string) | Completed(outputText: Option<string>)

  /** The JSON object sent back, before serialisation. */
  datatype Payload = Error(error: string) | ErrorWithDetails(error: string, details: string) | Answer(answer: string)

  /** The second argument of `new Response`: either what `headersJSON` builds
      (a status and the header record), or, on the pre-flight path, the header
      record itself passed where the init object belongs. */
  datatype ResponseInit = StatusAndHeaders(status: nat, headers: map<string, string>) | HeaderRecordAsInit(record: map<string, string>)

  datatype HttpResponse = Response(body: Option<Payload>, init: ResponseInit)

  /** The five fixed headers carried by every JSON response. */
  function JsonHeaders(): (h: map<string, string>)
    ensures h.Keys == {"Content-Type", "Access-Control-Allow-Origin", "Access-Control-Allow-Methods",
                       "Access-Control-Allow-Headers", "Cache-Control"}
    ensures |h| == 5
    ensures h["Content-Type"] == "application/json" && h["Access-Control-Allow-Origin"] == Origin
    ensures h["Access-Control-Allow-Methods"] == "POST, OPTIONS"
    ensures h["Access-Control-Allow-Headers"] == "Content-Type" && h["Cache-Control"] == "no-store"
  {
    map["Content-Type" := "application/json",
        "Access-Control-Allow-Origin" := Origin,
        "Access-Control-Allow-Methods" := "POST, OPTIONS",
        "Access-Control-Allow-Headers" := "Content-Type",
        "Cache-Control" := "no-store"]
  }

  /** The response init for a JSON reply: a status, 200 unless given, and the
      fixed header record. */
  function HeadersJson(status: nat := 200): (init: ResponseInit)
    ensures init.StatusAndHeaders? && init.status == status && init.headers == JsonHeaders()
  {
    StatusAndHeaders(status, JsonHeaders())
  }

  /** An optional string, or the empty string when absent, with white space
      removed from both ends: exactly the slice that has no white space at
      either end and only white space outside it. */
  function TrimOrEmpty(s: Option<string>): (r: string)
    ensures IsTrimmed(r)
    ensures s.None? ==> r == ""
    ensures s.Some? ==>
      exists i, j :: 0 <= i <= j <= |s.value| && r == s.value[i..j] &&
        AllWhitespace(s.value[..i]) && AllWhitespace(s.value[j..])
  {
    Trim(s.GetOr(""))
  }

  /** The answer text: the reply's output text, trimmed, or the empty string
      when the reply has none. */
  function ExtractAnswer(outputText: Option<string>): string {
    TrimOrEmpty(outputText)
  }

  /** The user message of the completion request: the question on a labelled
      line, a blank line, the context heading, then the context. */
  function UserMessage(question: string, context: string): (m: string)
    ensures |m| == |question| + |context| + 26
    ensures m[..10 + |question|] == "Question: " + question
    ensures m[10 + |question|..|m| - |context|] == "\n\nContexte FAQ:\n"
    ensures m[|m| - |context|..] == context
  {
    "Question: " + question + "\n\nContexte FAQ:\n" + context
  }

  /** The question as validated: the body's question, or the empty string when
      it has none, with white space removed from both ends. */
  function Question(q: Option<string>): string {
    TrimOrEmpty(q)
  }

  /** A question passes when its JavaScript length, in UTF-16 code units, is at
      least 3: three characters always pass, one never does, and two pass
      exactly when at least one lies outside the Basic Multilingual Plane. */
  function LongEnough(question: string): (ok: bool)
    ensures |question| >= 3 ==> ok
    ensures ok ==> |question| >= 2
    ensures |question| == 2 ==> (ok <==> question[0] as int >= 0x1_0000 || question[1] as int >= 0x1_0000)
  {
    assert |question| == 2 ==>
      question[1..][0] == question[1] && question[1..][1..] == [] && Utf16Length(question[1..][1..]) == 0 &&
      Utf16Length(question) == (if question[0] as int >= 0x1_0000 then 2 else 1) + (if question[1] as int >= 0x1_0000 then 2 else 1);
    Utf16Length(question) >= 3
  }

  function ErrorResponse(status: nat, error: string): HttpResponse {
    Response(Some(Error(error)), HeadersJson(status))
  }

  /** The score of an index item: its similarity with the question's vector. */
  function ScoreBy(cosine: (seq<real>, seq<real>) -> real, qVec: seq<real>): FaqIndexItem -> real {
    (item: FaqIndexItem) => cosine(qVec, item.embedding)
  }

  /** The user message for a question: the question and the context block of
      its top 3 index entries; the context part is empty exactly when the index is. */
  function Prompt(question: string, index: seq<FaqIndexItem>, cosine: (seq<real>, seq<real>) -> real,
                  qVec: seq<real>): (p: string)
    ensures |p| >= 10 + |question| && p[..10 + |question|] == "Question: " + question
    ensures |p| == |question| + 26 <==> index == []
    ensures |p| >= |question| + 26 &&
      p[|question| + 26..] == Context.FormatContext(Ranking.TopK(index, ScoreBy(cosine, qVec), 3))
  {
    UserMessage(question, Context.FormatContext(Ranking.TopK(index, ScoreBy(cosine, qVec), 3)))
  }

  /** The handler: only the pre-flight response has no body, and only it passes
      the header record where the init belongs. */
  function Handle(req: Request, apiKey: Option<string>, index: seq<FaqIndexItem>,
                  embed: string -> EmbeddingReply, cosine: (seq<real>, seq<real>) -> real,
                  complete: string -> CompletionReply): (r: HttpResponse)
    ensures r.body.None? <==> req.verb == "OPTIONS"
    ensures r.init.HeaderRecordAsInit? <==> req.verb == "OPTIONS"
  {
    if req.verb == "OPTIONS" then Response(None, HeaderRecordAsInit(JsonHeaders()))
    else if req.verb != "POST" then ErrorResponse(405, "Use POST")
    else if req.body.InvalidJson? then ErrorResponse(400, "Invalid JSON")
    else
      var question := Question(req.body.question);
      if !LongEnough(question) then ErrorResponse(400, "Question too short")
      else if !Truthy(apiKey) then ErrorResponse(500, "Missing OPENAI_API_KEY")
      else match embed(question)
        case EmbeddingFailed(t) => Response(Some(ErrorWithDetails("Embedding failed", t)), HeadersJson(500))
        case Embedded(qVec) =>
          match complete(Prompt(question, index, cosine, qVec))
          case CompletionFailed(t) => Response(Some(ErrorWithDetails("LLM failed", t)), HeadersJson(500))
          case Completed(out) => Response(Some(Answer(ExtractAnswer(out))), HeadersJson())
  }

  /** The status of a response built by `headersJSON`, or 0 on the pre-flight path. */
  function StatusOf(r: HttpResponse): nat {
    if r.init.StatusAndHeaders? then r.init.status else 0
  }

  /** A pre-flight request gets a null body whatever else holds. */
  lemma PreflightFirst(req: Request, apiKey: Option<string>, index: seq<FaqIndexItem>,
                       embed: string -> EmbeddingReply, cosine: (seq<real>, seq<real>) -> real,
                       complete: string -> CompletionReply)
    requires req.verb == "OPTIONS"
    ensures Handle(req, apiKey, index, embed, cosine, complete) == Response(None, HeaderRecordAsInit(JsonHeaders()))
  {
  }

  /** The checks run in order, and each rejects before anything after it is looked
      at: a non-POST method before the body, the body before the question, the
      question before the API key, the key before any outbound call. */
  lemma ValidationOrder(req: Request, apiKey: Option<string>, index: seq<FaqIndexItem>,
                        embed: string -> EmbeddingReply, cosine: (seq<real>, seq<real>) -> real,
                        complete: string -> CompletionReply)
    requires req.verb != "OPTIONS"
    ensures var r := Handle(req, apiKey, index, embed, cosine, complete);
      && (req.verb != "POST" ==> r == ErrorResponse(405, "Use POST"))
      && (req.verb == "POST" && req.body.InvalidJson? ==> r == ErrorResponse(400, "Invalid JSON"))
      && (req.verb == "POST" && req.body.Json? && !LongEnough(Question(req.body.question)) ==>
            r == ErrorResponse(400, "Question too short"))
      && (req.verb == "POST" && req.body.Json? && LongEnough(Question(req.body.question)) && !Truthy(apiKey) ==>
            r == ErrorResponse(500, "Missing OPENAI_API_KEY"))
  {
  }

  /** A question of fewer than 3 characters after trimming is refused with 400
      even when the API key is missing: the key check comes later. */
  lemma ShortQuestionIgnoresKey(req: Request, k1: Option<string>, k2: Option<string>, index: seq<FaqIndexItem>,
                                embed: string -> EmbeddingReply, cosine: (seq<real>, seq<real>) -> real,
                                complete: string -> CompletionReply)
    requires req.verb == "POST" && req.body.Json? && !LongEnough(Question(req.body.question))
    ensures Handle(req, k1, index, embed, cosine, complete) == Handle(req, k2, index, embed, cosine, complete)
    ensures StatusOf(Handle(req, k1, index, embed, cosine, complete)) == 400
  {
  }

  /** A question made only of whitespace is too short. */
  lemma BlankQuestionTooShort(q: string)
    requires AllWhitespace(q)
    ensures !LongEnough(Question(Some(q)))
  {
    TrimAllWhitespace(q);
  }

  /** The handler answers 200 exactly when every check passes and both outbound
      calls succeed, and the answer is then the trimmed `output_text`. */
  lemma SuccessExactly(req: Request, apiKey: Option<string>, index: seq<FaqIndexItem>,
                       embed: string -> EmbeddingReply, cosine: (seq<real>, seq<real>) -> real,
                       complete: string -> CompletionReply)
    ensures var r := Handle(req, apiKey, index, embed, cosine, complete);
      StatusOf(r) == 200 <==>
        && req.verb == "POST" && req.body.Json?
        && LongEnough(Question(req.body.question)) && Truthy(apiKey)
        && embed(Question(req.body.question)).Embedded?
        && var question := Question(req.body.question);
           complete(Prompt(question, index, cosine, embed(question).vector)).Completed?
    ensures var r := Handle(req, apiKey, index, embed, cosine, complete);
      StatusOf(r) == 200 ==>
        req.body.Json? &&
        var question := Question(req.body.question);
        embed(question).Embedded? &&
        var reply := complete(Prompt(question, index, cosine, embed(question).vector));
        reply.Completed? && r.body == Some(Answer(ExtractAnswer(reply.outputText)))
  {
    var r := Handle(req, apiKey, index, embed, cosine, complete);
    if req.verb == "OPTIONS" {
      assert StatusOf(r) == 0;
    } else if req.verb != "POST" {
      assert r == ErrorResponse(405, "Use POST");
    } else if req.body.InvalidJson? {
      assert r == ErrorResponse(400, "Invalid JSON");
    } else {
      var question := Question(req.body.question);
      if !LongEnough(question) {
        assert r == ErrorResponse(400, "Question too short");
      } else if !Truthy(apiKey) {
        assert r == ErrorResponse(500, "Missing OPENAI_API_KEY");
      } else {
        match embed(question)
        case EmbeddingFailed(t) =>
          assert r == Response(Some(ErrorWithDetails("Embedding failed", t)), HeadersJson(500));
        case Embedded(qVec) =>
          match complete(Prompt(question, index, cosine, qVec))
          case CompletionFailed(t) =>
            assert r == Response(Some(ErrorWithDetails("LLM failed", t)), HeadersJson(500));
          case Completed(out) =>
            assert r == Response(Some(Answer(ExtractAnswer(out))), HeadersJson());
      }
    }
  }

  /** Every response other than the pre-flight one carries the five fixed
      headers, its status is one of 200, 400, 405 and 500, and it carries an
      answer exactly when its status is 200 and an error otherwise. */
  lemma UniformResponses(req: Request, apiKey: Option<string>, index: seq<FaqIndexItem>,
                         embed: string -> EmbeddingReply, cosine: (seq<real>, seq<real>) -> real,
                         complete: string -> CompletionReply)
    requires req.verb != "OPTIONS"
    ensures var r := Handle(req, apiKey, index, embed, cosine, complete);
      && r.init.StatusAndHeaders? && r.init.headers == JsonHeaders()
      && (r.init.status == 200 || r.init.status == 400 || r.init.status == 405 || r.init.status == 500)
      && r.body.Some? && (r.init.status == 200 <==> r.body.value.Answer?)
  {
    var r := Handle(req, apiKey, index, embed, cosine, complete);
    if req.verb != "POST" {
      assert r == ErrorResponse(405, "Use POST");
    } else if req.body.InvalidJson? {
      assert r == ErrorResponse(400, "Invalid JSON");
    } else {
      var question := Question(req.body.question);
      if !LongEnough(question) {
        assert r == ErrorResponse(400, "Question too short");
      } else if !Truthy(apiKey) {
        assert r == ErrorResponse(500, "Missing OPENAI_API_KEY");
      } else {
        match embed(question)
        case EmbeddingFailed(t) =>
          assert r == Response(Some(ErrorWithDetails("Embedding failed", t)), HeadersJson(500));
        case Embedded(qVec) =>
          match complete(Prompt(question, index, cosine, qVec))
          case CompletionFailed(t) =>
            assert r == Response(Some(ErrorWithDetails("LLM failed", t)), HeadersJson(500));
          case Completed(out) =>
            assert r == Response(Some(Answer(ExtractAnswer(out))), HeadersJson());
      }
    }
  }

  /** The two outbound calls fail into 500 responses that carry the failing
      reply's text: the embeddings call with "Embedding failed", and, after a
      successful embedding, the completion call with "LLM failed". */
  lemma OutboundFailures(req: Request, apiKey: Option<string>, index: seq<FaqIndexItem>,
                         embed: string -> EmbeddingReply, cosine: (seq<real>, seq<real>) -> real,
                         complete: string -> CompletionReply)
    requires req.verb == "POST" && req.body.Json?
    requires LongEnough(Question(req.body.question)) && Truthy(apiKey)
    ensures var r := Handle(req, apiKey, index, embed, cosine, complete);
      var question := Question(req.body.question);
      && (embed(question).EmbeddingFailed? ==>
            r == Response(Some(ErrorWithDetails("Embedding failed", embed(question).details)), HeadersJson(500)))
      && (embed(question).Embedded? && complete(Prompt(question, index, cosine, embed(question).vector)).CompletionFailed? ==>
            r == Response(Some(ErrorWithDetails("LLM failed",
                   complete(Prompt(question, index, cosine, embed(question).vector)).details)), HeadersJson(500)))
  {
  }
}
