/** The index loader: the worker's two module-level variables, the loaded entries
    and the ETag of the response they came from, and the conditional fetch that
    revalidates them (If-None-Match, section 13.1.2 of RFC 9110; 304 Not
    Modified, section 15.4.5; ETag, section 8.8.3). The fetch itself is a
    parameter: a function from the request headers sent to the reply received. */
module Loader {
  import opened FaqTypes
  import opened JsString

  const IfNoneMatch := "If-None-Match"

  /** The reply body: the parsed entry list, or text that is not JSON. */
  datatype IndexBody = Entries(items: seq<FaqIndexItem>) | MalformedJson

  /** What the index fetch resolves to: a rejected request, or a status, the
      `etag` response header (absent when the server sends none) and the body. */
  datatype IndexResponse = NetworkError | Reply(status: nat, etag: Option<string>, body: IndexBody)

  /** Why `loadIndex` throws. */
  datatype LoadError = FetchRejected | BadStatus(message: string) | BodyNotJson

  /** How `loadIndex` ends: returning early on 304, replacing the state, or throwing. */
  datatype LoadOutcome = NotModified | Replaced | Threw(error: LoadError)

  /** `Response.ok`: a status in the 2xx range. */
  predicate IsOk(status: nat) {
    200 <= status <= 299
  }

  /** The request headers: `If-None-Match` carries the held ETag exactly when one
      is held (a non-empty string, by JavaScript truthiness) and the load is not
      forced; otherwise no header at all. */
  function ConditionalHeaders(etag: Option<string>, force: bool): (headers: map<string, string>)
    ensures IfNoneMatch in headers <==> Truthy(etag) && !force
    ensures IfNoneMatch in headers ==> headers[IfNoneMatch] == etag.value
    ensures headers.Keys <= {IfNoneMatch}
  {
    if Truthy(etag) && !force then map[IfNoneMatch := etag.value] else map[]
  }

  /** The error message for a status that is neither 304 nor ok. */
  function StatusMessage(status: nat): (message: string)
    ensures |message| > 20 && message[..20] == "Fetch index failed: "
    ensures forall i :: 20 <= i < |message| ==> IsDigit(message[i])
    ensures ParseDecimal(message[20..]) == status
  {
    var m := "Fetch index failed: " + DecimalString(status);
    assert m[20..] == DecimalString(status);
    DecimalRoundTrip(status);
    m
  }

  /** The message names the status, so distinct statuses give distinct messages. */
  lemma StatusMessageInjective(s1: nat, s2: nat)
    requires StatusMessage(s1) == StatusMessage(s2)
    ensures s1 == s2
  {
    var p := "Fetch index failed: ";
    assert DecimalString(s1) == StatusMessage(s1)[|p|..];
    assert DecimalString(s2) == StatusMessage(s2)[|p|..];
    DecimalInjective(s1, s2);
  }

  class IndexLoader {
    /** `INDEX`: the entries of the last successful load. */
    var index: seq<FaqIndexItem>
    /** `ETAG`: the revalidation token of the last successful load, if any. */
    var etag: Option<string>

    /** Process start: no entries and no token. */
    constructor ()
      ensures index == [] && etag == None
    {
      index := [];
      etag := None;
    }

    /** Fills the header record in place from the held token. */
    method RequestHeaders(force: bool) returns (headers: map<string, string>)
      ensures headers == ConditionalHeaders(etag, force)
    {
      headers := map[];
      if Truthy(etag) && !force {
        headers := headers[IfNoneMatch := etag.value];
      }
    }

    /** `loadIndex(force)`. A 304 returns without touching the state; a rejected
        fetch, a status that is not ok, or a body that is not JSON throws and
        leaves both variables as they were; an ok reply replaces both, the token
        with the reply's `etag` header even when that is absent. */
    method LoadIndex(fetch: map<string, string> -> IndexResponse, force: bool := false) returns (outcome: LoadOutcome)
      modifies this
      ensures var r := fetch(ConditionalHeaders(old(etag), force));
        && (outcome == NotModified <==> r.Reply? && r.status == 304)
        && (outcome == Replaced <==> r.Reply? && IsOk(r.status) && r.body.Entries?)
        && (outcome == Threw(FetchRejected) <==> r.NetworkError?)
        && (outcome.Threw? && outcome.error.BadStatus? <==> r.Reply? && r.status != 304 && !IsOk(r.status))
        && (outcome.Threw? && outcome.error.BadStatus? ==> outcome.error.message == StatusMessage(r.status))
        && (outcome == Threw(BodyNotJson) <==> r.Reply? && IsOk(r.status) && r.body.MalformedJson?)
        && (outcome == Replaced ==> index == r.body.items && etag == r.etag)
      ensures outcome != Replaced ==> index == old(index) && etag == old(etag)
    {
      var headers := RequestHeaders(force);
      var r := fetch(headers);
      if r.NetworkError? {
        return Threw(FetchRejected);
      }
      if r.status == 304 {
        return NotModified;
      }
      if !IsOk(r.status) {
        return Threw(BadStatus(StatusMessage(r.status)));
      }
      match r.body
      case MalformedJson =>
        outcome := Threw(BodyNotJson);
      case Entries(items) =>
        index := items;
        etag := r.etag;
        outcome := Replaced;
    }
  }

  /** Two loads in a row against an unchanged source: after a successful load that
      received a non-empty ETag, the next unforced load revalidates with it, and a
      304 answer keeps the loaded entries and the token. Every state change goes
      through `LoadIndex` and its contract. */
  method RevalidateTwice(loader: IndexLoader, first: IndexResponse, tag: string, items: seq<FaqIndexItem>)
      returns (o1: LoadOutcome, o2: LoadOutcome)
    requires first == Reply(200, Some(tag), Entries(items)) && tag != ""
    modifies loader
    ensures o1 == Replaced && o2 == NotModified
    ensures loader.index == items && loader.etag == Some(tag)
  {
    o1 := loader.LoadIndex(_ => first);
    var sent := ConditionalHeaders(loader.etag, false);
    assert sent == map[IfNoneMatch := tag];
    o2 := loader.LoadIndex(h => if IfNoneMatch in h && h[IfNoneMatch] == tag then Reply(304, None, MalformedJson) else first);
  }
}
