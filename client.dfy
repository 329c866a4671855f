/**
  The HTTP conventions of the server client: the authentication header, the
  diagnostic text built from an error response, the JSON content-type check and
  the PUT-then-POST fallback for servers that reject PUT (status 405, Method Not
  Allowed, section 15.5.6 of RFC 9110; status 501, Not Implemented, section
  15.6.2 of RFC 9110).

  The network itself is an oracle: `send` answers one call with a decoded body
  or a failure.
 */
module Client {
  import opened Wrappers
  import Text
  import Json
  import Dedup

  /** `jf_headers(api_key)`: the single header that authenticates a request. */
  function JfHeaders(apiKey: string): (h: map<string, string>)
    ensures h.Keys == {"X-Emby-Token"} && h["X-Emby-Token"] == apiKey
  {
    map["X-Emby-Token" := apiKey]
  }

  /**
    What the client sees of an HTTP response: its status code (0 when absent),
    reason phrase, URL, `content-type` header ("" when absent), body text, and
    the body decoded as JSON (None when `response.json()` raises).
   */
  datatype HttpResponse = HttpResponse(
    status: int, reason: string, url: string, contentType: string, text: string, body: Option<Json.Json>)

  /** An `HTTPError`: its message (`str(error)`) and the response it carries, if any. */
  datatype HttpError = HttpError(message: string, response: Option<HttpResponse>)

  /** How a call can fail: an HTTP error status, or any other exception with its text. */
  datatype Failure = HttpFailure(error: HttpError) | OtherFailure(message: string)

  // _extract_error_details

  /** `add_detail(value, prefix)`'s candidate: nothing for None or blank text, else prefix and stripped text. */
  function Detail(value: Json.Json, prefix: string): (d: Option<string>)
    ensures d.Some? ==> Text.StartsWith(d.value, prefix) && |d.value| > |prefix|
  {
    if value.JNull? then None
    else
      var text := Text.Strip(Json.PyStr(value));
      if text == "" then None else Some(prefix + text)
  }

  /** `payload.get(upper) or payload.get(lower)`. */
  function Either(payload: map<string, Json.Json>, upper: string, lower: string): Json.Json {
    Json.Or(Json.Get(payload, upper), Json.Get(payload, lower))
  }

  /** The details of the `ResponseStatus` part, by its shape. */
  function StatusDetails(status: Json.Json): seq<Option<string>> {
    match status
    case JObj(rs) =>
      [Detail(Either(rs, "Message", "message"), "")]
      + [Detail(Either(rs, "ErrorCode", "errorCode"), "ResponseStatus.ErrorCode=")]
    case _ => if Json.Truthy(status) then [Detail(status, "ResponseStatus=")] else []
  }

  /**
    The candidate details of an error body in the order they are offered:
    Message, ErrorCode, then ResponseStatus's Message and ErrorCode (or
    ResponseStatus itself when it is not an object).
   */
  function Candidates(payload: map<string, Json.Json>): seq<Option<string>> {
    [Detail(Either(payload, "Message", "message"), "")]
    + [Detail(Either(payload, "ErrorCode", "errorCode"), "ErrorCode=")]
    + StatusDetails(Either(payload, "ResponseStatus", "responseStatus"))
  }

  /** The candidates that are present, in order. */
  function Present(cs: seq<Option<string>>): (r: seq<string>)
    ensures forall d :: d in r <==> Some(d) in cs
    decreases |cs|
  {
    if cs == [] then []
    else
      var rest := Present(cs[..|cs| - 1]);
      assert forall c :: c in cs <==> c in cs[..|cs| - 1] || c == cs[|cs| - 1];
      match cs[|cs| - 1]
      case None => rest
      case Some(d) => rest + [d]
  }

  /**
    Taking the present candidates commutes with concatenation: the values keep
    the order of the candidates they come from.
   */
  lemma {:induction false} PresentAppend(a: seq<Option<string>>, b: seq<Option<string>>)
    ensures Present(a + b) == Present(a) + Present(b)
    ensures Present([None]) == [] && forall d: string :: Present([Some(d)]) == [d]
    decreases |b|
  {
    assert forall d: string :: [Some(d)][..0] == [];
    if b != [] {
      var b' := b[..|b| - 1];
      assert (a + b)[..|a + b| - 1] == a + b';
      PresentAppend(a, b');
    } else {
      assert a + b == a;
    }
  }

  /** The details list: the present candidates with exact repeats dropped. */
  function DetailList(payload: map<string, Json.Json>): seq<string> {
    Dedup.FirstByKey(Present(Candidates(payload)), Dedup.Identity)
  }

  /** `_extract_error_details(response)`: "" unless the body decodes to a JSON object. */
  function ErrorDetailsOf(response: HttpResponse): (r: string)
    ensures response.body.None? || !response.body.value.JObj? ==> r == ""
  {
    match response.body
    case Some(JObj(payload)) => Text.Join(DetailList(payload), "; ")
    case _ => ""
  }

  /** One more candidate extends the details as `add_detail` extends `details`. */
  lemma DetailStep(done: seq<Option<string>>, c: Option<string>)
    ensures var names := Dedup.FirstByKey(Present(done), Dedup.Identity);
      Dedup.FirstByKey(Present(done + [c]), Dedup.Identity)
      == if c.None? || c.value in names then names else names + [c.value]
  {
    var names := Dedup.FirstByKey(Present(done), Dedup.Identity);
    assert (done + [c])[..|done|] == done;
    if c.Some? {
      Dedup.FirstByKeySnoc(Present(done), c.value, Dedup.Identity<string>);
      Dedup.FirstByKeyKeys(Present(done), Dedup.Identity<string>);
      assert c.value in names <==> Dedup.Identity(c.value) in Dedup.KeysOf(names, Dedup.Identity);
    }
  }

  /** `add_detail(value, prefix)`: appends the detail unless it is absent, blank or already listed. */
  method AddDetail(details: seq<string>, seen: set<string>, ghost done: seq<Option<string>>, value: Json.Json, prefix: string)
      returns (details': seq<string>, seen': set<string>)
    requires details == Dedup.FirstByKey(Present(done), Dedup.Identity)
    requires seen == Dedup.KeysOf(details, Dedup.Identity)
    ensures details' == Dedup.FirstByKey(Present(done + [Detail(value, prefix)]), Dedup.Identity)
    ensures seen' == Dedup.KeysOf(details', Dedup.Identity)
  {
    DetailStep(done, Detail(value, prefix));
    details', seen' := details, seen;
    if value.JNull? {
      return;
    }
    var text := Text.Strip(Json.PyStr(value));
    if text == "" {
      return;
    }
    var detail := prefix + text;
    if detail in seen {
      return;
    }
    seen' := seen + {detail};
    details' := details + [detail];
    Dedup.KeysOfSnoc(details, detail, Dedup.Identity<string>);
  }

  /** The `ResponseStatus` part of `_extract_error_details`, by the shape of the value. */
  method AddStatusDetails(details: seq<string>, seen: set<string>, ghost done: seq<Option<string>>, status: Json.Json)
      returns (details': seq<string>, seen': set<string>)
    requires details == Dedup.FirstByKey(Present(done), Dedup.Identity)
    requires seen == Dedup.KeysOf(details, Dedup.Identity)
    ensures details' == Dedup.FirstByKey(Present(done + StatusDetails(status)), Dedup.Identity)
    ensures seen' == Dedup.KeysOf(details', Dedup.Identity)
  {
    details', seen' := details, seen;
    if status.JObj? {
      var rs := status.fields;
      var message := Either(rs, "Message", "message");
      details', seen' := AddDetail(details', seen', done, message, "");
      ghost var first := Detail(message, "");
      var code := Either(rs, "ErrorCode", "errorCode");
      details', seen' := AddDetail(details', seen', done + [first], code, "ResponseStatus.ErrorCode=");
      ghost var second := Detail(code, "ResponseStatus.ErrorCode=");
      assert StatusDetails(status) == [first] + [second];
      assert done + [first] + [second] == done + ([first] + [second]);
    } else if Json.Truthy(status) {
      details', seen' := AddDetail(details', seen', done, status, "ResponseStatus=");
    } else {
      assert done + StatusDetails(status) == done;
    }
  }

  /** The body of `_extract_error_details`: one `add_detail` call per candidate, sharing `details` and `seen`. */
  method ExtractErrorDetails(response: HttpResponse) returns (r: string)
    ensures r == ErrorDetailsOf(response)
  {
    if response.body.None? || !response.body.value.JObj? {
      return "";
    }
    var payload := response.body.value.fields;
    var details: seq<string>, seen: set<string> := [], {};
    var message := Either(payload, "Message", "message");
    details, seen := AddDetail(details, seen, [], message, "");
    var errorCode := Either(payload, "ErrorCode", "errorCode");
    details, seen := AddDetail(details, seen, [Detail(message, "")], errorCode, "ErrorCode=");
    var status := Either(payload, "ResponseStatus", "responseStatus");
    details, seen := AddStatusDetails(details, seen, [Detail(message, "")] + [Detail(errorCode, "ErrorCode=")], status);
    assert [Detail(message, "")] + [Detail(errorCode, "ErrorCode=")] + StatusDetails(status) == Candidates(payload);
    assert details == DetailList(payload);
    assert ErrorDetailsOf(response) == Text.Join(DetailList(payload), "; ");
    r := Text.Join(details, "; ");
  }

  /**
    Deduplicating the present candidates keeps each present candidate exactly
    once, nothing else, and puts the first candidate first when it is present.
   */
  lemma DedupPresent(cs: seq<Option<string>>)
    ensures var r := Dedup.FirstByKey(Present(cs), Dedup.Identity);
      (forall d :: d in r <==> Some(d) in cs)
      && (forall i, j :: 0 <= i < j < |r| ==> r[i] != r[j])
      && (cs != [] && cs[0].Some? ==> r != [] && r[0] == cs[0].value)
  {
    var present := Present(cs);
    Dedup.FirstByKeyKeys(present, Dedup.Identity<string>);
    Dedup.FirstByKeyDistinct(present, Dedup.Identity<string>);
    forall d | Some(d) in cs ensures d in Dedup.FirstByKey(present, Dedup.Identity) {
      assert Dedup.Identity(d) in Dedup.KeysOf(present, Dedup.Identity);
    }
    if cs != [] && cs[0].Some? {
      var m := cs[0];
      assert cs[..1] == [m];
      assert Present([m]) == [] + [m.value];
      PresentPrefix(cs, 1);
      assert present[..1] == [m.value];
      assert Dedup.FirstByKey([m.value], Dedup.Identity<string>) == [m.value];
      Dedup.FirstByKeyPrefix(present, Dedup.Identity<string>, 1);
    }
  }

  /**
    The details list holds each present candidate exactly once and nothing else;
    a non-blank Message comes first, and the details of the first `k`
    candidates (Message, ErrorCode, ResponseStatus's Message, its ErrorCode or
    ResponseStatus itself) form a prefix of the list, so the details follow
    the order in which the candidates are offered.
   */
  lemma DetailListSpec(payload: map<string, Json.Json>)
    ensures forall d :: d in DetailList(payload) <==> Some(d) in Candidates(payload)
    ensures forall i, j :: 0 <= i < j < |DetailList(payload)| ==> DetailList(payload)[i] != DetailList(payload)[j]
    ensures var m := Detail(Either(payload, "Message", "message"), "");
      m.Some? ==> DetailList(payload) != [] && DetailList(payload)[0] == m.value
    ensures forall k :: 0 <= k <= |Candidates(payload)| ==>
      Dedup.FirstByKey(Present(Candidates(payload)[..k]), Dedup.Identity) <= DetailList(payload)
  {
    var cs := Candidates(payload);
    DedupPresent(cs);
    var r := Dedup.FirstByKey(Present(cs), Dedup.Identity);
    assert DetailList(payload) == r;
    assert forall i, j :: 0 <= i < j < |r| ==> r[i] != r[j];
    assert cs[0] == Detail(Either(payload, "Message", "message"), "");
    forall k | 0 <= k <= |cs|
      ensures Dedup.FirstByKey(Present(cs[..k]), Dedup.Identity) <= r
    {
      PresentPrefix(cs, k);
      var m := |Present(cs[..k])|;
      assert Present(cs)[..m] == Present(cs[..k]);
      Dedup.FirstByKeyPrefix(Present(cs), Dedup.Identity<string>, m);
    }
  }

  lemma {:induction false} PresentPrefix(cs: seq<Option<string>>, k: nat)
    requires k <= |cs|
    ensures Present(cs[..k]) <= Present(cs)
    decreases |cs| - k
  {
    if k < |cs| {
      assert cs[..|cs| - 1][..k] == cs[..k];
      PresentPrefix(cs[..|cs| - 1], k);
    } else {
      assert cs[..k] == cs;
    }
  }

  // format_http_error

  const RequestFailed: string := "HTTP request failed"

  /** The status line used when the error has no message of its own. */
  function StatusMessage(response: HttpResponse): (m: string)
    ensures m != ""
  {
    var code := if response.status != 0 then "HTTP " + Text.IntToString(response.status) else RequestFailed;
    var withReason := if response.reason != "" then code + " " + response.reason else code;
    if response.url != "" then withReason + " for url: " + response.url else withReason
  }

  /** The message once the details are known: `base - details`, or the status line in place of a blank base. */
  function Compose(base: string, details: string, status: string): (r: string)
    ensures base != "" ==> Text.StartsWith(r, base)
  {
    if details == "" then (if base != "" then base else RequestFailed)
    else
      var head := if base != "" then base else status;
      assert (head + " - " + details)[..|head|] == head;
      head + " - " + details
  }

  /** `format_http_error(error)`. */
  function FormatHttpError(error: HttpError): (r: string)
    ensures r != ""
    ensures error.response.None? ==> r == if Text.Strip(error.message) != "" then Text.Strip(error.message) else RequestFailed
    ensures Text.Strip(error.message) != "" ==> Text.StartsWith(r, Text.Strip(error.message))
  {
    var base := Text.Strip(error.message);
    match error.response
    case None => if base != "" then base else RequestFailed
    case Some(response) => Compose(base, ErrorDetailsOf(response), StatusMessage(response))
  }

  lemma ComposeSpec(base: string, details: string, status: string)
    requires status != ""
    ensures Compose(base, details, status) != ""
    ensures details != "" ==>
      exists head :: head != "" && Compose(base, details, status) == head + " - " + details && head == (if base != "" then base else status)
  {
    if details != "" {
      var head := if base != "" then base else status;
      assert Compose(base, details, status) == head + " - " + details;
    }
  }

  /**
    The message is never empty. Without a response or without details it is the
    stripped error text, or "HTTP request failed" when that is blank. With
    details it is the error text, or the status line when the text is blank,
    then " - " and the details.
   */
  lemma FormatHttpErrorSpec(error: HttpError)
    ensures FormatHttpError(error) != ""
    ensures var base := Text.Strip(error.message);
      error.response.None? || ErrorDetailsOf(error.response.value) == "" ==>
        FormatHttpError(error) == (if base != "" then base else RequestFailed)
    ensures var base := Text.Strip(error.message);
      error.response.Some? && ErrorDetailsOf(error.response.value) != "" ==>
        exists head :: head != "" && FormatHttpError(error) == head + " - " + ErrorDetailsOf(error.response.value)
          && head == (if base != "" then base else StatusMessage(error.response.value))
  {
    if error.response.Some? {
      var response := error.response.value;
      ComposeSpec(Text.Strip(error.message), ErrorDetailsOf(response), StatusMessage(response));
    }
  }

  // _parse_json_response

  /**
    `_parse_json_response(response)`: the decoded body when the body text is
    non-empty and the lower-cased content type starts with `application/json`
    (media types are case-insensitive, section 8.3.1 of RFC 9110); otherwise an
    empty object. Decoding a body that is not JSON raises (Err).
   */
  function ParseJsonResponse(response: HttpResponse): (r: Result<Json.Json, string>)
    ensures response.text == "" || !Text.StartsWith(Text.Lower(response.contentType), "application/json")
      ==> r == Ok(Json.JObj(map[]))
    ensures response.text != "" && Text.StartsWith(Text.Lower(response.contentType), "application/json")
      ==> (r.Ok? <==> response.body.Some?) && (r.Ok? ==> r.value == response.body.value)
  {
    if response.text != "" && Text.StartsWith(Text.Lower(response.contentType), "application/json") then
      match response.body
      case Some(v) => Ok(v)
      case None => Err("response body is not JSON")
    else Ok(Json.JObj(map[]))
  }

  // jf_put_with_fallback

  /** `_is_unsupported_method_error(error)`: a response with status 405 or 501. */
  predicate IsUnsupportedMethodError(error: HttpError)
    ensures IsUnsupportedMethodError(error) ==> error.response.Some?
    ensures error.response.Some? ==>
      (IsUnsupportedMethodError(error) <==> error.response.value.status == 405 || error.response.value.status == 501)
  {
    error.response.Some? && error.response.value.status in {405, 501}
  }

  datatype Verb = Put | Post

  /** One request as sent: verb, URL, headers and JSON payload. */
  datatype Call = Call(verb: Verb, url: string, headers: map<string, string>, payload: Json.Json)

  /** The answer to a call: the decoded body, or how it failed. */
  type Send = Call -> Result<Json.Json, Failure>

  predicate Unsupported(r: Result<Json.Json, Failure>) {
    r.Err? && r.error.HttpFailure? && IsUnsupportedMethodError(r.error.error)
  }

  /**
    `jf_put_with_fallback(url, api_key, json)`: the calls made, in order, and
    the outcome. One PUT; a POST with the same URL, headers and payload follows
    only when the PUT was refused with 405 or 501, and then its outcome is the
    result; any other PUT outcome, success or failure, is the result unchanged.
   */
  function PutWithFallback(send: Send, url: string, apiKey: string, payload: Json.Json)
      : (r: (Result<Json.Json, Failure>, seq<Call>))
    ensures 1 <= |r.1| <= 2 && r.1[0] == Call(Put, url, JfHeaders(apiKey), payload)
    ensures |r.1| == 2 <==> Unsupported(send(r.1[0]))
    ensures |r.1| == 2 ==> r.1[1] == r.1[0].(verb := Post) && r.0 == send(r.1[1])
    ensures |r.1| == 1 ==> r.0 == send(r.1[0])
  {
    var put := Call(Put, url, JfHeaders(apiKey), payload);
    var answer := send(put);
    if answer.Err? && answer.error.HttpFailure? && IsUnsupportedMethodError(answer.error.error) then
      var post := Call(Post, url, JfHeaders(apiKey), payload);
      (send(post), [put, post])
    else (answer, [put])
  }
}
