/** Calling an API method (src/codeforces/methods.py): the caller's payload is
    validated against the method's parameter model, one GET is sent, and a
    successful response is validated against the `{status, result}` envelope,
    whose `result` is handed back. The HTTP transport is a parameter: a
    function from the request sent to what came back. */
module Methods {
  import opened Wrappers
  import opened Json
  import opened Schema
  import opened Objects

  /** The default base URL of every method. */
  const CfApi: string := "https://codeforces.com/api"

  /** A method descriptor: its name, the URL it is reached at, the fields of
      its parameter model, and the type of the `result` its response carries. */
  datatype ApiMethod = ApiMethod(methodName: string, url: string, params: seq<Field>, resultType: Type)
  {
    /** The model the payload is validated against. */
    function PayloadModel(): Type {
      TModel(params)
    }

    /** The model the response body is validated against. */
    function ReturnModel(): Type {
      Envelope(resultType)
    }
  }

  /** The response envelope: a required string `status` and a required
      `result` of the method's result type. Its two keys are distinct, so it
      is well formed exactly when the result type is. */
  function Envelope(result: Type): (e: Type)
    ensures e.TModel? && KeysOf(e.fields) == {"status", "result"}
    ensures Required("status", TStr) in e.fields && Required("result", result) in e.fields
    ensures WellFormed(e) <==> WellFormed(result)
  {
    var fs := [Required("status", TStr), Required("result", result)];
    assert KeysOf(fs) == {"status", "result"} by {
      assert fs[0].key == "status" && fs[1].key == "result";
    }
    TModel(fs)
  }

  /** `ApiMethod(methodName, payloadSchema, returnSchema, baseUrl)`. The URL
      is the base URL, a slash and the method name. */
  function NewApiMethod(methodName: string, params: seq<Field>, resultType: Type, baseUrl: string := CfApi): (m: ApiMethod)
    ensures |m.url| == |baseUrl| + 1 + |methodName|
    ensures m.url[..|baseUrl|] == baseUrl && m.url[|baseUrl|] == '/' && m.url[|baseUrl| + 1..] == methodName
  {
    ApiMethod(methodName, baseUrl + "/" + methodName, params, resultType)
  }

  /** Within one base URL, the URL determines the method name. */
  lemma {:induction false} UrlDeterminesMethodName(n1: string, n2: string, p1: seq<Field>, p2: seq<Field>, t1: Type, t2: Type, baseUrl: string)
    ensures NewApiMethod(n1, p1, t1, baseUrl).url == NewApiMethod(n2, p2, t2, baseUrl).url ==> n1 == n2
  {
    var u1 := NewApiMethod(n1, p1, t1, baseUrl).url;
    var u2 := NewApiMethod(n2, p2, t2, baseUrl).url;
    if u1 == u2 {
      assert n1 == u1[|baseUrl| + 1..] == u2[|baseUrl| + 1..] == n2;
    }
  }

  // ---------------------------------------------------------------------------
  // The transport
  // ---------------------------------------------------------------------------

  /** A GET of `url` with the query parameters `params`. */
  datatype Request = Get(url: string, params: map<string, Json>)

  /** What a GET ends in. A response body that is not JSON is `None`. */
  datatype Outcome =
    | TimedOut
    | ConnectionFailed
    | Responded(status: int, body: Option<Json>)

  /** The requests a call sent, in order, and what it returned. */
  datatype Call<T> = Call(sent: seq<Request>, result: T)

  // ---------------------------------------------------------------------------
  // makeRequest
  // ---------------------------------------------------------------------------

  /** The validated envelope holds the validated `result`. */
  lemma EnvelopeResult(lib: Lib, resultType: Type, j: Json)
    ensures Decode(lib, Envelope(resultType), j).Some? ==>
      && j.JObj? && "result" in j.fields && "status" in j.fields
      && StrValue(lib, j.fields["status"]).Some?
      && "result" in Decode(lib, Envelope(resultType), j).value.fields
      && Decode(lib, resultType, j.fields["result"]) == Some(Decode(lib, Envelope(resultType), j).value.fields["result"])
  {
    if j.JObj? {
      ModelAccepts(lib, Envelope(resultType), j.fields);
      assert Required("status", TStr) in Envelope(resultType).fields;
      assert Required("result", resultType) in Envelope(resultType).fields;
      assert Envelope(resultType).fields[1].key == "result";
    }
  }

  /** The `result` of a response body, if the body is a JSON object that the
      method's envelope accepts. */
  function ResultOf(m: ApiMethod, lib: Lib, body: Json): (r: Option<Json>)
    ensures r.Some? <==> Decode(lib, m.ReturnModel(), body).Some?
    ensures r.Some? ==> body.JObj? && "result" in body.fields && Decode(lib, m.resultType, body.fields["result"]) == r
  {
    EnvelopeResult(lib, m.resultType, body);
    var envelope :- Decode(lib, m.ReturnModel(), body);
    Some(envelope.fields["result"])
  }

  /** `makeRequest` corrected so that every failure ends in `None` (the code
      as written is `MakeRequestAsWritten`). A call sends at most one request,
      sends one exactly when the parameter model accepts the payload, and
      that request is a GET of the method's URL carrying the payload as the
      caller gave it. Only a status-200 response yields a result. */
  function MakeRequest(m: ApiMethod, lib: Lib, payload: map<string, Json>, server: Request -> Outcome): (c: Call<Option<Json>>)
    ensures |c.sent| <= 1
    ensures |c.sent| == 1 <==> Decode(lib, m.PayloadModel(), JObj(payload)).Some?
    ensures forall r | r in c.sent :: r == Get(m.url, payload)
    ensures c.result.Some? ==>
      |c.sent| == 1 && server(Get(m.url, payload)).Responded? && server(Get(m.url, payload)).status == 200
  {
    if Decode(lib, m.PayloadModel(), JObj(payload)).None? then Call([], None)
    else
      var request := Get(m.url, payload);
      match server(request)
      case TimedOut => Call([request], None)
      case ConnectionFailed => Call([request], None)
      case Responded(status, body) =>
        if status == 200 && body.Some? then Call([request], ResultOf(m, lib, body.value))
        else Call([request], None)
  }

  /** An exception that escapes `makeRequest`. */
  datatype Escaped =
    | TypeError        // a status-200 JSON body that is not an object, unpacked with `**`
    | JsonDecodeError  // a 4xx/5xx body that is not JSON, parsed while reporting the error

  datatype Ending = Returned(value: Option<Json>) | Raised(error: Escaped)

  /** `makeRequest` as written. A payload the parameter model rejects, a
      timeout, a connection error and a status-200 body that is not JSON or
      that the envelope rejects all end in `None`. Two cases raise instead:
      a status-200 body that is JSON but not an object, and a status from 400
      to 599 (the ones `raise_for_status` raises for) whose body is not JSON,
      because the handler for the HTTP error parses the body again. Any other
      status falls through to `None`. */
  function MakeRequestAsWritten(m: ApiMethod, lib: Lib, payload: map<string, Json>, server: Request -> Outcome): (c: Call<Ending>)
    ensures |c.sent| <= 1
    ensures |c.sent| == 1 <==> Decode(lib, m.PayloadModel(), JObj(payload)).Some?
    ensures forall r | r in c.sent :: r == Get(m.url, payload)
    ensures c.result.Raised? ==>
      && |c.sent| == 1
      && var outcome := server(Get(m.url, payload));
      && outcome.Responded?
      && ((outcome.status == 200 && outcome.body.Some? && !outcome.body.value.JObj?) ||
          (400 <= outcome.status < 600 && outcome.body.None?))
  {
    if Decode(lib, m.PayloadModel(), JObj(payload)).None? then Call([], Returned(None))
    else
      var request := Get(m.url, payload);
      match server(request)
      case TimedOut => Call([request], Returned(None))
      case ConnectionFailed => Call([request], Returned(None))
      case Responded(status, body) =>
        if status == 200 then
          if body.None? then Call([request], Returned(None))
          else if !body.value.JObj? then Call([request], Raised(TypeError))
          else Call([request], Returned(ResultOf(m, lib, body.value)))
        else if 400 <= status < 600 && body.None? then Call([request], Raised(JsonDecodeError))
        else Call([request], Returned(None))
  }

  // ---------------------------------------------------------------------------
  // The descriptors
  // ---------------------------------------------------------------------------

  const ContestStandings: Type := TModel([
    Required("contest", Contest),
    Required("problems", TList(Problem)),
    Required("rows", TList(RanklistRow))])

  /** The parameters of `contest.standings`. */
  const StandingsParams: seq<Field> := [
    Required("contestId", Int),
    DefaultsToNone("asManager", TBool),
    DefaultsToNone("from", Int),
    DefaultsToNone("count", Int),
    DefaultsToNone("handles", TStr),
    DefaultsToNone("room", Int),
    DefaultsToNone("showUnofficial", TBool)]

  /** `CF_API_METHODS`. */
  const Registry: map<string, ApiMethod> := map[
    "getBlogEntryComments" :=
      NewApiMethod("blogEntry.comments", [Required("blogEntryId", Int)], TList(Comment)),
    "getBlogEntryView" :=
      NewApiMethod("blogEntry.view", [Required("blogEntryId", Int)], BlogEntry),
    "getContestHacks" :=
      NewApiMethod("contest.hacks", [Required("contestId", Int), DefaultsToNone("asManager", TBool)], TList(Hack)),
    "getContestList" :=
      NewApiMethod("contest.list", [DefaultsToNone("gym", TBool)], TList(Contest)),
    "getContestRatingChanges" :=
      NewApiMethod("contest.ratingChanges", [Required("contestId", Int)], TList(RatingChange)),
    "getContestStandings" :=
      NewApiMethod("contest.standings", StandingsParams, ContestStandings)
  ]
}
