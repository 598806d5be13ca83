/** What a call to an API method promises, for every payload, every library
    behaviour and every server. */
module MethodProperties {
  import opened Wrappers
  import opened Json
  import opened Schema
  import opened Objects
  import opened Methods
  import opened ObjectProperties

  // ---------------------------------------------------------------------------
  // The envelope
  // ---------------------------------------------------------------------------

  /** The envelope accepts exactly the objects with a string `status` and a
      `result` of the method's result type; the value of `status` is not
      looked at, and other keys are ignored. */
  lemma EnvelopeAccepts(lib: Lib, resultType: Type, b: map<string, Json>)
    ensures Decode(lib, Envelope(resultType), JObj(b)).Some? <==>
      && "status" in b && StrValue(lib, b["status"]).Some?
      && "result" in b && Decode(lib, resultType, b["result"]).Some?
  {
    var status := Required("status", TStr);
    var result := Required("result", resultType);
    EnvelopeResult(lib, resultType, JObj(b));
    if "status" in b && StrValue(lib, b["status"]).Some? && "result" in b && Decode(lib, resultType, b["result"]).Some? {
      assert FieldAccepts(lib, status, b) && FieldAccepts(lib, result, b);
      ModelOfFields(lib, Envelope(resultType), b);
    }
  }

  // ---------------------------------------------------------------------------
  // Validation before the network
  // ---------------------------------------------------------------------------

  /** A payload the parameter model rejects sends nothing and returns `None`,
      whatever the server would have answered. */
  lemma InvalidPayloadSendsNothing(m: ApiMethod, lib: Lib, payload: map<string, Json>, server: Request -> Outcome)
    requires Decode(lib, m.PayloadModel(), JObj(payload)).None?
    ensures MakeRequest(m, lib, payload, server).sent == []
    ensures MakeRequest(m, lib, payload, server).result == None
  {
  }

  // ---------------------------------------------------------------------------
  // Classifying the outcome
  // ---------------------------------------------------------------------------

  /** A timeout, a connection error and any status other than 200 return `None`. */
  lemma FailuresReturnNone(m: ApiMethod, lib: Lib, payload: map<string, Json>, server: Request -> Outcome)
    requires
      var outcome := server(Get(m.url, payload));
      outcome.TimedOut? || outcome.ConnectionFailed? || (outcome.Responded? && outcome.status != 200)
    ensures MakeRequest(m, lib, payload, server).result == None
  {
  }

  /** A call returns a result exactly when the payload is valid and the
      server answers 200 with a JSON object holding a string `status` and a
      `result` the method's result type accepts; the value returned is that
      validated `result`. */
  lemma ResultIff(m: ApiMethod, lib: Lib, payload: map<string, Json>, server: Request -> Outcome)
    ensures MakeRequest(m, lib, payload, server).result.Some? <==>
      && Decode(lib, m.PayloadModel(), JObj(payload)).Some?
      && var outcome := server(Get(m.url, payload));
      && outcome.Responded? && outcome.status == 200
      && outcome.body.Some? && outcome.body.value.JObj?
      && var b := outcome.body.value.fields;
      && "status" in b && StrValue(lib, b["status"]).Some?
      && "result" in b && Decode(lib, m.resultType, b["result"]).Some?
    ensures MakeRequest(m, lib, payload, server).result.Some? ==>
      MakeRequest(m, lib, payload, server).result ==
        Decode(lib, m.resultType, server(Get(m.url, payload)).body.value.fields["result"])
  {
    var outcome := server(Get(m.url, payload));
    if outcome.Responded? && outcome.body.Some? && outcome.body.value.JObj? {
      EnvelopeAccepts(lib, m.resultType, outcome.body.value.fields);
    }
  }

  /** `status` is never compared with "OK": a body reporting "FAILED" with an
      acceptable `result` still returns that result, and a body without a
      `result` returns `None` whatever its status. */
  lemma StatusIsNotChecked(m: ApiMethod, lib: Lib, payload: map<string, Json>, status: string, result: Json)
    requires Decode(lib, m.PayloadModel(), JObj(payload)).Some?
    requires Decode(lib, m.resultType, result).Some?
    ensures
      var body := JObj(map["status" := JStr("FAILED"), "result" := result]);
      MakeRequest(m, lib, payload, _ => Responded(200, Some(body))).result == Decode(lib, m.resultType, result)
    ensures
      var body := JObj(map["status" := JStr(status), "comment" := JStr("not found")]);
      MakeRequest(m, lib, payload, _ => Responded(200, Some(body))).result == None
  {
    var body := JObj(map["status" := JStr("FAILED"), "result" := result]);
    ResultIff(m, lib, payload, _ => Responded(200, Some(body)));
    var failed := JObj(map["status" := JStr(status), "comment" := JStr("not found")]);
    ResultIff(m, lib, payload, _ => Responded(200, Some(failed)));
  }

  /** A returned result is in canonical form for the result type and
      validates to itself. */
  lemma ResultIsCanonical(m: ApiMethod, lib: Lib, payload: map<string, Json>, server: Request -> Outcome)
    requires WellFormed(m.resultType)
    ensures MakeRequest(m, lib, payload, server).result.Some? ==>
      && Canonical(lib, m.resultType, MakeRequest(m, lib, payload, server).result.value)
      && Decode(lib, m.resultType, MakeRequest(m, lib, payload, server).result.value) == MakeRequest(m, lib, payload, server).result
  {
    var r := MakeRequest(m, lib, payload, server).result;
    if r.Some? {
      ResultIff(m, lib, payload, server);
      CanonicalIsFixpoint(lib, m.resultType, r.value);
    }
  }

  // ---------------------------------------------------------------------------
  // The code as written
  // ---------------------------------------------------------------------------

  /** Where `makeRequest` as written returns, it sends what the corrected call
      sends and returns what it returns; it raises exactly on a status-200
      body that is JSON but not an object, and on a status from 400 to 599
      whose body is not JSON. */
  lemma AsWrittenAgrees(m: ApiMethod, lib: Lib, payload: map<string, Json>, server: Request -> Outcome)
    ensures MakeRequestAsWritten(m, lib, payload, server).sent == MakeRequest(m, lib, payload, server).sent
    ensures MakeRequestAsWritten(m, lib, payload, server).result.Returned? ==>
      MakeRequestAsWritten(m, lib, payload, server).result.value == MakeRequest(m, lib, payload, server).result
    ensures MakeRequestAsWritten(m, lib, payload, server).result.Raised? <==>
      && Decode(lib, m.PayloadModel(), JObj(payload)).Some?
      && var outcome := server(Get(m.url, payload));
      && outcome.Responded?
      && ((outcome.status == 200 && outcome.body.Some? && !outcome.body.value.JObj?) ||
          (400 <= outcome.status < 600 && outcome.body.None?))
  {
    if Decode(lib, m.PayloadModel(), JObj(payload)).Some? {
      match server(Get(m.url, payload))
      case TimedOut =>
      case ConnectionFailed =>
      case Responded(status, body) =>
    }
  }

  /** `contest.list` with an empty payload, answered 200 with the JSON array
      `[]`: the corrected call returns `None`, the call as written raises. */
  lemma AsWrittenRaisesOnArrayBody(lib: Lib)
    ensures var server := (_: Request) => Responded(200, Some(JArr([])));
      && MakeRequestAsWritten(Registry["getContestList"], lib, map[], server).result == Raised(TypeError)
      && MakeRequest(Registry["getContestList"], lib, map[], server).result == None
  {
    var m := Registry["getContestList"];
    assert m.params == [DefaultsToNone("gym", TBool)];
    ModelOfFields(lib, m.PayloadModel(), map[]);
  }

  /** `contest.list` with an empty payload, answered 503 with an HTML page:
      the corrected call returns `None`, the call as written raises. */
  lemma AsWrittenRaisesOnNonJsonError(lib: Lib)
    ensures var server := (_: Request) => Responded(503, None);
      && MakeRequestAsWritten(Registry["getContestList"], lib, map[], server).result == Raised(JsonDecodeError)
      && MakeRequest(Registry["getContestList"], lib, map[], server).result == None
  {
    var m := Registry["getContestList"];
    assert m.params == [DefaultsToNone("gym", TBool)];
    ModelOfFields(lib, m.PayloadModel(), map[]);
  }

  // ---------------------------------------------------------------------------
  // Parameters declared with a default
  // ---------------------------------------------------------------------------

  /** Leaving out a parameter declared `(T, None)` keeps a payload valid. */
  lemma OmitDefaultedParam(lib: Lib, params: seq<Field>, payload: map<string, Json>, key: string)
    requires forall f | f in params && f.key == key :: !f.required
    ensures Decode(lib, TModel(params), JObj(payload)).Some? ==>
      Decode(lib, TModel(params), JObj(payload - {key})).Some?
  {
    var t := TModel(params);
    if Decode(lib, t, JObj(payload)).Some? {
      ModelAccepts(lib, t, payload);
      ModelAccepts(lib, t, payload - {key});
      forall f | f in params ensures FieldAccepts(lib, f, payload - {key}) {
        assert FieldAccepts(lib, f, payload);
      }
    }
  }

  /** Giving `null` for a parameter declared `(T, None)` is not the same as
      leaving it out: the payload is rejected and nothing is sent. */
  lemma NullParamRejected(lib: Lib, params: seq<Field>, payload: map<string, Json>, f: Field)
    requires f in params && !f.required && !f.ty.TOptional?
    requires f.key in payload && payload[f.key] == JNull
    ensures Decode(lib, TModel(params), JObj(payload)) == None
  {
    FieldOfModel(lib, TModel(params), payload, f);
    NullOnlyForOptional(lib, f.ty);
  }

  // ---------------------------------------------------------------------------
  // The registry
  // ---------------------------------------------------------------------------

  /** The registry has exactly six entries. */
  lemma RegistryKeys()
    ensures Registry.Keys == {
      "getBlogEntryComments", "getBlogEntryView", "getContestHacks",
      "getContestList", "getContestRatingChanges", "getContestStandings"}
  {
  }

  /** Every entry is reached at the default base URL, a slash and its method name. */
  lemma RegistryUrls()
    ensures forall k | k in Registry :: Registry[k].url == CfApi + "/" + Registry[k].methodName
  {
  }

  /** Each entry's method name and result type. */
  lemma RegistryEntries()
    ensures Registry["getBlogEntryComments"].methodName == "blogEntry.comments"
    ensures Registry["getBlogEntryComments"].resultType == TList(Comment)
    ensures Registry["getBlogEntryView"].methodName == "blogEntry.view"
    ensures Registry["getBlogEntryView"].resultType == BlogEntry
    ensures Registry["getContestHacks"].methodName == "contest.hacks"
    ensures Registry["getContestHacks"].resultType == TList(Hack)
    ensures Registry["getContestList"].methodName == "contest.list"
    ensures Registry["getContestList"].resultType == TList(Contest)
    ensures Registry["getContestRatingChanges"].methodName == "contest.ratingChanges"
    ensures Registry["getContestRatingChanges"].resultType == TList(RatingChange)
    ensures Registry["getContestStandings"].methodName == "contest.standings"
    ensures Registry["getContestStandings"].resultType == ContestStandings
  {
  }

  /** `ContestStandings` and the models inside it declare each key once. */
  lemma ContestStandingsWellFormed()
    ensures WellFormed(ContestStandings)
  {
    ContestWellFormed();
    ProblemWellFormed();
    RanklistRowWellFormed();
  }

  /** Every registered result type declares each key once. */
  lemma RegistryWellFormed()
    ensures forall k | k in Registry :: WellFormed(Registry[k].resultType)
  {
    CommentWellFormed();
    BlogEntryWellFormed();
    HackWellFormed();
    ContestWellFormed();
    RatingChangeWellFormed();
    ContestStandingsWellFormed();
    RegistryKeys();
    RegistryEntries();
  }

  /** A result returned by any registered method is in canonical form for
      its result type and validates to itself. */
  lemma RegistryResultIsCanonical(name: string, lib: Lib, payload: map<string, Json>, server: Request -> Outcome)
    requires name in Registry
    ensures var c := MakeRequest(Registry[name], lib, payload, server);
      c.result.Some? ==>
        && Canonical(lib, Registry[name].resultType, c.result.value)
        && Decode(lib, Registry[name].resultType, c.result.value) == c.result
  {
    RegistryWellFormed();
    ResultIsCanonical(Registry[name], lib, payload, server);
  }

  /** Contest standings without a `contestId` send nothing. */
  lemma StandingsNeedContestId(lib: Lib, payload: map<string, Json>, server: Request -> Outcome)
    requires "contestId" !in payload
    ensures MakeRequest(Registry["getContestStandings"], lib, payload, server) == Call([], None)
  {
    var m := Registry["getContestStandings"];
    FieldOfModel(lib, m.PayloadModel(), payload, Required("contestId", Int));
  }

  /** `contestId` alone satisfies every parameter of `contest.standings`:
      the other six may be left out. */
  lemma StandingsParamsAccept(lib: Lib, contestId: int)
    ensures forall f | f in StandingsParams :: FieldAccepts(lib, f, map["contestId" := JInt(contestId)])
  {
    var payload := map["contestId" := JInt(contestId)];
    forall f | f in StandingsParams ensures FieldAccepts(lib, f, payload) {
      if f.key == "contestId" {
        assert f == Required("contestId", Int);
      } else {
        assert f.key !in payload;
        assert !f.required;
      }
    }
  }

  /** The `getContestStandings` entry. */
  lemma StandingsEntry()
    ensures Registry["getContestStandings"] == NewApiMethod("contest.standings", StandingsParams, ContestStandings)
  {
  }

  /** The URL of `contest.standings`. */
  lemma StandingsUrl()
    ensures NewApiMethod("contest.standings", StandingsParams, ContestStandings).url == "https://codeforces.com/api/contest.standings"
  {
  }

  /** Contest standings with an integer `contestId` and every other
      parameter left out send exactly one GET of
      `https://codeforces.com/api/contest.standings` with that payload. */
  lemma StandingsWithContestIdOnly(lib: Lib, contestId: int, server: Request -> Outcome)
    ensures
      var payload := map["contestId" := JInt(contestId)];
      MakeRequest(Registry["getContestStandings"], lib, payload, server).sent ==
        [Get("https://codeforces.com/api/contest.standings", payload)]
  {
    StandingsEntry();
    StandingsUrl();
    var m := Registry["getContestStandings"];
    var payload := map["contestId" := JInt(contestId)];
    StandingsParamsAccept(lib, contestId);
    ModelOfFields(lib, m.PayloadModel(), payload);
  }
}
