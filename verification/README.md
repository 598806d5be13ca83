# Codeforces API client: schemas and method dispatch

This project models the client of contest-problem-recommendation that talks to
the Codeforces REST API. The client has two parts.

- **The entity models.** These are the pydantic classes and `str` enums for users,
  blog entries, comments, contests, parties, problems, submissions, hacks and
  ranklist rows. Each model class is written as a schema value: a list of
  fields, each with a key, a type and whether it is required. One generic
  validator, `Schema.Decode`, checks a parsed JSON value against a schema. It
  returns `None` where the library raises a validation error. Otherwise it
  returns the validated value in canonical form: integers as integers, enum
  members as their strings, and objects cut down to their declared keys.
- **The API methods.** An `ApiMethod` names a method, builds its URL as the base
  URL, a slash and the method name, and holds a parameter model and a result
  type. `makeRequest` works in four steps:
  - it validates the caller's payload before anything goes on the network;
  - it sends one GET carrying the payload as given;
  - it treats a timeout, a connection error and a non-200 status as failure;
  - it validates a 200 response against the `{status, result}` envelope and
    returns the `result`.

  The six-entry `CF_API_METHODS` registry holds the descriptors.

Two things in the source are left open by the model and kept as parameters:
- **The library's lax rules.** These decide, for example, whether `"5"` is
  accepted for an `int`. They are a `Json.Lib` value together with the library's
  URL grammar. Every property is proved for every `Lib`.
- **The HTTP transport.** It is a function from the request sent to what came
  back: a timeout, a connection error, or a status with a body that is JSON or
  is not.

Modules:
- `Wrappers`: `Option`.
- `Json`: parsed JSON, the `Lib` parameter and the scalar readers.
- `Schema`: schema types, canonical values, `Decode`, and its properties.
- `Objects`: the schemas of `objects.py`.
- `ObjectProperties`: what each schema accepts.
- `Methods`: method descriptors, `makeRequest`, the registry.
- `MethodProperties`: what a call promises.

The source is pydantic v2 code, as the `pattern=` keyword of `Field` shows. The
model assumes pydantic 2.11 or later: `create_model(..., status=str, ...)` in
`ApiMethod` passes a bare type, and from 2.11 on that declares a required `str`
field (see "## Left out" for earlier releases). The model follows pydantic v2's rules:
- A field declared without a default is a required key, even when its type is
  `Optional[...]`. `Optional` only lets the value be `null`.
- Keys a model does not declare are ignored.
- A `create_model` parameter declared `(T, None)` may be left out. An explicit
  `null` for it is still checked against `T`, and so it is rejected.

Several features an API client like this might be expected to have are absent
from the code, and the model does not add them:
- The code has no authenticated calls.
- It does not join list-valued parameters with `;`.
- It does not reject unknown method names itself; the registry is a plain
  dictionary.
- It never compares `status` with `"OK"`, so a `"FAILED"` envelope that still
  carries an acceptable `result` returns that result (`MethodProperties.StatusIsNotChecked`).

## Model

| member | source | states |
|---|---|---|
| Schema.Decode | src/codeforces/objects.py:4-5 | every value validation yields is in canonical form for its (well-formed) type: bounded ints, enum strings, nulls only under `Optional`, objects with only declared keys |
| Schema.DecodeItems | src/codeforces/objects.py:275 | a `List[T]` value validates exactly when every element does, element by element, keeping the length |
| Schema.DecodeFields | src/codeforces/objects.py:8-29 | a model validates exactly when each field's value validates or the field is missing and has a default; the result holds exactly the declared keys present |
| Schema.ModelAccepts | src/codeforces/objects.py:8-29 | a model accepts an object iff every field accepts it; undeclared keys play no part; the validated object keeps the declared keys present, each with its field's validated value |
| Schema.FieldOfModel | src/codeforces/objects.py:8-29 | an accepted object satisfies each single field of the model |
| Schema.ModelOfFields | src/codeforces/objects.py:8-29 | an object satisfying every field is accepted |
| Schema.ListAccepts | src/codeforces/objects.py:136 | a list accepts exactly the arrays whose every element validates |
| Schema.NullOnlyForOptional | src/codeforces/objects.py:15-19 | `null` validates against a type iff it is `Optional[...]`, whatever the lax rules |
| Schema.ContainsIff | src/codeforces/objects.py:109-110 | the left-to-right substring search succeeds iff the literal occurs at some position |
| Schema.MatchesSomewhereIff | src/codeforces/objects.py:109-110 | an alternation of literals is found iff one alternative occurs at some position |
| Schema.CanonicalIsFixpoint | src/codeforces/objects.py:4-5 | a value in canonical form validates to itself |
| Schema.DecodeIdempotent | src/codeforces/objects.py:4-5 | validating a validated value changes nothing |
| Objects.ContestType | src/codeforces/objects.py:80-83 | a `str` enum: exactly the strings CF, IOI, ICPC |
| Objects.ContestPhase | src/codeforces/objects.py:86-91 | a `str` enum: exactly the five phase strings |
| Objects.ParticipantType | src/codeforces/objects.py:117-122 | a `str` enum: exactly the five participant-type strings |
| Objects.ProblemType | src/codeforces/objects.py:145-147 | a `str` enum: PROGRAMMING or QUESTION |
| Objects.Verdict | src/codeforces/objects.py:171-188 | a `str` enum over the 17 verdict strings of `VerdictValues` |
| Objects.TestSet | src/codeforces/objects.py:191-204 | a `str` enum over the 13 test-set strings of `TestSetValues` |
| Objects.HackVerdict | src/codeforces/objects.py:225-233 | a `str` enum over the eight hack verdicts |
| Objects.ProblemResultType | src/codeforces/objects.py:255-257 | a `str` enum: PRELIMINARY or FINAL |
| Objects.UserWith | src/codeforces/objects.py:8-29 | the 19 fields of `User`, every one required, with the last name under a given key |
| Objects.UserAsWritten | src/codeforces/objects.py:8-29 | `User` as declared, last name under `lastNam` |
| Objects.User | src/codeforces/objects.py:8-29 | `User` with the last name under `lastName`, the key the API sends |
| Objects.BlogEntry | src/codeforces/objects.py:32-45 | the 11 required fields of `BlogEntry`; `rating` is strict, the creation and modification times non-negative |
| Objects.Comment | src/codeforces/objects.py:48-57 | the seven required fields of `Comment`; `parentCommentId` may be null, `rating` is non-negative |
| Objects.RecentAction | src/codeforces/objects.py:60-65 | a non-negative time, a `BlogEntry` and a `Comment`, all required |
| Objects.RatingChange | src/codeforces/objects.py:68-77 | the seven required fields of `RatingChange`; `rank` positive, both ratings non-negative |
| Objects.KindLabels | src/codeforces/objects.py:109-110 | the seven literal alternatives of the `kind` pattern, in order |
| Objects.Contest | src/codeforces/objects.py:94-114 | the 17 required fields of `Contest`; `difficulty` null or 1..5, `kind` null or a string containing a label |
| Objects.Member | src/codeforces/objects.py:125-129 | a required handle and a required, nullable name |
| Objects.Party | src/codeforces/objects.py:132-142 | the eight required fields of `Party`, including `ghost` and a list of `Member` |
| Objects.Problem | src/codeforces/objects.py:150-160 | the eight required fields of `Problem`; `points` a nullable number, `rating` nullable and non-negative |
| Objects.ProblemStatistics | src/codeforces/objects.py:163-168 | contest id, index and a non-negative solved count |
| Objects.Submission | src/codeforces/objects.py:207-222 | the 13 required fields of `Submission`, with nested `Problem` and `Party` |
| Objects.JudgeProtocol | src/codeforces/objects.py:236-239 | manual flag, protocol text and a `HackVerdict` |
| Objects.Hack | src/codeforces/objects.py:242-252 | the eight required fields of `Hack`, with nested parties, problem and judge protocol |
| Objects.ProblemResult | src/codeforces/objects.py:260-265 | the five required fields of `ProblemResult` |
| Objects.RanklistRow | src/codeforces/objects.py:268-276 | the eight required fields of `RanklistRow`, with a nested `Party` and a list of `ProblemResult` |
| ObjectProperties.ContestWellFormed | src/codeforces/objects.py:94-114 | `Contest` declares each key once and so do its nested types |
| ObjectProperties.RanklistRowWellFormed | src/codeforces/objects.py:268-276 | `RanklistRow` and the models inside it declare each key once |
| ObjectProperties.ContestDifficulty | src/codeforces/objects.py:108 | an accepted contest has a `difficulty` that is null or an int from 1 to 5; an integer outside 1..5, such as 7, is rejected |
| ObjectProperties.ContestTypeMember | src/codeforces/objects.py:80-83 | an accepted contest's `type` is one of the strings CF, IOI, ICPC |
| ObjectProperties.ContestPhaseMember | src/codeforces/objects.py:86-91 | an accepted contest's `phase` is one of the five phase strings |
| ObjectProperties.ContestTimes | src/codeforces/objects.py:102-103 | `durationSeconds` is at least 0; `startTimeSeconds` is present and null or at least 0 |
| ObjectProperties.ContestKind | src/codeforces/objects.py:109-110 | an accepted `kind` is null or a string in which one of the seven labels occurs at some position |
| ObjectProperties.ContestKindUnanchored | src/codeforces/objects.py:109-110 | any of the seven labels with any text before and after it is accepted: the pattern is searched for, not matched whole; with `ContestKind`, a non-null `kind` is accepted iff a label occurs in it |
| ObjectProperties.RatingChangeBounds | src/codeforces/objects.py:68-77 | an accepted rating change has rank at least 1 and both ratings at least 0 |
| ObjectProperties.RecentActionAccepts | src/codeforces/objects.py:60-65 | a recent action is accepted iff its time is at least 0 and its blog entry and comment are accepted by their own models |
| ObjectProperties.RanklistRowAcceptsOnly | src/codeforces/objects.py:268-276 | an accepted ranklist row has an accepted party, rank at least 1, hack counts at least 0, accepted problem results, and typed points, penalty and last submission time |
| ObjectProperties.RanklistRowAcceptsIf | src/codeforces/objects.py:268-276 | a row with those fields is accepted |
| ObjectProperties.RanklistRowAccepts | src/codeforces/objects.py:268-276 | both directions together: a ranklist row is accepted iff its fields are so |
| ObjectProperties.SubmissionConstraints | src/codeforces/objects.py:207-222 | an accepted submission's verdict is null or one of the 17 verdicts, its testset one of the 13 test sets, and its three counters at least 0 |
| ObjectProperties.UserConstraints | src/codeforces/objects.py:20-27 | for `User` as declared and as corrected (any last-name key), an accepted user's contribution, rating and maxRating are JSON integers, whatever the lax rules, and its three counters are at least 0 |
| ObjectProperties.UserAsWrittenNeedsLastNam | src/codeforces/objects.py:16 | the declared `User` rejects every object without a `lastNam` key |
| ObjectProperties.LastNamNotDeclared | src/codeforces/objects.py:16 | the corrected `User` declares no `lastNam` field |
| ObjectProperties.UserAsWrittenRejectsValidUsers | src/codeforces/objects.py:16 | the corrected model's validated output, which keeps only declared keys, is never accepted by the declared model (a raw object carrying both `lastName` and `lastNam` is accepted by both) |
| ObjectProperties.UserLastName | src/codeforces/objects.py:15-17 | the corrected `User` needs a `lastName` key whose value is null or a string |
| ObjectProperties.UserIdempotent | src/codeforces/objects.py:8-29 | a user the corrected `User` validates validates to itself |
| ObjectProperties.UserKeysDistinct | src/codeforces/objects.py:8-29 | the 19 keys of `User` are distinct, with the last name under `lastNam` as declared or under `lastName` |
| Methods.CfApi | src/codeforces/methods.py:21 | the default base URL `https://codeforces.com/api` |
| Methods.ContestStandings | src/codeforces/methods.py:65-68 | a required `Contest`, list of `Problem` and list of `RanklistRow` |
| Methods.StandingsParams | src/codeforces/methods.py:92-100 | `contestId` required, the six other standings parameters declared `(T, None)` |
| Methods.Registry | src/codeforces/methods.py:72-103 | the six descriptors of `CF_API_METHODS`, each with its method name, parameters and result type |
| Methods.NewApiMethod | src/codeforces/methods.py:24-39 | the descriptor's URL is the base URL (by default `https://codeforces.com/api`), then `/`, then the method name |
| Methods.Envelope | src/codeforces/methods.py:36-38 | the return model has exactly the keys `status` (a required `str`) and `result` (of the method's result type), and is well formed iff the result type is |
| Methods.MakeRequest | src/codeforces/methods.py:41-62 | the CORRECTED call, which differs from the code at lines 46 and 58-61 by never raising: at most one request, sent exactly when the payload is valid, a GET of the method's URL with the caller's payload unchanged; a result only after a 200 response. FailuresReturnNone, ResultIff, StatusIsNotChecked and the other `MethodProperties` rows about `MakeRequest` are facts about this corrected call |
| Methods.MakeRequestAsWritten | src/codeforces/methods.py:41-62 | the call AS WRITTEN: the same requests as the corrected call, and an escaping exception only after a 200 body that is JSON but not an object or a 400–599 body that is not JSON |
| Methods.UrlDeterminesMethodName | src/codeforces/methods.py:34 | under one base URL, equal URLs mean equal method names |
| Methods.EnvelopeResult | src/codeforces/methods.py:36-38 | an accepted envelope has a string `status` and a `result` whose validation is the envelope's `result` |
| Methods.ResultOf | src/codeforces/methods.py:46-47 | a result is returned iff the envelope accepts the body, and it is the validated `result` of that body |
| MethodProperties.EnvelopeAccepts | src/codeforces/methods.py:36-38 | the envelope accepts exactly the objects with a string `status` and an acceptable `result`; other keys are ignored |
| MethodProperties.InvalidPayloadSendsNothing | src/codeforces/methods.py:43-44 | a payload the parameter model rejects sends no request and returns `None` |
| MethodProperties.FailuresReturnNone | src/codeforces/methods.py:45-62 | a timeout, a connection error or any status other than 200 returns `None` |
| MethodProperties.ResultIff | src/codeforces/methods.py:43-47 | a result comes back iff the payload is valid, the status is 200 and the body is an object with a string `status` and an acceptable `result`; the value is that validated `result` |
| MethodProperties.StatusIsNotChecked | src/codeforces/methods.py:45-47 | a `"FAILED"` status with an acceptable `result` returns it, and a body without `result` returns `None` |
| MethodProperties.ResultIsCanonical | src/codeforces/methods.py:46-47 | a returned result is canonical for the result type and validates to itself |
| MethodProperties.AsWrittenAgrees | src/codeforces/methods.py:41-62 | the code as written sends what the corrected call sends and returns the same where it returns; it raises exactly on a 200 JSON body that is not an object and on a 400–599 body that is not JSON |
| MethodProperties.AsWrittenRaisesOnArrayBody | src/codeforces/methods.py:45-46 | `contest.list` answered 200 with `[]` raises a type error as written and returns `None` when corrected |
| MethodProperties.AsWrittenRaisesOnNonJsonError | src/codeforces/methods.py:49-61 | `contest.list` answered 503 with a non-JSON body raises a decode error as written and returns `None` when corrected |
| MethodProperties.OmitDefaultedParam | src/codeforces/methods.py:81 | leaving out a parameter declared `(T, None)` keeps a valid payload valid |
| MethodProperties.NullParamRejected | src/codeforces/methods.py:81 | an explicit `null` for a `(T, None)` parameter with a non-optional type is rejected |
| MethodProperties.RegistryKeys | src/codeforces/methods.py:72-103 | the registry has exactly the six names |
| MethodProperties.RegistryUrls | src/codeforces/methods.py:72-103 | every entry's URL is the default base URL, `/` and its method name |
| MethodProperties.RegistryWellFormed | src/codeforces/methods.py:72-103 | every registered result type declares each key once |
| MethodProperties.RegistryResultIsCanonical | src/codeforces/methods.py:72-103 | a result returned by any registered method is canonical for its result type and validates to itself |
| MethodProperties.ContestStandingsWellFormed | src/codeforces/methods.py:65-68 | `ContestStandings` and the models inside it declare each key once |
| MethodProperties.RegistryEntries | src/codeforces/methods.py:72-103 | each entry's method name and result type |
| MethodProperties.StandingsNeedContestId | src/codeforces/methods.py:90-102 | contest standings without `contestId` send nothing and return `None` |
| MethodProperties.StandingsParamsAccept | src/codeforces/methods.py:92-100 | an integer `contestId` alone satisfies all seven standings parameters |
| MethodProperties.StandingsEntry | src/codeforces/methods.py:90-102 | the `getContestStandings` entry is `contest.standings` with its seven parameters and the `ContestStandings` result |
| MethodProperties.StandingsUrl | src/codeforces/methods.py:21 | the standings URL is `https://codeforces.com/api/contest.standings` |
| MethodProperties.StandingsWithContestIdOnly | src/codeforces/methods.py:90-102 | standings with only an integer `contestId` send exactly one GET of that URL with that payload |

## Left out

- The network itself, the `print` calls that report failures, and the 9.01-second timeout value. The transport is a parameter, and a timeout is one of its outcomes.
- Exceptions from `requests` other than `Timeout`, `ConnectionError` and `HTTPError`, such as `TooManyRedirects`: the transport cannot produce them.
- Schema.Decode: the sign bound of `PositiveFloat` and `NonNegativeFloat` is not checked; such a field accepts any number, because floating point is out of scope.
- Methods.Envelope: pydantic releases before 2.11 are not modelled. Under them the bare `status=str` passed to `create_model` does not declare a required `str` field. Pydantic 1.x does not take a bare class as a field. In 2.0–2.10 it is read as a non-annotated attribute, which is an error when the return model is created. The model assumes 2.11 or later.
- The grammar of `HttpUrl`, which is the library's `isHttpUrl`.
- The library's lax coercions. They are the `coerce*` functions of `Lib`, and the model asserts nothing about them either way.
- Values come back as canonical JSON, not as model instances; attribute access on the instances is not modelled.
- `ContestStandings` reaching the caller as a model object: its schema is modelled, its instance type is not.
- The unfinished stubs in `src/codeforces/methods.py` (lines 106-149), whose bodies are `pass`, and `main`, which performs one real network call and opens an interactive console.
- Authenticated calls, joining list parameters with `;`, rejecting unknown method names, and turning a `"FAILED"` status into an error: the code has none of them.

## Findings

| source | as written | input that shows it | evidently intended | confidence | as-written member | corrected member |
|---|---|---|---|---|---|---|
| src/codeforces/objects.py:16 | `User` declares its last-name field as `lastNam`, a required key | any user object from the API: it carries `lastName` and no `lastNam`, so validation fails | the field is `lastName` | high; not executed | ObjectProperties.UserAsWrittenNeedsLastNam | ObjectProperties.UserLastName |
| src/codeforces/methods.py:46, 58-61 | `makeRequest` can raise instead of returning `None` | a 200 response whose JSON body is `[]` (a `TypeError` from `**`); a 503 response with an HTML body (`r.json()` in the `HTTPError` handler raises) | every failure ends in `None` | high; not executed | MethodProperties.AsWrittenRaisesOnArrayBody | MethodProperties.ResultIff |
