/** What the schemas of src/codeforces/objects.py promise about the values
    they accept, for every choice of the library's lax coercions. */
module ObjectProperties {
  import opened Wrappers
  import opened Json
  import opened Schema
  import opened Objects

  // Each model declares each key once, so the values it validates are
  // canonical and validating them again returns them unchanged.

  // The 18 keys of `User` other than the last name's (position 5) are
  // distinct, whatever that key is; shown in three slices to keep each proof small.

  lemma UserOtherKeysDistinctA(k: string)
    ensures forall a, b :: 0 <= a < 4 && a < b < 19 && b != 5 ==> UserWith(k).fields[a].key != UserWith(k).fields[b].key
  {
  }

  lemma UserOtherKeysDistinctB(k: string)
    ensures forall a, b :: 6 <= a < 11 && a < b < 19 ==> UserWith(k).fields[a].key != UserWith(k).fields[b].key
  {
  }

  lemma UserOtherKeysDistinctC(k: string)
    ensures forall a, b :: 11 <= a < 19 && a < b < 19 ==> UserWith(k).fields[a].key != UserWith(k).fields[b].key
  {
  }

  /** Neither last-name key is the key of another `User` field. */
  lemma LastNameKeyFresh(k: string)
    requires k == LastNameKey || k == LastNameKeyAsWritten
    ensures forall b :: 0 <= b < 19 && b != 5 ==> UserWith(k).fields[b].key != k
  {
  }

  /** The 19 keys of `User` are distinct, as declared and as corrected. */
  lemma UserKeysDistinct(k: string)
    requires k == LastNameKey || k == LastNameKeyAsWritten
    ensures DistinctKeys(UserWith(k).fields)
  {
    UserOtherKeysDistinctA(k);
    UserOtherKeysDistinctB(k);
    UserOtherKeysDistinctC(k);
    LastNameKeyFresh(k);
  }

  /** None of `User`'s field types holds a model. */
  lemma UserFieldTypesWellFormed(lastNameKey: string)
    ensures forall i :: 0 <= i < |UserWith(lastNameKey).fields| ==> WellFormed(UserWith(lastNameKey).fields[i].ty)
  {
  }

  lemma UserWellFormed()
    ensures WellFormed(User)
  {
    UserKeysDistinct(LastNameKey);
    UserFieldTypesWellFormed(LastNameKey);
  }

  lemma UserAsWrittenWellFormed()
    ensures WellFormed(UserAsWritten)
  {
    UserKeysDistinct(LastNameKeyAsWritten);
    UserFieldTypesWellFormed(LastNameKeyAsWritten);
  }

  lemma BlogEntryWellFormed()
    ensures WellFormed(BlogEntry)
  {
  }

  lemma CommentWellFormed()
    ensures WellFormed(Comment)
  {
  }

  lemma RecentActionWellFormed()
    ensures WellFormed(RecentAction)
  {
    BlogEntryWellFormed();
    CommentWellFormed();
  }

  lemma RatingChangeWellFormed()
    ensures WellFormed(RatingChange)
  {
  }

  lemma ContestWellFormed()
    ensures WellFormed(Contest)
  {
  }

  lemma MemberWellFormed()
    ensures WellFormed(Member)
  {
  }

  lemma PartyWellFormed()
    ensures WellFormed(Party)
  {
    MemberWellFormed();
  }

  lemma ProblemWellFormed()
    ensures WellFormed(Problem)
  {
  }

  lemma ProblemStatisticsWellFormed()
    ensures WellFormed(ProblemStatistics)
  {
  }

  lemma SubmissionWellFormed()
    ensures WellFormed(Submission)
  {
    ProblemWellFormed();
    PartyWellFormed();
  }

  lemma JudgeProtocolWellFormed()
    ensures WellFormed(JudgeProtocol)
  {
  }

  lemma HackWellFormed()
    ensures WellFormed(Hack)
  {
    PartyWellFormed();
    ProblemWellFormed();
    JudgeProtocolWellFormed();
  }

  lemma ProblemResultWellFormed()
    ensures WellFormed(ProblemResult)
  {
  }

  lemma RanklistRowWellFormed()
    ensures WellFormed(RanklistRow)
  {
    PartyWellFormed();
    ProblemResultWellFormed();
  }

  // ---------------------------------------------------------------------------
  // Field constraints, stated on the object handed to the model
  // ---------------------------------------------------------------------------

  /** `Contest.difficulty` is null or an integer from 1 to 5; an integer
      outside that range, such as 7, is rejected. */
  lemma ContestDifficulty(lib: Lib, m: map<string, Json>)
    ensures Decode(lib, Contest, JObj(m)).Some? ==>
      "difficulty" in m &&
      (m["difficulty"] == JNull || (IntAtLeast(lib, m["difficulty"], 1) && IntValue(lib, m["difficulty"]).value <= 5))
    ensures "difficulty" in m && m["difficulty"].JInt? && !(1 <= m["difficulty"].i <= 5) ==>
      Decode(lib, Contest, JObj(m)) == None
  {
    var f := Required("difficulty", TOptional(IntBetween(1, 5)));
    FieldOfModel(lib, Contest, m, f);
    if "difficulty" in m && !m["difficulty"].JNull? {
      assert Decode(lib, f.ty, m["difficulty"]) == Decode(lib, IntBetween(1, 5), m["difficulty"]);
    }
  }

  /** `Contest.type` is a string naming a `ContestType` member; no other
      value is accepted, whatever the library coerces. */
  lemma ContestTypeMember(lib: Lib, m: map<string, Json>)
    ensures Decode(lib, Contest, JObj(m)).Some? ==>
      "type" in m && m["type"] in {JStr("CF"), JStr("IOI"), JStr("ICPC")}
  {
    FieldOfModel(lib, Contest, m, Required("type", ContestType));
  }

  /** `Contest.phase` is a string naming a `ContestPhase` member. */
  lemma ContestPhaseMember(lib: Lib, m: map<string, Json>)
    ensures Decode(lib, Contest, JObj(m)).Some? ==>
      "phase" in m &&
      m["phase"] in {JStr("BEFORE"), JStr("CODING"), JStr("PENDING_SYSTEM_TEST"), JStr("SYSTEM_TEST"), JStr("FINISHED")}
  {
    FieldOfModel(lib, Contest, m, Required("phase", ContestPhase));
  }

  /** `Contest.durationSeconds` is at least 0 and `Contest.startTimeSeconds`
      is null or at least 0. */
  lemma ContestTimes(lib: Lib, m: map<string, Json>)
    ensures Decode(lib, Contest, JObj(m)).Some? ==>
      && "durationSeconds" in m && IntAtLeast(lib, m["durationSeconds"], 0)
      && "startTimeSeconds" in m
      && (m["startTimeSeconds"] == JNull || IntAtLeast(lib, m["startTimeSeconds"], 0))
  {
    FieldOfModel(lib, Contest, m, Required("durationSeconds", NonNegativeInt));
    FieldOfModel(lib, Contest, m, Required("startTimeSeconds", TOptional(NonNegativeInt)));
    AtLeastField(lib, "durationSeconds", 0, m);
    OptionalAtLeastField(lib, "startTimeSeconds", 0, m);
  }

  /** `Contest.kind` is null or a string in which one of the seven labels
      occurs somewhere: the pattern is searched for, not matched whole. */
  lemma ContestKind(lib: Lib, m: map<string, Json>)
    ensures Decode(lib, Contest, JObj(m)).Some? ==>
      "kind" in m &&
      (m["kind"] == JNull ||
       (StrValue(lib, m["kind"]).Some? &&
        exists a, i :: a in KindLabels && OccursAt(StrValue(lib, m["kind"]).value, a, i)))
  {
    var f := Required("kind", TOptional(TPattern(KindLabels)));
    FieldOfModel(lib, Contest, m, f);
    if "kind" in m && !m["kind"].JNull? {
      assert Decode(lib, f.ty, m["kind"]) == Decode(lib, TPattern(KindLabels), m["kind"]);
      if StrValue(lib, m["kind"]).Some? {
        MatchesSomewhereIff(StrValue(lib, m["kind"]).value, KindLabels);
      }
    }
  }

  /** Any of the seven labels, with any text before and after it, satisfies
      `Contest.kind`: with `ContestKind`, a non-null `kind` is accepted exactly
      when one of the labels occurs in it. */
  lemma ContestKindUnanchored(lib: Lib, before: string, k: nat, after: string)
    requires k < |KindLabels|
    ensures Decode(lib, TOptional(TPattern(KindLabels)), JStr(before + KindLabels[k] + after)).Some?
  {
    var name := KindLabels[k];
    var s := before + name + after;
    assert s[|before|..|before| + |name|] == name;
    assert OccursAt(s, name, |before|);
    MatchesSomewhereIff(s, KindLabels);
  }

  /** `RatingChange.rank` is greater than 0 and both ratings are at least 0. */
  lemma RatingChangeBounds(lib: Lib, m: map<string, Json>)
    ensures Decode(lib, RatingChange, JObj(m)).Some? ==>
      && "rank" in m && IntAtLeast(lib, m["rank"], 1)
      && "oldRating" in m && IntAtLeast(lib, m["oldRating"], 0)
      && "newRating" in m && IntAtLeast(lib, m["newRating"], 0)
  {
    FieldOfModel(lib, RatingChange, m, Required("rank", PositiveInt));
    FieldOfModel(lib, RatingChange, m, Required("oldRating", NonNegativeInt));
    FieldOfModel(lib, RatingChange, m, Required("newRating", NonNegativeInt));
    AtLeastField(lib, "rank", 1, m);
    AtLeastField(lib, "oldRating", 0, m);
    AtLeastField(lib, "newRating", 0, m);
  }

  /** A `RecentAction` is accepted exactly when its time is at least 0 and
      its blog entry and comment are accepted by their own models. */
  lemma RecentActionAccepts(lib: Lib, m: map<string, Json>)
    ensures Decode(lib, RecentAction, JObj(m)).Some? <==>
      && "timeSeconds" in m && IntAtLeast(lib, m["timeSeconds"], 0)
      && "blogEntry" in m && Decode(lib, BlogEntry, m["blogEntry"]).Some?
      && "comment" in m && Decode(lib, Comment, m["comment"]).Some?
  {
    var time := Required("timeSeconds", NonNegativeInt);
    var blog := Required("blogEntry", BlogEntry);
    var comment := Required("comment", Comment);
    AtLeastField(lib, "timeSeconds", 0, m);
    ModelField(lib, "blogEntry", BlogEntry, m);
    ModelField(lib, "comment", Comment, m);
    FieldOfModel(lib, RecentAction, m, time);
    FieldOfModel(lib, RecentAction, m, blog);
    FieldOfModel(lib, RecentAction, m, comment);
    if FieldAccepts(lib, time, m) && FieldAccepts(lib, blog, m) && FieldAccepts(lib, comment, m) {
      ModelOfFields(lib, RecentAction, m);
    }
  }

  /** The fields of a `RanklistRow` as the model constrains them. */
  predicate RanklistRowFields(lib: Lib, m: map<string, Json>) {
    && "party" in m && Decode(lib, Party, m["party"]).Some?
    && "rank" in m && IntAtLeast(lib, m["rank"], 1)
    && "points" in m && FloatValue(lib, m["points"]).Some?
    && "penalty" in m && IntValue(lib, m["penalty"]).Some?
    && "successfulHackCount" in m && IntAtLeast(lib, m["successfulHackCount"], 0)
    && "unsuccessfulHackCount" in m && IntAtLeast(lib, m["unsuccessfulHackCount"], 0)
    && "problemResults" in m && m["problemResults"].JArr?
    && (forall k :: 0 <= k < |m["problemResults"].items| ==>
          Decode(lib, ProblemResult, m["problemResults"].items[k]).Some?)
    && "lastSubmissionTimeSeconds" in m
    && (m["lastSubmissionTimeSeconds"] == JNull || IntAtLeast(lib, m["lastSubmissionTimeSeconds"], 0))
  }

  /** A `RanklistRow` is accepted only if its fields are as the model
      constrains them. */
  lemma RanklistRowAcceptsOnly(lib: Lib, m: map<string, Json>)
    ensures Decode(lib, RanklistRow, JObj(m)).Some? ==> RanklistRowFields(lib, m)
  {
    ModelField(lib, "party", Party, m);
    AtLeastField(lib, "rank", 1, m);
    FloatField(lib, "points", m);
    IntField(lib, "penalty", m);
    AtLeastField(lib, "successfulHackCount", 0, m);
    AtLeastField(lib, "unsuccessfulHackCount", 0, m);
    ListField(lib, "problemResults", ProblemResult, m);
    OptionalAtLeastField(lib, "lastSubmissionTimeSeconds", 0, m);
    FieldOfModel(lib, RanklistRow, m, Required("party", Party));
    FieldOfModel(lib, RanklistRow, m, Required("rank", PositiveInt));
    FieldOfModel(lib, RanklistRow, m, Required("points", TFloat));
    FieldOfModel(lib, RanklistRow, m, Required("penalty", Int));
    FieldOfModel(lib, RanklistRow, m, Required("successfulHackCount", NonNegativeInt));
    FieldOfModel(lib, RanklistRow, m, Required("unsuccessfulHackCount", NonNegativeInt));
    FieldOfModel(lib, RanklistRow, m, Required("problemResults", TList(ProblemResult)));
    FieldOfModel(lib, RanklistRow, m, Required("lastSubmissionTimeSeconds", TOptional(NonNegativeInt)));
  }

  /** A `RanklistRow` whose fields are as the model constrains them is accepted. */
  lemma RanklistRowAcceptsIf(lib: Lib, m: map<string, Json>)
    ensures RanklistRowFields(lib, m) ==> Decode(lib, RanklistRow, JObj(m)).Some?
  {
    if RanklistRowFields(lib, m) {
      ModelField(lib, "party", Party, m);
      AtLeastField(lib, "rank", 1, m);
      FloatField(lib, "points", m);
      IntField(lib, "penalty", m);
      AtLeastField(lib, "successfulHackCount", 0, m);
      AtLeastField(lib, "unsuccessfulHackCount", 0, m);
      ListField(lib, "problemResults", ProblemResult, m);
      OptionalAtLeastField(lib, "lastSubmissionTimeSeconds", 0, m);
      ModelOfFields(lib, RanklistRow, m);
    }
  }

  /** A `RanklistRow` is accepted exactly when its party is, its rank is
      greater than 0, its hack counts are at least 0, every problem result is
      accepted, and its remaining fields have their declared types. */
  lemma RanklistRowAccepts(lib: Lib, m: map<string, Json>)
    ensures Decode(lib, RanklistRow, JObj(m)).Some? <==> RanklistRowFields(lib, m)
  {
    RanklistRowAcceptsOnly(lib, m);
    RanklistRowAcceptsIf(lib, m);
  }

  /** `Submission.verdict` is null or one of the 17 verdicts, `testset` is one
      of the 13 test sets, and the three counters are at least 0. */
  lemma SubmissionConstraints(lib: Lib, m: map<string, Json>)
    ensures Decode(lib, Submission, JObj(m)).Some? ==>
      && "verdict" in m && (m["verdict"] == JNull || (m["verdict"].JStr? && m["verdict"].s in VerdictValues))
      && "testset" in m && m["testset"].JStr? && m["testset"].s in TestSetValues
      && "passedTestCount" in m && IntAtLeast(lib, m["passedTestCount"], 0)
      && "timeConsumedMillis" in m && IntAtLeast(lib, m["timeConsumedMillis"], 0)
      && "memoryConsumedBytes" in m && IntAtLeast(lib, m["memoryConsumedBytes"], 0)
  {
    FieldOfModel(lib, Submission, m, Required("verdict", TOptional(Verdict)));
    FieldOfModel(lib, Submission, m, Required("testset", TestSet));
    FieldOfModel(lib, Submission, m, Required("passedTestCount", NonNegativeInt));
    FieldOfModel(lib, Submission, m, Required("timeConsumedMillis", NonNegativeInt));
    FieldOfModel(lib, Submission, m, Required("memoryConsumedBytes", NonNegativeInt));
    AtLeastField(lib, "passedTestCount", 0, m);
    AtLeastField(lib, "timeConsumedMillis", 0, m);
    AtLeastField(lib, "memoryConsumedBytes", 0, m);
  }

  /** `User.contribution`, `rating` and `maxRating` are JSON integers: a
      boolean, a string or a float there is rejected whatever the library
      would coerce. The three counters are at least 0. This holds whatever
      key the last name is declared under, so of `User` as declared and as
      corrected alike. */
  lemma UserConstraints(lib: Lib, lastNameKey: string, m: map<string, Json>)
    ensures Decode(lib, UserWith(lastNameKey), JObj(m)).Some? ==>
      && "contribution" in m && m["contribution"].JInt?
      && "rating" in m && m["rating"].JInt?
      && "maxRating" in m && m["maxRating"].JInt?
      && "lastOnlineTimeSeconds" in m && IntAtLeast(lib, m["lastOnlineTimeSeconds"], 0)
      && "registrationTimeSeconds" in m && IntAtLeast(lib, m["registrationTimeSeconds"], 0)
      && "friendOfCount" in m && IntAtLeast(lib, m["friendOfCount"], 0)
  {
    FieldOfModel(lib, UserWith(lastNameKey), m, Required("contribution", TStrictInt));
    FieldOfModel(lib, UserWith(lastNameKey), m, Required("rating", TStrictInt));
    FieldOfModel(lib, UserWith(lastNameKey), m, Required("maxRating", TStrictInt));
    FieldOfModel(lib, UserWith(lastNameKey), m, Required("lastOnlineTimeSeconds", NonNegativeInt));
    FieldOfModel(lib, UserWith(lastNameKey), m, Required("registrationTimeSeconds", NonNegativeInt));
    FieldOfModel(lib, UserWith(lastNameKey), m, Required("friendOfCount", NonNegativeInt));
    AtLeastField(lib, "lastOnlineTimeSeconds", 0, m);
    AtLeastField(lib, "registrationTimeSeconds", 0, m);
    AtLeastField(lib, "friendOfCount", 0, m);
  }

  // ---------------------------------------------------------------------------
  // The `lastNam` key
  // ---------------------------------------------------------------------------

  /** As declared, `User` requires a `lastNam` key, which the API's user
      objects do not carry: every object without it is rejected. */
  lemma UserAsWrittenNeedsLastNam(lib: Lib, m: map<string, Json>)
    ensures "lastNam" !in m ==> Decode(lib, UserAsWritten, JObj(m)) == None
  {
    FieldOfModel(lib, UserAsWritten, m, Required("lastNam", TOptional(TStr)));
  }

  /** No field of the corrected `User` has the key `lastNam`. */
  lemma LastNamNotDeclared()
    ensures "lastNam" !in KeysOf(User.fields)
  {
    forall i | 0 <= i < |User.fields| ensures User.fields[i].key != "lastNam" {
    }
  }

  /** In particular, no user the corrected model validates is accepted by the
      model as declared. */
  lemma UserAsWrittenRejectsValidUsers(lib: Lib, j: Json)
    ensures Decode(lib, User, j).Some? ==> Decode(lib, UserAsWritten, Decode(lib, User, j).value) == None
  {
    if Decode(lib, User, j).Some? {
      var v := Decode(lib, User, j).value;
      ModelAccepts(lib, User, j.fields);
      LastNamNotDeclared();
      UserAsWrittenNeedsLastNam(lib, v.fields);
    }
  }

  /** The corrected `User` reads the last name from `lastName`, which is null
      or a string. */
  lemma UserLastName(lib: Lib, m: map<string, Json>)
    ensures Decode(lib, User, JObj(m)).Some? ==>
      "lastName" in m && (m["lastName"] == JNull || StrValue(lib, m["lastName"]).Some?)
  {
    FieldOfModel(lib, User, m, Required("lastName", TOptional(TStr)));
  }

  /** A user the corrected `User` validates validates to itself. */
  lemma UserIdempotent(lib: Lib, j: Json)
    ensures Decode(lib, User, j).Some? ==> Decode(lib, User, Decode(lib, User, j).value) == Decode(lib, User, j)
  {
    UserWellFormed();
    DecodeIdempotent(lib, User, j);
  }
}
