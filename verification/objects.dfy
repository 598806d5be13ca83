/** The entities the Codeforces API returns (src/codeforces/objects.py), as
    schemas: one constant per enum and one per model class, field for field
    and in declaration order. Every field of these classes is declared without
    a default, so every key is required; `Optional[...]` only lets its value be
    `null`. */
module Objects {
  import opened Wrappers
  import opened Schema

  // ---------------------------------------------------------------------------
  // Enums: a `str` enum accepts exactly the strings of its members' values
  // ---------------------------------------------------------------------------

  const ContestType: Type := TEnum(["CF", "IOI", "ICPC"])

  const ContestPhase: Type :=
    TEnum(["BEFORE", "CODING", "PENDING_SYSTEM_TEST", "SYSTEM_TEST", "FINISHED"])

  const ParticipantType: Type :=
    TEnum(["CONTESTANT", "PRACTICE", "VIRTUAL", "MANAGER", "OUT_OF_COMPETITION"])

  const ProblemType: Type := TEnum(["PROGRAMMING", "QUESTION"])

  const VerdictValues: seq<string> := [
    "FAILED", "OK", "PARTIAL", "COMPILATION_ERROR", "RUNTIME_ERROR", "WRONG_ANSWER",
    "PRESENTATION_ERROR", "TIME_LIMIT_EXCEEDED", "MEMORY_LIMIT_EXCEEDED",
    "IDLENESS_LIMIT_EXCEEDED", "SECURITY_VIOLATED", "CRASHED",
    "INPUT_PREPARATION_CRASHED", "CHALLENGED", "SKIPPED", "TESTING", "REJECTED"]

  const Verdict: Type := TEnum(VerdictValues)

  const TestSetValues: seq<string> := [
    "SAMPLES", "PRETESTS", "TESTS", "TESTS1", "TESTS2", "TESTS3", "TESTS4",
    "TESTS5", "TESTS6", "TESTS7", "TESTS8", "TESTS9", "TESTS10"]

  const TestSet: Type := TEnum(TestSetValues)

  const HackVerdict: Type := TEnum([
    "HACK_SUCCESSFUL", "HACK_UNSUCCESSFUL", "INVALID_INPUT", "GENERATOR_INCOMPILABLE",
    "GENERATOR_CRASHED", "IGNORED", "TESTING", "OTHER"])

  const ProblemResultType: Type := TEnum(["PRELIMINARY", "FINAL"])

  // ---------------------------------------------------------------------------
  // Model classes
  // ---------------------------------------------------------------------------

  /** The key under which `User` declares the user's last name. */
  const LastNameKeyAsWritten: string := "lastNam"

  /** The key the API uses for the user's last name. */
  const LastNameKey: string := "lastName"

  /** `User`, with the last-name field under the key `lastNameKey`. */
  function UserWith(lastNameKey: string): Type {
    TModel([
      Required("handle", TStr),
      Required("email", TStr),
      Required("vkId", TStr),
      Required("openId", TStr),
      Required("firstName", TOptional(TStr)),
      Required(lastNameKey, TOptional(TStr)),
      Required("country", TOptional(TStr)),
      Required("city", TOptional(TStr)),
      Required("organization", TOptional(TStr)),
      Required("contribution", TStrictInt),
      Required("rank", TStr),
      Required("rating", TStrictInt),
      Required("maxRank", TStr),
      Required("maxRating", TStrictInt),
      Required("lastOnlineTimeSeconds", NonNegativeInt),
      Required("registrationTimeSeconds", NonNegativeInt),
      Required("friendOfCount", NonNegativeInt),
      Required("avatar", THttpUrl),
      Required("titlePhoto", THttpUrl)])
  }

  /** `User` as declared. */
  const UserAsWritten: Type := UserWith(LastNameKeyAsWritten)

  /** `User` with the last name read from the key the API sends. */
  const User: Type := UserWith(LastNameKey)

  const BlogEntry: Type := TModel([
    Required("id", Int),
    Required("originalLocale", TStr),
    Required("creationTimeSeconds", NonNegativeInt),
    Required("authorHandle", TStr),
    Required("title", TStr),
    Required("content", TStr),
    Required("locale", TStr),
    Required("modificationTimeSeconds", NonNegativeInt),
    Required("allowViewHistory", TBool),
    Required("tags", TList(TStr)),
    Required("rating", TStrictInt)])

  const Comment: Type := TModel([
    Required("id", Int),
    Required("creationTimeSeconds", NonNegativeInt),
    Required("commentatorHandle", TStr),
    Required("locale", TStr),
    Required("text", TStr),
    Required("parentCommentId", TOptional(Int)),
    Required("rating", NonNegativeInt)])

  const RecentAction: Type := TModel([
    Required("timeSeconds", NonNegativeInt),
    Required("blogEntry", BlogEntry),
    Required("comment", Comment)])

  const RatingChange: Type := TModel([
    Required("contestId", Int),
    Required("contestName", TStr),
    Required("handle", TStr),
    Required("rank", PositiveInt),
    Required("ratingUpdateTimeSeconds", NonNegativeInt),
    Required("oldRating", NonNegativeInt),
    Required("newRating", NonNegativeInt)])

  /** The seven literal alternatives of the pattern on `Contest.kind`. */
  const KindLabels: seq<string> := [
    "Official ICPC Contest",
    "Official School Contest",
    "Opencup Contest",
    "School/University/City/Region Championship",
    "Training Camp Contest",
    "Official International Personal Contest",
    "Training Contest"]

  const Contest: Type := TModel([
    Required("id", Int),
    Required("name", TStr),
    Required("type", ContestType),
    Required("phase", ContestPhase),
    Required("frozen", TBool),
    Required("durationSeconds", NonNegativeInt),
    Required("startTimeSeconds", TOptional(NonNegativeInt)),
    Required("relativeTimeSeconds", TOptional(TStrictInt)),
    Required("preparedBy", TOptional(TStr)),
    Required("websiteUrl", TOptional(THttpUrl)),
    Required("description", TOptional(TStr)),
    Required("difficulty", TOptional(IntBetween(1, 5))),
    Required("kind", TOptional(TPattern(KindLabels))),
    Required("icpcRegion", TOptional(TStr)),
    Required("country", TOptional(TStr)),
    Required("city", TOptional(TStr)),
    Required("season", TOptional(TStr))])

  const Member: Type := TModel([
    Required("handle", TStr),
    Required("name", TOptional(TStr))])

  const Party: Type := TModel([
    Required("contestId", TOptional(Int)),
    Required("members", TList(Member)),
    Required("participantType", ParticipantType),
    Required("teamId", TOptional(Int)),
    Required("teamName", TOptional(TStr)),
    Required("ghost", TBool),
    Required("room", TOptional(Int)),
    Required("startTimeSeconds", TOptional(NonNegativeInt))])

  const Problem: Type := TModel([
    Required("contestId", TOptional(Int)),
    Required("problemsetName", TOptional(TStr)),
    Required("index", TStr),
    Required("name", TStr),
    Required("type", ProblemType),
    Required("points", TOptional(TFloat)),
    Required("rating", TOptional(NonNegativeInt)),
    Required("tags", TList(TStr))])

  const ProblemStatistics: Type := TModel([
    Required("contestId", TOptional(Int)),
    Required("index", TStr),
    Required("solvedCount", NonNegativeInt)])

  const Submission: Type := TModel([
    Required("id", Int),
    Required("contestId", TOptional(Int)),
    Required("creationTimeSeconds", TOptional(NonNegativeInt)),
    Required("relativeTimeSeconds", Int),
    Required("problem", Problem),
    Required("author", Party),
    Required("programmingLanguage", TStr),
    Required("verdict", TOptional(Verdict)),
    Required("testset", TestSet),
    Required("passedTestCount", NonNegativeInt),
    Required("timeConsumedMillis", NonNegativeInt),
    Required("memoryConsumedBytes", NonNegativeInt),
    Required("points", TOptional(TFloat))])

  const JudgeProtocol: Type := TModel([
    Required("manual", TBool),
    Required("protocol", TStr),
    Required("verdict", HackVerdict)])

  const Hack: Type := TModel([
    Required("id", Int),
    Required("creationTimeSeconds", NonNegativeInt),
    Required("hacker", Party),
    Required("defender", Party),
    Required("verdict", TOptional(HackVerdict)),
    Required("problem", Problem),
    Required("test", TOptional(TStr)),
    Required("judgeProtocol", TOptional(JudgeProtocol))])

  const ProblemResult: Type := TModel([
    Required("points", TFloat),
    Required("penalty", TOptional(Int)),
    Required("rejectedAttemptCount", NonNegativeInt),
    Required("type", ProblemResultType),
    Required("bestSubmissionTimeSeconds", TOptional(NonNegativeInt))])

  const RanklistRow: Type := TModel([
    Required("party", Party),
    Required("rank", PositiveInt),
    Required("points", TFloat),
    Required("penalty", Int),
    Required("successfulHackCount", NonNegativeInt),
    Required("unsuccessfulHackCount", NonNegativeInt),
    Required("problemResults", TList(ProblemResult)),
    Required("lastSubmissionTimeSeconds", TOptional(NonNegativeInt))])
}
