/**
 * Records shared by the storage layer, the HTTP handlers and the grade
 * aggregation: the rows of the `users`, `chat_sessions` and `comparisons`
 * tables, the fields of the evaluation tables that the aggregation reads,
 * and the small wrappers used for nullable and partial values.
 */
module Records {

  /** A nullable value: `None` stands for JavaScript's `null` / `undefined`. */
  datatype Option<+T> = None | Some(value: T)

  /** One field of a `Partial<…>` update: absent (keep the old value) or present. */
  datatype Patch<+T> = Keep | Set(value: T)

  function Apply<T>(old_: T, p: Patch<T>): T
  {
    match p
    case Keep => old_
    case Set(v) => v
  }

  /** JavaScript truthiness of a nullable string: `null`, `undefined` and `""` are falsy. */
  predicate TruthyString(s: Option<string>)
  {
    s.Some? && s.value != ""
  }

  /** JavaScript truthiness of a nullable integer: `null`, `undefined` and `0` are falsy. */
  predicate TruthyInt(n: Option<int>)
  {
    n.Some? && n.value != 0
  }

  // ---- users ----

  datatype InsertUser = InsertUser(username: string, password: string)

  datatype User = User(id: string, username: string, password: string)

  // ---- chat_sessions ----

  /** The columns of `insertChatSessionSchema`; the optional ones may be absent. */
  datatype InsertChatSession = InsertChatSession(
    userId: string,
    prompt: string,
    modelAResponse: Option<string>,
    modelBResponse: Option<string>,
    modelAName: Option<string>,
    modelBName: Option<string>)

  /** A stored chat session; `createdAt` is an opaque integer timestamp. */
  datatype ChatSession = ChatSession(
    id: string,
    userId: string,
    prompt: string,
    modelAResponse: Option<string>,
    modelBResponse: Option<string>,
    modelAName: Option<string>,
    modelBName: Option<string>,
    createdAt: Option<int>)

  /** `Partial<ChatSession>`: every column may be left out of the update. */
  datatype ChatSessionPatch = ChatSessionPatch(
    id: Patch<string>,
    userId: Patch<string>,
    prompt: Patch<string>,
    modelAResponse: Patch<Option<string>>,
    modelBResponse: Patch<Option<string>>,
    modelAName: Patch<Option<string>>,
    modelBName: Patch<Option<string>>,
    createdAt: Patch<Option<int>>)

  /** The object spread `{ ...existing, ...updates }`. */
  function Overlay(existing: ChatSession, u: ChatSessionPatch): (r: ChatSession)
    ensures u.id.Set? ==> r.id == u.id.value
    ensures u.id.Keep? ==> r.id == existing.id
    ensures u.userId.Set? ==> r.userId == u.userId.value
    ensures u.userId.Keep? ==> r.userId == existing.userId
    ensures u.prompt.Set? ==> r.prompt == u.prompt.value
    ensures u.prompt.Keep? ==> r.prompt == existing.prompt
    ensures u.modelAResponse.Set? ==> r.modelAResponse == u.modelAResponse.value
    ensures u.modelAResponse.Keep? ==> r.modelAResponse == existing.modelAResponse
    ensures u.modelBResponse.Set? ==> r.modelBResponse == u.modelBResponse.value
    ensures u.modelBResponse.Keep? ==> r.modelBResponse == existing.modelBResponse
    ensures u.modelAName.Set? ==> r.modelAName == u.modelAName.value
    ensures u.modelAName.Keep? ==> r.modelAName == existing.modelAName
    ensures u.modelBName.Set? ==> r.modelBName == u.modelBName.value
    ensures u.modelBName.Keep? ==> r.modelBName == existing.modelBName
    ensures u.createdAt.Set? ==> r.createdAt == u.createdAt.value
    ensures u.createdAt.Keep? ==> r.createdAt == existing.createdAt
  {
    ChatSession(
      Apply(existing.id, u.id),
      Apply(existing.userId, u.userId),
      Apply(existing.prompt, u.prompt),
      Apply(existing.modelAResponse, u.modelAResponse),
      Apply(existing.modelBResponse, u.modelBResponse),
      Apply(existing.modelAName, u.modelAName),
      Apply(existing.modelBName, u.modelBName),
      Apply(existing.createdAt, u.createdAt))
  }

  // ---- comparisons ----

  datatype InsertComparison = InsertComparison(
    chatSessionId: Option<string>,
    winner: string,
    modelARating: Option<int>,
    modelBRating: Option<int>,
    userId: string)

  datatype Comparison = Comparison(
    id: string,
    chatSessionId: Option<string>,
    winner: string,
    modelARating: Option<int>,
    modelBRating: Option<int>,
    userId: string,
    createdAt: Option<int>)

  // ---- evaluation tables (only the columns the aggregation reads) ----

  /**
   * One `human_grades` row. `responseName` is `gradingCriteria?.responseName`
   * (absent when the criteria object or the field is missing), and `gradedAt`
   * is an opaque integer timestamp.
   */
  datatype HumanGrade = HumanGrade(
    id: string,
    responseId: string,
    graderId: string,
    score: int,
    feedback: Option<string>,
    responseName: Option<string>,
    gradingSessionId: Option<string>,
    gradedAt: int)

  /**
   * An in-memory snapshot of the evaluation tables: the grade rows in the
   * order the database returns them, `agent_responses.id -> testCaseId` and
   * `evaluation_test_cases.id -> caseName`.
   */
  datatype Snapshot = Snapshot(
    grades: seq<HumanGrade>,
    responseTestCase: map<string, string>,
    caseNames: map<string, string>)

  const Response1: string := "Response 1"
  const Response2: string := "Response 2"

  /** The winner tags of a comparison. */
  const ModelA: string := "modelA"
  const ModelB: string := "modelB"
}

/**
 * Rounding of averages to one decimal, in integer tenths. The source works on
 * IEEE doubles; these are the exact-rational results, which a double can miss
 * when the exact quotient lies on a .x5 boundary that is not representable.
 */
module Numeric {

  /** `Math.round(sum / count * 10)`: the nearest integer tenth, halves rounded up. */
  function RoundHalfUpTenths(sum: int, count: nat): (t: int)
    requires count > 0
    ensures 2 * count * t <= 20 * sum + count < 2 * count * (t + 1)
  {
    (20 * sum + count) / (2 * count)
  }

  /**
   * `(sum / count).toFixed(1)` as a number of tenths: the magnitude is rounded
   * to the nearest tenth with halves away from zero, and the sign is put back.
   */
  function ToFixedTenths(sum: int, count: nat): (t: int)
    requires count > 0
    ensures sum >= 0 ==> t >= 0 && 2 * count * t <= 20 * sum + count < 2 * count * (t + 1)
    ensures sum < 0 ==> t <= 0 && 2 * count * -t <= 20 * -sum + count < 2 * count * (-t + 1)
  {
    if sum >= 0 then RoundHalfUpTenths(sum, count) else -RoundHalfUpTenths(-sum, count)
  }
}
