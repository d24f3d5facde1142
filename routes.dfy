/**
 * The HTTP handlers of `registerRoutes`, run against a `MemStorage`: request
 * bodies as JSON objects, the `insert…Schema.parse` validation, the
 * `userId || "demo-user"` defaulting, the create-then-update flow of
 * `POST /api/chats`, and the `/api/stats` aggregation over comparison rows.
 */
module Routes {
  import opened Records
  import opened Numeric
  import MemStore
  import GradeStats

  // ---- request bodies ----

  /**
   * A JSON value as `express.json()` delivers it. Numbers are integers here;
   * arrays and nested objects are `JCompound`, which is truthy.
   */
  datatype Json = JNull | JBool(b: bool) | JNum(n: int) | JStr(s: string) | JCompound

  /** A request body: an absent key is `undefined`. */
  type Body = map<string, Json>

  predicate Truthy(v: Json)
  {
    match v
    case JNull => false
    case JBool(b) => b
    case JNum(n) => n != 0
    case JStr(s) => s != ""
    case JCompound => true
  }

  const DemoUser: string := "demo-user"

  /** `req.query.userId as string || "demo-user"` */
  function UserIdOrDemo(q: Option<string>): (userId: string)
    ensures TruthyString(q) ==> userId == q.value
    ensures !TruthyString(q) ==> userId == DemoUser
  {
    if TruthyString(q) then q.value else DemoUser
  }

  /** `{ ...req.body, userId: req.body.userId || "demo-user" }` */
  function WithUserId(body: Body): (r: Body)
    ensures "userId" in r
    ensures "userId" in body && Truthy(body["userId"]) ==> r["userId"] == body["userId"]
    ensures !("userId" in body && Truthy(body["userId"])) ==> r["userId"] == JStr(DemoUser)
    ensures forall k :: k != "userId" ==> (k in r <==> k in body) && (k in r ==> r[k] == body[k])
  {
    if "userId" in body && Truthy(body["userId"]) then body else body["userId" := JStr(DemoUser)]
  }

  datatype Parsed<+T> = Ok(value: T) | Invalid

  /** A `notNull` text column: a string must be present. */
  function RequiredString(body: Body, key: string): (r: Parsed<string>)
    ensures r.Ok? <==> key in body && body[key].JStr?
    ensures r.Ok? ==> body[key] == JStr(r.value)
  {
    if key in body && body[key].JStr? then Ok(body[key].s) else Invalid
  }

  /** A nullable text column: absent or `null` gives no value, a string gives itself, anything else fails. */
  function OptionalString(body: Body, key: string): (r: Parsed<Option<string>>)
    ensures r.Ok? <==> key !in body || body[key].JNull? || body[key].JStr?
    ensures r == Ok(None) <==> key !in body || body[key].JNull?
    ensures r.Ok? && r.value.Some? ==> body[key] == JStr(r.value.value)
  {
    if key !in body || body[key].JNull? then Ok(None)
    else if body[key].JStr? then Ok(Some(body[key].s))
    else Invalid
  }

  /** A nullable integer column. */
  function OptionalInt(body: Body, key: string): (r: Parsed<Option<int>>)
    ensures r.Ok? <==> key !in body || body[key].JNull? || body[key].JNum?
    ensures r == Ok(None) <==> key !in body || body[key].JNull?
    ensures r.Ok? && r.value.Some? ==> body[key] == JNum(r.value.value)
  {
    if key !in body || body[key].JNull? then Ok(None)
    else if body[key].JNum? then Ok(Some(body[key].n))
    else Invalid
  }

  /** `insertChatSessionSchema.parse`: keys outside the schema are dropped. */
  function ParseChatSession(body: Body): (r: Parsed<InsertChatSession>)
    ensures r.Ok? <==> && RequiredString(body, "userId").Ok? && RequiredString(body, "prompt").Ok?
                       && OptionalString(body, "modelAResponse").Ok? && OptionalString(body, "modelBResponse").Ok?
                       && OptionalString(body, "modelAName").Ok? && OptionalString(body, "modelBName").Ok?
  {
    match (RequiredString(body, "userId"), RequiredString(body, "prompt"),
           OptionalString(body, "modelAResponse"), OptionalString(body, "modelBResponse"),
           OptionalString(body, "modelAName"), OptionalString(body, "modelBName"))
    case (Ok(userId), Ok(prompt), Ok(aResponse), Ok(bResponse), Ok(aName), Ok(bName)) =>
      Ok(InsertChatSession(userId, prompt, aResponse, bResponse, aName, bName))
    case _ => Invalid
  }

  /** `insertComparisonSchema.parse` */
  function ParseComparison(body: Body): (r: Parsed<InsertComparison>)
    ensures r.Ok? <==> && OptionalString(body, "chatSessionId").Ok? && RequiredString(body, "winner").Ok?
                       && OptionalInt(body, "modelARating").Ok? && OptionalInt(body, "modelBRating").Ok?
                       && RequiredString(body, "userId").Ok?
  {
    match (OptionalString(body, "chatSessionId"), RequiredString(body, "winner"),
           OptionalInt(body, "modelARating"), OptionalInt(body, "modelBRating"),
           RequiredString(body, "userId"))
    case (Ok(sessionId), Ok(winner), Ok(aRating), Ok(bRating), Ok(userId)) =>
      Ok(InsertComparison(sessionId, winner, aRating, bRating, userId))
    case _ => Invalid
  }

  function StringField(v: Option<string>): Json
  {
    if v.Some? then JStr(v.value) else JNull
  }

  function IntField(v: Option<int>): Json
  {
    if v.Some? then JNum(v.value) else JNull
  }

  /** The JSON object a client sends for a chat session. */
  function ChatSessionBody(ins: InsertChatSession): Body
  {
    map["userId" := JStr(ins.userId), "prompt" := JStr(ins.prompt),
        "modelAResponse" := StringField(ins.modelAResponse), "modelBResponse" := StringField(ins.modelBResponse),
        "modelAName" := StringField(ins.modelAName), "modelBName" := StringField(ins.modelBName)]
  }

  /** The JSON object a client sends for a comparison. */
  function ComparisonBody(ins: InsertComparison): Body
  {
    map["chatSessionId" := StringField(ins.chatSessionId), "winner" := JStr(ins.winner),
        "modelARating" := IntField(ins.modelARating), "modelBRating" := IntField(ins.modelBRating),
        "userId" := JStr(ins.userId)]
  }

  /** Every well-typed chat session body parses back to the record it encodes, even with extra keys. */
  lemma ChatSessionBodyRoundTrip(ins: InsertChatSession, extra: Body)
    ensures ParseChatSession(extra + ChatSessionBody(ins)) == Ok(ins)
  {
    var body := extra + ChatSessionBody(ins);
    assert RequiredString(body, "userId") == Ok(ins.userId);
    assert RequiredString(body, "prompt") == Ok(ins.prompt);
    assert OptionalString(body, "modelAResponse") == Ok(ins.modelAResponse);
    assert OptionalString(body, "modelBResponse") == Ok(ins.modelBResponse);
    assert OptionalString(body, "modelAName") == Ok(ins.modelAName);
    assert OptionalString(body, "modelBName") == Ok(ins.modelBName);
  }

  /** Every well-typed comparison body parses back to the record it encodes, even with extra keys. */
  lemma ComparisonBodyRoundTrip(ins: InsertComparison, extra: Body)
    ensures ParseComparison(extra + ComparisonBody(ins)) == Ok(ins)
  {
    var body := extra + ComparisonBody(ins);
    assert OptionalString(body, "chatSessionId") == Ok(ins.chatSessionId);
    assert RequiredString(body, "winner") == Ok(ins.winner);
    assert OptionalInt(body, "modelARating") == Ok(ins.modelARating);
    assert OptionalInt(body, "modelBRating") == Ok(ins.modelBRating);
    assert RequiredString(body, "userId") == Ok(ins.userId);
  }

  /**
   * A body without a truthy `userId` is stored under "demo-user"; a truthy
   * `userId` that is not a string is rejected.
   */
  lemma UserIdDefaultsToDemoUser(body: Body)
    ensures !("userId" in body && Truthy(body["userId"])) ==>
              && (ParseChatSession(WithUserId(body)).Ok? ==> ParseChatSession(WithUserId(body)).value.userId == DemoUser)
              && (ParseComparison(WithUserId(body)).Ok? ==> ParseComparison(WithUserId(body)).value.userId == DemoUser)
    ensures "userId" in body && Truthy(body["userId"]) && !body["userId"].JStr? ==>
              ParseChatSession(WithUserId(body)).Invalid? && ParseComparison(WithUserId(body)).Invalid?
  {
  }

  /**
   * A comparison body without `chatSessionId` (the chat interface sends the
   * session as `evaluationSessionId`, which the schema drops) is stored
   * with no chat session.
   */
  lemma MissingChatSessionIdIsStoredAsNull(body: Body)
    requires "chatSessionId" !in body
    requires ParseComparison(body).Ok?
    ensures ParseComparison(body).value.chatSessionId.None?
  {
  }

  // ---- responses ----

  datatype ResponseBody =
    | Message(message: string)
    | SessionJson(session: ChatSession)
    | SessionsJson(sessions: seq<ChatSession>)
    | ComparisonJson(comparison: Comparison)
    | ComparisonsJson(comparisons: seq<Comparison>)
    | StatsJson(stats: ApiStats)

  datatype Response = Response(status: nat, body: ResponseBody)

  const InvalidRequestData: string := "Invalid request data"
  const InvalidComparisonData: string := "Invalid comparison data"
  const ChatSessionNotFound: string := "Chat session not found"

  // ---- POST /api/chats ----

  const GPT4Turbo: string := "GPT-4 Turbo"
  const Claude3Opus: string := "Claude 3 Opus"

  const ModelAOpening: string := "Based on legal precedent and applicable statutes, regarding "
  const ModelAClosing: string := ": The contractual obligations would likely be enforceable under relevant commercial code provisions. Key considerations include material terms definition, adequate consideration, and party capacity requirements. Recommend reviewing specific agreement terms and consulting applicable state law."
  const ModelBOpening: string := "Analyzing "
  const ModelBClosing: string := " from a comprehensive legal perspective: The enforceability depends on several factors under applicable law. Primary framework includes contract formation requirements (offer, acceptance, consideration), commercial code applicability, state-specific interpretation standards, and potential defenses. Recommend thorough contract language review and jurisdictional requirement analysis."

  function Quoted(prompt: string): string
  {
    "\"" + prompt + "\""
  }

  /** A simulated answer: a fixed opening, the quoted prompt, a fixed closing. */
  function Answer(opening: string, prompt: string, closing: string): (a: string)
    ensures |a| == |opening| + |prompt| + |closing| + 2
    ensures a[..|opening|] == opening && a[|a| - |closing|..] == closing
    ensures a[|opening|..|a| - |closing|] == Quoted(prompt)
  {
    var a := opening + Quoted(prompt) + closing;
    assert a[..|opening|] == opening;
    assert a[|a| - |closing|..] == closing;
    assert a[|opening|..|a| - |closing|] == Quoted(prompt);
    a
  }

  /** Model A's simulated answer: its fixed opening, the quoted prompt, its fixed closing. */
  function ModelAText(prompt: string): (a: string)
    ensures |a| == |ModelAOpening| + |prompt| + |ModelAClosing| + 2
    ensures a[..|ModelAOpening|] == ModelAOpening && a[|a| - |ModelAClosing|..] == ModelAClosing
    ensures a[|ModelAOpening|..|a| - |ModelAClosing|] == Quoted(prompt)
  {
    Answer(ModelAOpening, prompt, ModelAClosing)
  }

  /** Model B's simulated answer: its fixed opening, the quoted prompt, its fixed closing. */
  function ModelBText(prompt: string): (a: string)
    ensures |a| == |ModelBOpening| + |prompt| + |ModelBClosing| + 2
    ensures a[..|ModelBOpening|] == ModelBOpening && a[|a| - |ModelBClosing|..] == ModelBClosing
    ensures a[|ModelBOpening|..|a| - |ModelBClosing|] == Quoted(prompt)
  {
    Answer(ModelBOpening, prompt, ModelBClosing)
  }

  predicate OccursAt(text: string, part: string, i: int)
  {
    0 <= i && i + |part| <= |text| && text[i..i + |part|] == part
  }

  ghost predicate Contains(text: string, part: string)
  {
    exists i :: OccursAt(text, part, i)
  }

  /** The prompt between the quotes of a simulated answer. */
  function QuotedPrompt(text: string, opening: string, closing: string): (p: string)
    requires |text| >= |opening| + |closing| + 2
  {
    text[|opening| + 1..|text| - |closing| - 1]
  }

  lemma Middle(x: string, y: string, z: string)
    ensures OccursAt(x + y + z, y, |x|)
    ensures (x + y + z)[|x|..|x + y + z| - |z|] == y
  {
    assert (x + y + z)[|x|..|x| + |y|] == y;
  }

  /** An answer quotes the prompt, and the prompt can be read back from it. */
  lemma AnswerQuotesThePrompt(opening: string, prompt: string, closing: string)
    ensures Contains(Answer(opening, prompt, closing), Quoted(prompt))
    ensures |Answer(opening, prompt, closing)| >= |opening| + |closing| + 2
    ensures QuotedPrompt(Answer(opening, prompt, closing), opening, closing) == prompt
  {
    var q := Quoted(prompt);
    Middle(opening, q, closing);
    Middle("\"", prompt, "\"");
    var a := opening + q + closing;
    assert a[|opening|..|a| - |closing|] == q;
  }

  /** Both simulated answers of `POST /api/chats` quote the prompt, and the prompt can be read back from each. */
  lemma AnswersQuoteThePrompt(prompt: string)
    ensures Contains(ModelAText(prompt), Quoted(prompt)) && Contains(ModelBText(prompt), Quoted(prompt))
    ensures |ModelAText(prompt)| >= |ModelAOpening| + |ModelAClosing| + 2
    ensures |ModelBText(prompt)| >= |ModelBOpening| + |ModelBClosing| + 2
    ensures QuotedPrompt(ModelAText(prompt), ModelAOpening, ModelAClosing) == prompt
    ensures QuotedPrompt(ModelBText(prompt), ModelBOpening, ModelBClosing) == prompt
  {
    AnswerQuotesThePrompt(ModelAOpening, prompt, ModelAClosing);
    AnswerQuotesThePrompt(ModelBOpening, prompt, ModelBClosing);
  }

  /** The session `POST /api/chats` leaves in the store for a parsed request. */
  function AnsweredSession(id: string, ins: InsertChatSession, now: int): ChatSession
  {
    ChatSession(id, ins.userId, ins.prompt, Some(ModelAText(ins.prompt)), Some(ModelBText(ins.prompt)),
                Some(GPT4Turbo), Some(Claude3Opus), Some(now))
  }

  /**
   * `POST /api/chats`: parse the body with the defaulted `userId`, create the
   * session with no answers, then store the two simulated answers and return
   * the updated session. `id` and `now` stand for `randomUUID()` and
   * `new Date()`.
   */
  method PostChats(store: MemStore.MemStorage, body: Body, id: string, now: int) returns (resp: Response)
    requires store.Valid()
    requires id !in store.chatSessions
    modifies store
    ensures store.Valid()
    ensures ParseChatSession(WithUserId(body)).Invalid? ==>
              && resp == Response(400, Message(InvalidRequestData))
              && store.chatSessions == old(store.chatSessions)
              && store.chatSessionOrder == old(store.chatSessionOrder)
    ensures ParseChatSession(WithUserId(body)).Ok? ==>
              var session := AnsweredSession(id, ParseChatSession(WithUserId(body)).value, now);
              && resp == Response(200, SessionJson(session))
              && store.chatSessions == old(store.chatSessions)[id := session]
              && store.chatSessionOrder == old(store.chatSessionOrder) + [id]
    ensures store.users == old(store.users) && store.userOrder == old(store.userOrder)
    ensures store.comparisons == old(store.comparisons) && store.comparisonOrder == old(store.comparisonOrder)
  {
    var parsed := ParseChatSession(WithUserId(body));
    if parsed.Invalid? {
      return Response(400, Message(InvalidRequestData));
    }
    var userId, prompt := parsed.value.userId, parsed.value.prompt;
    var created := store.CreateChatSession(
      InsertChatSession(userId, prompt, None, None, Some(GPT4Turbo), Some(Claude3Opus)), id, now);
    var updates := ChatSessionPatch(Keep, Keep, Keep, Set(Some(ModelAText(prompt))), Set(Some(ModelBText(prompt))),
                                    Keep, Keep, Keep);
    var updated := store.UpdateChatSession(created.id, updates);
    assert updated == Some(AnsweredSession(id, parsed.value, now));
    return Response(200, SessionJson(updated.value));
  }

  // ---- the other chat and comparison handlers ----

  /** `GET /api/chats`: the sessions of the queried (or demo) user. */
  function GetChats(store: MemStore.MemStorage, userIdQuery: Option<string>): (resp: Response)
    reads store
    requires store.Valid()
    ensures resp.status == 200 && resp.body.SessionsJson?
    ensures forall s :: s in resp.body.sessions <==>
              s in store.chatSessions.Values && s.userId == UserIdOrDemo(userIdQuery)
    ensures |resp.body.sessions| ==
              |set id | id in store.chatSessions && store.chatSessions[id].userId == UserIdOrDemo(userIdQuery)|
  {
    var sessions := store.GetChatSessionsByUser(UserIdOrDemo(userIdQuery));
    assert forall s :: s in store.chatSessions.Values ==> exists id :: id in store.chatSessions && store.chatSessions[id] == s;
    Response(200, SessionsJson(sessions))
  }

  /** `GET /api/chats/:id`: 404 when the session is missing. */
  function GetChat(store: MemStore.MemStorage, id: string): (resp: Response)
    reads store
    ensures id !in store.chatSessions <==> resp == Response(404, Message(ChatSessionNotFound))
    ensures id in store.chatSessions ==> resp == Response(200, SessionJson(store.chatSessions[id]))
  {
    match store.GetChatSession(id)
    case None => Response(404, Message(ChatSessionNotFound))
    case Some(session) => Response(200, SessionJson(session))
  }

  /** `POST /api/comparisons`: parse the body with the defaulted `userId` and store it. */
  method PostComparison(store: MemStore.MemStorage, body: Body, id: string, now: int) returns (resp: Response)
    requires store.Valid()
    requires id !in store.comparisons
    modifies store
    ensures store.Valid()
    ensures ParseComparison(WithUserId(body)).Invalid? ==>
              && resp == Response(400, Message(InvalidComparisonData))
              && store.comparisons == old(store.comparisons)
              && store.comparisonOrder == old(store.comparisonOrder)
    ensures ParseComparison(WithUserId(body)).Ok? ==>
              var ins := ParseComparison(WithUserId(body)).value;
              var c := Comparison(id, ins.chatSessionId, ins.winner, ins.modelARating, ins.modelBRating,
                                  ins.userId, Some(now));
              && resp == Response(200, ComparisonJson(c))
              && store.comparisons == old(store.comparisons)[id := c]
              && store.comparisonOrder == old(store.comparisonOrder) + [id]
    ensures store.users == old(store.users) && store.userOrder == old(store.userOrder)
    ensures store.chatSessions == old(store.chatSessions) && store.chatSessionOrder == old(store.chatSessionOrder)
  {
    var parsed := ParseComparison(WithUserId(body));
    if parsed.Invalid? {
      return Response(400, Message(InvalidComparisonData));
    }
    var comparison := store.CreateComparison(parsed.value, id, now);
    return Response(200, ComparisonJson(comparison));
  }

  /** `GET /api/comparisons`: the comparisons of the queried (or demo) user. */
  function GetComparisons(store: MemStore.MemStorage, userIdQuery: Option<string>): (resp: Response)
    reads store
    requires store.Valid()
    ensures resp.status == 200 && resp.body.ComparisonsJson?
    ensures forall c :: c in resp.body.comparisons <==>
              c in store.comparisons.Values && c.userId == UserIdOrDemo(userIdQuery)
    ensures |resp.body.comparisons| ==
              |set id | id in store.comparisons && store.comparisons[id].userId == UserIdOrDemo(userIdQuery)|
  {
    var comparisons := store.GetComparisonsByUser(UserIdOrDemo(userIdQuery));
    assert forall c :: c in store.comparisons.Values ==> exists id :: id in store.comparisons && store.comparisons[id] == c;
    Response(200, ComparisonsJson(comparisons))
  }

  // ---- GET /api/stats ----

  const GPT4: string := "GPT-4"
  const Claude: string := "Claude"
  const AvgResponseTime: string := "3.4s"

  /** `averageRating`: the string "0" when no rating is pooled, otherwise the mean to one decimal, in tenths. */
  datatype AverageRating = NoRatings | Tenths(tenths: int)

  datatype ApiStats = ApiStats(
    totalComparisons: nat,
    modelAWins: nat,
    modelBWins: nat,
    averageRating: AverageRating,
    preferredModel: string,
    avgResponseTime: string)

  /** `comparisons.filter(c => c.winner === w).length` */
  function CountWinner(cs: seq<Comparison>, w: string): (n: nat)
    ensures n <= |cs|
    ensures n == 0 <==> forall c :: c in cs ==> c.winner != w
  {
    if cs == [] then 0
    else
      assert forall c :: c in cs <==> c == cs[0] || c in cs[1..];
      (if cs[0].winner == w then 1 else 0) + CountWinner(cs[1..], w)
  }

  /** The rows whose winner is `w`, by position. */
  ghost function WinnerRows(cs: seq<Comparison>, w: string): set<nat>
  {
    set i: nat | i < |cs| && cs[i].winner == w
  }

  lemma {:induction false} CountWinnerSnoc(cs: seq<Comparison>, c: Comparison, w: string)
    ensures CountWinner(cs + [c], w) == CountWinner(cs, w) + (if c.winner == w then 1 else 0)
  {
    if cs != [] {
      assert (cs + [c])[1..] == cs[1..] + [c];
      CountWinnerSnoc(cs[1..], c, w);
    }
  }

  /** `CountWinner` is the number of rows whose winner is exactly `w`. */
  lemma {:induction false} CountWinnerCountsRows(cs: seq<Comparison>, w: string)
    ensures CountWinner(cs, w) == |WinnerRows(cs, w)|
  {
    if cs == [] {
      assert WinnerRows(cs, w) == {};
    } else {
      var init, last := cs[..|cs| - 1], cs[|cs| - 1];
      assert cs == init + [last];
      CountWinnerSnoc(init, last, w);
      CountWinnerCountsRows(init, w);
      if last.winner == w {
        assert WinnerRows(cs, w) == WinnerRows(init, w) + {|init|};
        assert |init| !in WinnerRows(init, w);
      } else {
        assert WinnerRows(cs, w) == WinnerRows(init, w);
      }
    }
  }

  /** The truthy `modelARating`s, in row order. */
  function ARatings(cs: seq<Comparison>): (r: seq<int>)
    ensures |r| <= |cs|
    ensures forall x :: x in r ==> x != 0
  {
    if cs == [] then []
    else (if TruthyInt(cs[0].modelARating) then [cs[0].modelARating.value] else []) + ARatings(cs[1..])
  }

  /** The truthy `modelBRating`s, in row order. */
  function BRatings(cs: seq<Comparison>): (r: seq<int>)
    ensures |r| <= |cs|
    ensures forall x :: x in r ==> x != 0
  {
    if cs == [] then []
    else (if TruthyInt(cs[0].modelBRating) then [cs[0].modelBRating.value] else []) + BRatings(cs[1..])
  }

  /** `allRatings`: the truthy A ratings followed by the truthy B ratings. */
  function AllRatings(cs: seq<Comparison>): (r: seq<int>)
    ensures |r| <= 2 * |cs|
  {
    ARatings(cs) + BRatings(cs)
  }

  /** The pool holds exactly the truthy A ratings and the truthy B ratings of the comparisons. */
  lemma {:induction false} RatingsArePooled(cs: seq<Comparison>)
    ensures forall x :: x in ARatings(cs) <==> exists c :: c in cs && TruthyInt(c.modelARating) && c.modelARating.value == x
    ensures forall x :: x in BRatings(cs) <==> exists c :: c in cs && TruthyInt(c.modelBRating) && c.modelBRating.value == x
  {
    if cs != [] {
      RatingsArePooled(cs[1..]);
      assert forall c :: c in cs <==> c == cs[0] || c in cs[1..];
    }
  }

  /** `averageRating` is "0" exactly when no comparison has a truthy rating. */
  lemma NoAverageExactlyWhenUnrated(cs: seq<Comparison>)
    ensures AllRatings(cs) == [] <==> forall c :: c in cs ==> !TruthyInt(c.modelARating) && !TruthyInt(c.modelBRating)
    ensures StatsFor(cs).averageRating.NoRatings? <==>
              forall c :: c in cs ==> !TruthyInt(c.modelARating) && !TruthyInt(c.modelBRating)
  {
    RatingsArePooled(cs);
    if AllRatings(cs) != [] {
      var x := AllRatings(cs)[0];
      assert x in ARatings(cs) || x in BRatings(cs);
    }
    if exists c :: c in cs && (TruthyInt(c.modelARating) || TruthyInt(c.modelBRating)) {
      var c :| c in cs && (TruthyInt(c.modelARating) || TruthyInt(c.modelBRating));
      if TruthyInt(c.modelARating) {
        assert c.modelARating.value in ARatings(cs);
      } else {
        assert c.modelBRating.value in BRatings(cs);
      }
    }
  }

  function Sum(s: seq<int>): int
  {
    if s == [] then 0 else s[0] + Sum(s[1..])
  }

  /** `averageRating` for the pooled ratings. */
  function AverageOf(ratings: seq<int>): (r: AverageRating)
    ensures r.NoRatings? <==> ratings == []
    ensures r.Tenths? ==>
              var n, sum, t := |ratings|, Sum(ratings), r.tenths;
              && (sum >= 0 ==> 2 * n * t <= 20 * sum + n < 2 * n * (t + 1))
              && (sum < 0 ==> 2 * n * -t <= 20 * -sum + n < 2 * n * (-t + 1))
  {
    if |ratings| > 0 then Tenths(ToFixedTenths(Sum(ratings), |ratings|)) else NoRatings
  }

  /** The body of `GET /api/stats` for the user's comparisons. */
  function StatsFor(cs: seq<Comparison>): (r: ApiStats)
    ensures r.totalComparisons == |cs|
    ensures r.modelAWins == CountWinner(cs, ModelA) && r.modelBWins == CountWinner(cs, ModelB)
    ensures r.preferredModel == GPT4 <==> r.modelAWins > r.modelBWins
    ensures r.preferredModel == Claude <==> r.modelAWins <= r.modelBWins
    ensures r.avgResponseTime == AvgResponseTime
    ensures r.averageRating == AverageOf(AllRatings(cs))
  {
    var aWins, bWins := CountWinner(cs, ModelA), CountWinner(cs, ModelB);
    var average := AverageOf(AllRatings(cs));
    assert GPT4 != Claude by {
      assert |GPT4| != |Claude|;
    }
    ApiStats(|cs|, aWins, bWins, average, if aWins > bWins then GPT4 else Claude, AvgResponseTime)
  }

  /** `GET /api/stats` for the queried (or demo) user. */
  function GetStats(store: MemStore.MemStorage, userIdQuery: Option<string>): (resp: Response)
    reads store
    requires store.Valid()
    ensures resp.status == 200 && resp.body.StatsJson?
    ensures resp.body.stats == StatsFor(store.GetComparisonsByUser(UserIdOrDemo(userIdQuery)))
    ensures resp.body.stats.totalComparisons ==
              |set id | id in store.comparisons && store.comparisons[id].userId == UserIdOrDemo(userIdQuery)|
  {
    Response(200, StatsJson(StatsFor(store.GetComparisonsByUser(UserIdOrDemo(userIdQuery)))))
  }

  // ---- properties of the statistics ----

  /**
   * Wins are counted by exact winner string: together they never exceed the
   * total, and they reach it exactly when every winner is "modelA" or "modelB".
   */
  lemma {:induction false} WinsWithinTotal(cs: seq<Comparison>)
    ensures CountWinner(cs, ModelA) + CountWinner(cs, ModelB) <= |cs|
    ensures CountWinner(cs, ModelA) + CountWinner(cs, ModelB) == |cs| <==>
              forall c :: c in cs ==> c.winner == ModelA || c.winner == ModelB
  {
    assert ModelA != ModelB by {
      assert ModelA[5] != ModelB[5];
    }
    if cs != [] {
      WinsWithinTotal(cs[1..]);
      assert forall c :: c in cs <==> c == cs[0] || c in cs[1..];
    }
  }

  lemma {:induction false} RatingsSnoc(cs: seq<Comparison>, c: Comparison)
    ensures ARatings(cs + [c]) == ARatings(cs) + (if TruthyInt(c.modelARating) then [c.modelARating.value] else [])
    ensures BRatings(cs + [c]) == BRatings(cs) + (if TruthyInt(c.modelBRating) then [c.modelBRating.value] else [])
  {
    if cs != [] {
      assert (cs + [c])[1..] == cs[1..] + [c];
      RatingsSnoc(cs[1..], c);
    }
  }

  /**
   * Ratings that are `null` or zero are not pooled: a comparison with neither
   * rating leaves the average as it was, and still counts in the total.
   */
  lemma UnratedComparisonKeepsAverage(cs: seq<Comparison>, c: Comparison)
    requires !TruthyInt(c.modelARating) && !TruthyInt(c.modelBRating)
    ensures AllRatings(cs + [c]) == AllRatings(cs)
    ensures StatsFor(cs + [c]).averageRating == StatsFor(cs).averageRating
  {
    RatingsSnoc(cs, c);
  }

  /** One comparison with both ratings pooled averages them, rounded half away from zero. */
  lemma SingleComparisonAverage(c: Comparison)
    requires TruthyInt(c.modelARating) && TruthyInt(c.modelBRating)
    ensures AllRatings([c]) == [c.modelARating.value, c.modelBRating.value]
    ensures StatsFor([c]).averageRating == Tenths(ToFixedTenths(c.modelARating.value + c.modelBRating.value, 2))
  {
    assert [c][1..] == [];
    assert ARatings([c]) == [c.modelARating.value];
    assert BRatings([c]) == [c.modelBRating.value];
    var x, y := c.modelARating.value, c.modelBRating.value;
    assert [x, y][1..] == [y] && [y][1..] == [];
    assert Sum([y]) == y;
    assert Sum([x, y]) == x + y;
  }

  /**
   * The two aggregators break a tie the opposite way: with equal win counts
   * the storage statistics prefer "Response 1" (model A), while `/api/stats`
   * prefers "Claude" (model B).
   */
  lemma TieRulesDisagree(t: GradeStats.Totals, cs: seq<Comparison>)
    requires t.aWins == t.bWins
    requires CountWinner(cs, ModelA) == CountWinner(cs, ModelB)
    ensures GradeStats.Summarize(t).preferredModel == Response1
    ensures StatsFor(cs).preferredModel == Claude
  {
  }
}
