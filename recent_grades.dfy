/**
 * `PostgreSQLStorage.getRecentGradesByUser`: this grader's most recently graded
 * sessions, newest first, each summarised as a completed A/B comparison.
 *
 * The first query (`GROUP BY gradingSessionId ORDER BY MAX(gradedAt) DESC
 * LIMIT n`) becomes the function `UniqueSessions`; the loop that reloads each
 * session and pushes its summary is kept as a loop.
 */
module RecentGrades {
  import opened Records
  import GradeStats

  // ---- the grouping query ----

  /** One row of the grouping query. The `null` and `""` session ids are groups of their own. */
  datatype SessionLatest = SessionLatest(sessionId: Option<string>, maxGradedAt: int)

  /** The `GROUP BY` keys, each once, in order of first appearance. */
  function GroupKeys(rows: seq<HumanGrade>): (r: seq<Option<string>>)
    ensures forall i, j :: 0 <= i < j < |r| ==> r[i] != r[j]
    ensures forall k :: k in r ==> exists g :: g in rows && g.gradingSessionId == k
    ensures forall g :: g in rows ==> g.gradingSessionId in r
  {
    if rows == [] then []
    else
      var p := GroupKeys(rows[..|rows| - 1]);
      var k := rows[|rows| - 1].gradingSessionId;
      assert rows == rows[..|rows| - 1] + [rows[|rows| - 1]];
      if k !in p then p + [k] else p
  }

  /** The `gradedAt` of every row in the group `k`. */
  function Stamps(rows: seq<HumanGrade>, k: Option<string>): (r: seq<int>)
    ensures forall g :: g in rows && g.gradingSessionId == k ==> g.gradedAt in r
    ensures forall t :: t in r ==> exists g :: g in rows && g.gradingSessionId == k && g.gradedAt == t
  {
    if rows == [] then []
    else
      var rest := Stamps(rows[1..], k);
      assert forall g :: g in rows ==> g == rows[0] || g in rows[1..];
      if rows[0].gradingSessionId == k then [rows[0].gradedAt] + rest else rest
  }

  function MaxOf(s: seq<int>): (m: int)
    requires s != []
    ensures m in s && forall t :: t in s ==> t <= m
  {
    if |s| == 1 then s[0]
    else
      var m' := MaxOf(s[1..]);
      assert forall t :: t in s ==> t == s[0] || t in s[1..];
      if s[0] >= m' then s[0] else m'
  }

  /** `x` is the row of the grouping query for its group: `maxGradedAt` is the latest `gradedAt` in it. */
  ghost predicate LatestOfGroup(rows: seq<HumanGrade>, x: SessionLatest)
  {
    && (exists g :: g in rows && g.gradingSessionId == x.sessionId && g.gradedAt == x.maxGradedAt)
    && (forall g :: g in rows && g.gradingSessionId == x.sessionId ==> g.gradedAt <= x.maxGradedAt)
  }

  /** The grouping query's row for the group `k`, which has at least one row. */
  function LatestOf(rows: seq<HumanGrade>, k: Option<string>): (x: SessionLatest)
    requires exists g :: g in rows && g.gradingSessionId == k
    ensures x.sessionId == k && LatestOfGroup(rows, x)
  {
    var stamps := Stamps(rows, k);
    assert stamps != [] by {
      var g :| g in rows && g.gradingSessionId == k;
      assert g.gradedAt in stamps;
    }
    SessionLatest(k, MaxOf(stamps))
  }

  /** `SELECT gradingSessionId, MAX(gradedAt)` for the groups `ks`. */
  function Latest(rows: seq<HumanGrade>, ks: seq<Option<string>>): (r: seq<SessionLatest>)
    requires forall k :: k in ks ==> exists g :: g in rows && g.gradingSessionId == k
    ensures |r| == |ks|
    ensures forall i :: 0 <= i < |r| ==> r[i].sessionId == ks[i] && LatestOfGroup(rows, r[i])
  {
    if ks == [] then []
    else
      assert ks[0] in ks;
      assert forall k :: k in ks[1..] ==> k in ks;
      [LatestOf(rows, ks[0])] + Latest(rows, ks[1..])
  }

  /** Newest first: every entry's `maxGradedAt` is at least that of every later entry. */
  ghost predicate NewestFirst(s: seq<SessionLatest>)
  {
    forall i, j :: 0 <= i < j < |s| ==> s[i].maxGradedAt >= s[j].maxGradedAt
  }

  ghost predicate DistinctSessions(s: seq<SessionLatest>)
  {
    forall i, j :: 0 <= i < j < |s| ==> s[i].sessionId != s[j].sessionId
  }

  /** A sequence headed by `a` is newest first when `a` is at least as new as the rest and the rest is newest first. */
  lemma NewestFirstCons(a: SessionLatest, rest: seq<SessionLatest>)
    requires NewestFirst(rest)
    requires forall y :: y in rest ==> y.maxGradedAt <= a.maxGradedAt
    ensures NewestFirst([a] + rest)
  {
    var s := [a] + rest;
    forall i, j | 0 <= i < j < |s| ensures s[i].maxGradedAt >= s[j].maxGradedAt {
      assert s[j] == rest[j - 1];
      if i > 0 {
        assert s[i] == rest[i - 1];
      } else {
        assert rest[j - 1] in rest;
      }
    }
  }

  /** Every later entry of a newest-first sequence is at most as new as its head. */
  lemma NewestFirstHead(s: seq<SessionLatest>)
    requires NewestFirst(s) && s != []
    ensures NewestFirst(s[1..])
    ensures forall y :: y in s ==> y.maxGradedAt <= s[0].maxGradedAt
  {
    forall y | y in s ensures y.maxGradedAt <= s[0].maxGradedAt {
      var j :| 0 <= j < |s| && s[j] == y;
    }
  }

  /** Put `x` before the first entry that is not newer than it. */
  function Insert(x: SessionLatest, s: seq<SessionLatest>): (r: seq<SessionLatest>)
    ensures |r| == |s| + 1
    ensures forall y :: y in r <==> y == x || y in s
    ensures multiset(r) == multiset(s) + multiset{x}
  {
    if s == [] || s[0].maxGradedAt <= x.maxGradedAt then [x] + s
    else
      assert s == [s[0]] + s[1..];
      [s[0]] + Insert(x, s[1..])
  }

  lemma {:induction false} InsertKeepsNewestFirst(x: SessionLatest, s: seq<SessionLatest>)
    requires NewestFirst(s)
    ensures NewestFirst(Insert(x, s))
  {
    if s == [] {
      NewestFirstCons(x, s);
    } else {
      NewestFirstHead(s);
      if s[0].maxGradedAt <= x.maxGradedAt {
        NewestFirstCons(x, s);
      } else {
        InsertKeepsNewestFirst(x, s[1..]);
        NewestFirstCons(s[0], Insert(x, s[1..]));
      }
    }
  }

  /** A head whose session is not among the rest keeps a distinct sequence distinct. */
  lemma DistinctCons(a: SessionLatest, rest: seq<SessionLatest>)
    requires DistinctSessions(rest)
    requires forall y :: y in rest ==> y.sessionId != a.sessionId
    ensures DistinctSessions([a] + rest)
  {
    var s := [a] + rest;
    forall i, j | 0 <= i < j < |s| ensures s[i].sessionId != s[j].sessionId {
      assert s[j] == rest[j - 1];
      if i > 0 {
        assert s[i] == rest[i - 1];
      } else {
        assert rest[j - 1] in rest;
      }
    }
  }

  lemma DistinctTail(s: seq<SessionLatest>)
    requires DistinctSessions(s) && s != []
    ensures DistinctSessions(s[1..])
    ensures forall y :: y in s[1..] ==> y.sessionId != s[0].sessionId
  {
    forall y | y in s[1..] ensures y.sessionId != s[0].sessionId {
      var j :| 0 <= j < |s[1..]| && s[1..][j] == y;
      assert s[j + 1] == y;
    }
  }

  lemma {:induction false} InsertKeepsDistinct(x: SessionLatest, s: seq<SessionLatest>)
    requires DistinctSessions(s)
    requires forall y :: y in s ==> y.sessionId != x.sessionId
    ensures DistinctSessions(Insert(x, s))
  {
    if s == [] || s[0].maxGradedAt <= x.maxGradedAt {
      DistinctCons(x, s);
    } else {
      DistinctTail(s);
      assert s[0] in s;
      InsertKeepsDistinct(x, s[1..]);
      DistinctCons(s[0], Insert(x, s[1..]));
    }
  }

  /**
   * `ORDER BY MAX(gradedAt) DESC`. SQL leaves the order of ties open; this
   * insertion sort keeps tied groups in order of first appearance.
   */
  function SortNewestFirst(s: seq<SessionLatest>): (r: seq<SessionLatest>)
    ensures |r| == |s|
    ensures forall y :: y in r <==> y in s
    ensures multiset(r) == multiset(s)
  {
    if s == [] then []
    else
      assert s == [s[0]] + s[1..];
      Insert(s[0], SortNewestFirst(s[1..]))
  }

  lemma {:induction false} SortIsNewestFirst(s: seq<SessionLatest>)
    ensures NewestFirst(SortNewestFirst(s))
  {
    if s != [] {
      SortIsNewestFirst(s[1..]);
      InsertKeepsNewestFirst(s[0], SortNewestFirst(s[1..]));
    }
  }

  lemma {:induction false} SortKeepsDistinct(s: seq<SessionLatest>)
    requires DistinctSessions(s)
    ensures DistinctSessions(SortNewestFirst(s))
  {
    if s != [] {
      DistinctTail(s);
      SortKeepsDistinct(s[1..]);
      InsertKeepsDistinct(s[0], SortNewestFirst(s[1..]));
    }
  }

  const DefaultLimit: nat := 10

  /** The grouping query before `LIMIT`: every group of this grader's rows with its latest grade, newest first. */
  function AllSessions(rows: seq<HumanGrade>, graderId: string): (r: seq<SessionLatest>)
  {
    var mine := GradeStats.GraderRows(rows, graderId);
    SortNewestFirst(Latest(mine, GroupKeys(mine)))
  }

  /** The grouping query: the first `limit` rows of `AllSessions`. */
  function UniqueSessions(rows: seq<HumanGrade>, graderId: string, limit: nat): (r: seq<SessionLatest>)
    ensures |r| <= limit
    ensures |r| <= |AllSessions(rows, graderId)|
    ensures r == AllSessions(rows, graderId)[..|r|]
    ensures |r| == if |AllSessions(rows, graderId)| <= limit then |AllSessions(rows, graderId)| else limit
  {
    var sorted := AllSessions(rows, graderId);
    if |sorted| <= limit then sorted else sorted[..limit]
  }

  /** The grouping rows before sorting have distinct session ids: `GroupKeys` lists each key once. */
  lemma LatestIsDistinct(mine: seq<HumanGrade>)
    ensures DistinctSessions(Latest(mine, GroupKeys(mine)))
  {
    var keys := GroupKeys(mine);
    var latest := Latest(mine, keys);
    forall i, j | 0 <= i < j < |latest| ensures latest[i].sessionId != latest[j].sessionId {
      assert latest[i].sessionId == keys[i] && latest[j].sessionId == keys[j];
    }
  }

  /** The grouping query lists each session once, newest first. */
  lemma UniqueSessionsNewestFirst(rows: seq<HumanGrade>, graderId: string, limit: nat)
    ensures NewestFirst(UniqueSessions(rows, graderId, limit))
    ensures DistinctSessions(UniqueSessions(rows, graderId, limit))
  {
    var mine := GradeStats.GraderRows(rows, graderId);
    var latest := Latest(mine, GroupKeys(mine));
    LatestIsDistinct(mine);
    SortIsNewestFirst(latest);
    SortKeepsDistinct(latest);
  }

  /** Each listed session is one this grader graded, with the latest `gradedAt` among this grader's rows in it. */
  lemma UniqueSessionsAreTheGradersGroups(rows: seq<HumanGrade>, graderId: string, limit: nat)
    ensures forall x :: x in UniqueSessions(rows, graderId, limit) ==>
              LatestOfGroup(GradeStats.GraderRows(rows, graderId), x)
  {
    var mine := GradeStats.GraderRows(rows, graderId);
    var latest := Latest(mine, GroupKeys(mine));
    var r := UniqueSessions(rows, graderId, limit);
    assert forall x :: x in r ==> x in latest;
    forall x | x in r ensures LatestOfGroup(mine, x) {
      var i :| 0 <= i < |latest| && latest[i] == x;
    }
  }

  /** When there are at most `limit` groups, every session this grader graded (the `null` group included) is listed. */
  lemma UniqueSessionsMissNoGroup(rows: seq<HumanGrade>, graderId: string, limit: nat, g: HumanGrade)
    requires g in rows && g.graderId == graderId
    requires |AllSessions(rows, graderId)| <= limit
    ensures exists x :: x in UniqueSessions(rows, graderId, limit) && x.sessionId == g.gradingSessionId
  {
    var mine := GradeStats.GraderRows(rows, graderId);
    var keys := GroupKeys(mine);
    var latest := Latest(mine, keys);
    assert g in mine;
    var i :| 0 <= i < |keys| && keys[i] == g.gradingSessionId;
    assert latest[i] in AllSessions(rows, graderId);
  }

  // ---- one session's summary ----

  /** One element of the result array. */
  datatype RecentGrade = RecentGrade(
    id: string,
    testCaseId: string,
    caseName: string,
    winner: string,
    modelARating: Option<int>,
    modelBRating: Option<int>,
    modelAComment: Option<string>,
    modelBComment: Option<string>,
    gradedAt: int,
    createdAt: int)

  const UnknownCase: string := "Unknown"

  /** The reload `WHERE gradingSessionId = sid`: every grader's rows, not only this grader's. */
  function SessionRows(rows: seq<HumanGrade>, sid: string): (r: seq<HumanGrade>)
    ensures |r| <= |rows|
    ensures forall g :: g in r <==> g in rows && g.gradingSessionId == Some(sid)
  {
    if rows == [] then []
    else
      var rest := SessionRows(rows[1..], sid);
      assert forall g :: g in rows <==> g == rows[0] || g in rows[1..];
      if rows[0].gradingSessionId == Some(sid) then [rows[0]] + rest else rest
  }

  /** The reload keeps every row of the session as often as the snapshot holds it, and no other row. */
  lemma {:induction false} SessionRowsCount(rows: seq<HumanGrade>, sid: string)
    ensures forall g :: multiset(SessionRows(rows, sid))[g] ==
                        if g.gradingSessionId == Some(sid) then multiset(rows)[g] else 0
  {
    if rows != [] {
      SessionRowsCount(rows[1..], sid);
      assert rows == [rows[0]] + rows[1..];
    }
  }

  /** `sessionGrades.find(g => g.gradingCriteria?.responseName === name)`. */
  function FindByName(grades: seq<HumanGrade>, name: string): (r: Option<HumanGrade>)
    ensures r.Some? ==> r.value in grades && r.value.responseName == Some(name)
    ensures r.None? <==> forall g :: g in grades ==> g.responseName != Some(name)
    ensures r.Some? ==> exists i :: 0 <= i < |grades| && grades[i] == r.value &&
                                    forall j :: 0 <= j < i ==> grades[j].responseName != Some(name)
  {
    if grades == [] then None
    else if grades[0].responseName == Some(name) then Some(grades[0])
    else
      var r := FindByName(grades[1..], name);
      assert r.Some? ==> exists i :: 0 < i < |grades| && grades[i] == r.value &&
                                     forall j :: 0 <= j < i ==> grades[j].responseName != Some(name) by {
        if r.Some? {
          var i :| 0 <= i < |grades[1..]| && grades[1..][i] == r.value &&
                   forall j :: 0 <= j < i ==> grades[1..][j].responseName != Some(name);
          assert forall j :: 0 < j < i + 1 ==> grades[j] == grades[1..][j - 1];
        }
      }
      r
  }

  /** `grade?.score || 0` */
  function ScoreOrZero(g: Option<HumanGrade>): (r: int)
    ensures g.None? ==> r == 0
    ensures g.Some? ==> r == g.value.score
  {
    if g.Some? then g.value.score else 0
  }

  /** `grade?.score || null`: a zero score is reported as `null`. */
  function ScoreOrNull(g: Option<HumanGrade>): (r: Option<int>)
    ensures r.None? <==> g.None? || g.value.score == 0
    ensures r.Some? ==> r.value == g.value.score
  {
    if g.Some? && g.value.score != 0 then Some(g.value.score) else None
  }

  /** `grade?.feedback || null`: missing and empty feedback are reported as `null`. */
  function FeedbackOrNull(g: Option<HumanGrade>): (r: Option<string>)
    ensures r.None? <==> g.None? || !TruthyString(g.value.feedback)
    ensures r.Some? ==> r == g.value.feedback
  {
    if g.Some? && TruthyString(g.value.feedback) then g.value.feedback else None
  }

  /** `testCase[0]?.caseName || "Unknown"` */
  function CaseName(caseNames: map<string, string>, testCaseId: string): (r: string)
    ensures testCaseId !in caseNames || caseNames[testCaseId] == "" ==> r == UnknownCase
    ensures testCaseId in caseNames && caseNames[testCaseId] != "" ==> r == caseNames[testCaseId]
  {
    if testCaseId in caseNames && caseNames[testCaseId] != "" then caseNames[testCaseId] else UnknownCase
  }

  /** The "modelA" / "modelB" tag; equal scores go to model A. */
  function Winner(score1: int, score2: int): (w: string)
    ensures w == ModelA <==> score1 >= score2
    ensures w == ModelB <==> score1 < score2
  {
    if score1 >= score2 then ModelA else ModelB
  }

  /**
   * The body of the loop for one grouping row: skipped when the session id is
   * falsy, when the reload does not give exactly two rows, or when the first
   * reloaded row's response is missing.
   */
  function Summary(snap: Snapshot, s: SessionLatest): (r: Option<RecentGrade>)
    ensures r.Some? <==> && TruthyString(s.sessionId)
                         && |SessionRows(snap.grades, s.sessionId.value)| == 2
                         && SessionRows(snap.grades, s.sessionId.value)[0].responseId in snap.responseTestCase
    ensures r.Some? ==> r.value.id == s.sessionId.value
    ensures r.Some? ==> r.value.gradedAt == s.maxGradedAt && r.value.createdAt == s.maxGradedAt
    ensures r.Some? ==>
              var rows := SessionRows(snap.grades, s.sessionId.value);
              var testCaseId := snap.responseTestCase[rows[0].responseId];
              var grade1, grade2 := FindByName(rows, Response1), FindByName(rows, Response2);
              && r.value.testCaseId == testCaseId
              && r.value.caseName == CaseName(snap.caseNames, testCaseId)
              && r.value.winner == Winner(ScoreOrZero(grade1), ScoreOrZero(grade2))
              && r.value.modelARating == ScoreOrNull(grade1) && r.value.modelBRating == ScoreOrNull(grade2)
              && r.value.modelAComment == FeedbackOrNull(grade1) && r.value.modelBComment == FeedbackOrNull(grade2)
  {
    if !TruthyString(s.sessionId) then None
    else
      var sessionGrades := SessionRows(snap.grades, s.sessionId.value);
      if |sessionGrades| != 2 || sessionGrades[0].responseId !in snap.responseTestCase then None
      else
        var testCaseId := snap.responseTestCase[sessionGrades[0].responseId];
        var response1Grade := FindByName(sessionGrades, Response1);
        var response2Grade := FindByName(sessionGrades, Response2);
        Some(RecentGrade(
          s.sessionId.value,
          testCaseId,
          CaseName(snap.caseNames, testCaseId),
          Winner(ScoreOrZero(response1Grade), ScoreOrZero(response2Grade)),
          ScoreOrNull(response1Grade),
          ScoreOrNull(response2Grade),
          FeedbackOrNull(response1Grade),
          FeedbackOrNull(response2Grade),
          s.maxGradedAt,
          s.maxGradedAt))
  }

  /** The results pushed after the grouping rows `sessions`, in order. */
  function Emit(snap: Snapshot, sessions: seq<SessionLatest>): (r: seq<RecentGrade>)
    ensures |r| <= |sessions|
    ensures forall x :: x in r ==> exists i :: 0 <= i < |sessions| && Summary(snap, sessions[i]) == Some(x)
  {
    if sessions == [] then []
    else
      var init := sessions[..|sessions| - 1];
      var rest := Emit(snap, init);
      assert forall i :: 0 <= i < |init| ==> init[i] == sessions[i];
      match Summary(snap, sessions[|sessions| - 1])
      case Some(x) => rest + [x]
      case None => rest
  }

  lemma EmitSnoc(snap: Snapshot, sessions: seq<SessionLatest>, s: SessionLatest)
    ensures Emit(snap, sessions + [s]) ==
            Emit(snap, sessions) + (if Summary(snap, s).Some? then [Summary(snap, s).value] else [])
  {
    assert (sessions + [s])[..|sessions|] == sessions;
  }

  /** One more loop iteration: the prefix of `sessions` grows by `sessions[i]`. */
  lemma EmitPrefix(snap: Snapshot, sessions: seq<SessionLatest>, i: nat)
    requires i < |sessions|
    ensures Emit(snap, sessions[..i + 1]) ==
            Emit(snap, sessions[..i]) + (if Summary(snap, sessions[i]).Some? then [Summary(snap, sessions[i]).value] else [])
  {
    assert sessions[..i + 1] == sessions[..i] + [sessions[i]];
    EmitSnoc(snap, sessions[..i], sessions[i]);
  }

  /** Every summary the loop produces is pushed. */
  lemma {:induction false} EmitKeepsEverySummary(snap: Snapshot, sessions: seq<SessionLatest>, i: nat)
    requires i < |sessions| && Summary(snap, sessions[i]).Some?
    ensures Summary(snap, sessions[i]).value in Emit(snap, sessions)
  {
    var n := |sessions| - 1;
    assert sessions == sessions[..n] + [sessions[n]];
    EmitSnoc(snap, sessions[..n], sessions[n]);
    if i < n {
      EmitKeepsEverySummary(snap, sessions[..n], i);
    }
  }

  ghost predicate DistinctIds(r: seq<RecentGrade>)
  {
    forall i, j :: 0 <= i < j < |r| ==> r[i].id != r[j].id
  }

  ghost predicate NewestGradedFirst(r: seq<RecentGrade>)
  {
    forall i, j :: 0 <= i < j < |r| ==> r[i].gradedAt >= r[j].gradedAt
  }

  lemma DistinctIdsSnoc(rest: seq<RecentGrade>, x: RecentGrade)
    requires DistinctIds(rest)
    requires forall y :: y in rest ==> y.id != x.id
    ensures DistinctIds(rest + [x])
  {
    var r := rest + [x];
    forall i, j | 0 <= i < j < |r| ensures r[i].id != r[j].id {
      if j == |rest| {
        assert r[i] in rest;
      }
    }
  }

  lemma NewestGradedFirstSnoc(rest: seq<RecentGrade>, x: RecentGrade)
    requires NewestGradedFirst(rest)
    requires forall y :: y in rest ==> y.gradedAt >= x.gradedAt
    ensures NewestGradedFirst(rest + [x])
  {
    var r := rest + [x];
    forall i, j | 0 <= i < j < |r| ensures r[i].gradedAt >= r[j].gradedAt {
      if j == |rest| {
        assert r[i] in rest;
      }
    }
  }

  /** A result pushed for an earlier grouping row has another id and is at least as new as the last row's. */
  lemma EarlierResults(snap: Snapshot, sessions: seq<SessionLatest>, x: RecentGrade)
    requires sessions != []
    requires Summary(snap, sessions[|sessions| - 1]) == Some(x)
    ensures DistinctSessions(sessions) ==>
              forall y :: y in Emit(snap, sessions[..|sessions| - 1]) ==> y.id != x.id
    ensures NewestFirst(sessions) ==>
              forall y :: y in Emit(snap, sessions[..|sessions| - 1]) ==> y.gradedAt >= x.gradedAt
  {
    var n := |sessions| - 1;
    forall y | y in Emit(snap, sessions[..n])
      ensures DistinctSessions(sessions) ==> y.id != x.id
      ensures NewestFirst(sessions) ==> y.gradedAt >= x.gradedAt
    {
      var i :| 0 <= i < n && Summary(snap, sessions[..n][i]) == Some(y);
      assert sessions[..n][i] == sessions[i];
    }
  }

  /** Distinct grouping rows give results with distinct ids. */
  lemma {:induction false} EmitKeepsIdsDistinct(snap: Snapshot, sessions: seq<SessionLatest>)
    requires DistinctSessions(sessions)
    ensures DistinctIds(Emit(snap, sessions))
  {
    if sessions != [] {
      var n := |sessions| - 1;
      var init, last := sessions[..n], sessions[n];
      assert sessions == init + [last];
      assert DistinctSessions(init);
      EmitKeepsIdsDistinct(snap, init);
      EmitSnoc(snap, init, last);
      if Summary(snap, last).Some? {
        EarlierResults(snap, sessions, Summary(snap, last).value);
        DistinctIdsSnoc(Emit(snap, init), Summary(snap, last).value);
      }
    }
  }

  /** Newest-first grouping rows give newest-first results. */
  lemma {:induction false} EmitKeepsNewestFirst(snap: Snapshot, sessions: seq<SessionLatest>)
    requires NewestFirst(sessions)
    ensures NewestGradedFirst(Emit(snap, sessions))
  {
    if sessions != [] {
      var n := |sessions| - 1;
      var init, last := sessions[..n], sessions[n];
      assert sessions == init + [last];
      assert NewestFirst(init);
      EmitKeepsNewestFirst(snap, init);
      EmitSnoc(snap, init, last);
      if Summary(snap, last).Some? {
        EarlierResults(snap, sessions, Summary(snap, last).value);
        NewestGradedFirstSnoc(Emit(snap, init), Summary(snap, last).value);
      }
    }
  }

  function Recent(snap: Snapshot, graderId: string, limit: nat): seq<RecentGrade>
  {
    Emit(snap, UniqueSessions(snap.grades, graderId, limit))
  }

  /** `limit = 10` when the caller passes none. */
  function LimitOrDefault(limit: Option<nat>): (n: nat)
    ensures limit.None? ==> n == DefaultLimit
    ensures limit.Some? ==> n == limit.value
  {
    if limit.Some? then limit.value else DefaultLimit
  }

  /**
   * The body of the loop for one grouping row, statement by statement. Its
   * definition is the function `Summary`, which the properties below are about.
   */
  method SummarizeSession(snap: Snapshot, session: SessionLatest) returns (grade: Option<RecentGrade>)
    ensures grade == Summary(snap, session)
  {
    if !TruthyString(session.sessionId) {
      return None;
    }
    var sessionGrades := SessionRows(snap.grades, session.sessionId.value);
    if |sessionGrades| != 2 || sessionGrades[0].responseId !in snap.responseTestCase {
      return None;
    }
    var testCaseId := snap.responseTestCase[sessionGrades[0].responseId];
    var response1Grade := FindByName(sessionGrades, Response1);
    var response2Grade := FindByName(sessionGrades, Response2);
    var winner := Winner(ScoreOrZero(response1Grade), ScoreOrZero(response2Grade));
    grade := Some(RecentGrade(
      session.sessionId.value,
      testCaseId,
      CaseName(snap.caseNames, testCaseId),
      winner,
      ScoreOrNull(response1Grade),
      ScoreOrNull(response2Grade),
      FeedbackOrNull(response1Grade),
      FeedbackOrNull(response2Grade),
      session.maxGradedAt,
      session.maxGradedAt));
  }

  /** `getRecentGradesByUser(graderId, limit)` over the snapshot `snap`. */
  method GetRecentGradesByUser(snap: Snapshot, graderId: string, limit: Option<nat>) returns (results: seq<RecentGrade>)
    ensures results == Recent(snap, graderId, LimitOrDefault(limit))
    ensures |results| <= LimitOrDefault(limit)
  {
    var uniqueSessions := UniqueSessions(snap.grades, graderId, LimitOrDefault(limit));
    results := [];
    for i := 0 to |uniqueSessions|
      invariant results == Emit(snap, uniqueSessions[..i])
    {
      var session := uniqueSessions[i];
      EmitPrefix(snap, uniqueSessions, i);
      var grade := SummarizeSession(snap, session);
      if grade.Some? {
        results := results + [grade.value];
      }
    }
    assert uniqueSessions[..|uniqueSessions|] == uniqueSessions;
  }

  // ---- properties of the result ----

  /**
   * At most `limit` results, distinct session ids, newest first, and each one
   * a session this grader graded, dated by this grader's latest grade in it.
   */
  lemma RecentGradesAreTheGradersLatest(snap: Snapshot, graderId: string, limit: nat)
    ensures |Recent(snap, graderId, limit)| <= limit
    ensures DistinctIds(Recent(snap, graderId, limit))
    ensures NewestGradedFirst(Recent(snap, graderId, limit))
    ensures forall x :: x in Recent(snap, graderId, limit) ==>
              && x.createdAt == x.gradedAt
              && (exists g :: g in snap.grades && g.graderId == graderId
                              && g.gradingSessionId == Some(x.id) && g.gradedAt == x.gradedAt)
              && (forall g :: g in snap.grades && g.graderId == graderId && g.gradingSessionId == Some(x.id) ==>
                                g.gradedAt <= x.gradedAt)
  {
    var sessions := UniqueSessions(snap.grades, graderId, limit);
    var mine := GradeStats.GraderRows(snap.grades, graderId);
    UniqueSessionsNewestFirst(snap.grades, graderId, limit);
    UniqueSessionsAreTheGradersGroups(snap.grades, graderId, limit);
    EmitKeepsIdsDistinct(snap, sessions);
    EmitKeepsNewestFirst(snap, sessions);
    forall x | x in Recent(snap, graderId, limit)
      ensures x.createdAt == x.gradedAt
      ensures exists g :: g in snap.grades && g.graderId == graderId
                          && g.gradingSessionId == Some(x.id) && g.gradedAt == x.gradedAt
      ensures forall g :: g in snap.grades && g.graderId == graderId && g.gradingSessionId == Some(x.id) ==>
                            g.gradedAt <= x.gradedAt
    {
      var i :| 0 <= i < |sessions| && Summary(snap, sessions[i]) == Some(x);
      assert sessions[i] in sessions;
      assert LatestOfGroup(mine, sessions[i]);
    }
  }

  /**
   * When this grader has at most `limit` sessions, every one of them whose
   * reload has exactly two rows and whose first row's response is known is
   * reported.
   */
  lemma RecentGradesMissNoCompletedSession(snap: Snapshot, graderId: string, limit: nat, g: HumanGrade)
    requires g in snap.grades && g.graderId == graderId && TruthyString(g.gradingSessionId)
    requires |AllSessions(snap.grades, graderId)| <= limit
    requires |SessionRows(snap.grades, g.gradingSessionId.value)| == 2
    requires SessionRows(snap.grades, g.gradingSessionId.value)[0].responseId in snap.responseTestCase
    ensures exists x :: x in Recent(snap, graderId, limit) && x.id == g.gradingSessionId.value
  {
    var sessions := UniqueSessions(snap.grades, graderId, limit);
    UniqueSessionsMissNoGroup(snap.grades, graderId, limit, g);
    var i :| 0 <= i < |sessions| && sessions[i].sessionId == g.gradingSessionId;
    SummaryIsReported(snap, sessions, i);
  }

  /** A grouping row whose summary exists has it among the results, under its own id. */
  lemma SummaryIsReported(snap: Snapshot, sessions: seq<SessionLatest>, i: nat)
    requires i < |sessions| && TruthyString(sessions[i].sessionId)
    requires |SessionRows(snap.grades, sessions[i].sessionId.value)| == 2
    requires SessionRows(snap.grades, sessions[i].sessionId.value)[0].responseId in snap.responseTestCase
    ensures exists x :: x in Emit(snap, sessions) && x.id == sessions[i].sessionId.value
  {
    EmitKeepsEverySummary(snap, sessions, i);
  }

  /**
   * Whatever the number of groups, the `limit` newest are looked at: the
   * summary of each of them, when there is one, is reported.
   */
  lemma RecentGradesCoverTheNewestSessions(snap: Snapshot, graderId: string, limit: nat, i: nat)
    requires i < limit && i < |AllSessions(snap.grades, graderId)|
    requires Summary(snap, AllSessions(snap.grades, graderId)[i]).Some?
    ensures Summary(snap, AllSessions(snap.grades, graderId)[i]).value in Recent(snap, graderId, limit)
  {
    var sessions := UniqueSessions(snap.grades, graderId, limit);
    assert sessions[i] == AllSessions(snap.grades, graderId)[i];
    EmitKeepsEverySummary(snap, sessions, i);
  }

  /** The reload of a session that a single row of the snapshot carries is that row alone. */
  lemma LoneRowReload(rows: seq<HumanGrade>, g: HumanGrade)
    requires g.gradingSessionId.Some? && multiset(rows)[g] == 1
    requires forall h :: h in rows && h.gradingSessionId == g.gradingSessionId ==> h == g
    ensures |SessionRows(rows, g.gradingSessionId.value)| == 1
  {
    var r := SessionRows(rows, g.gradingSessionId.value);
    SessionRowsCount(rows, g.gradingSessionId.value);
    forall h ensures multiset(r)[h] == multiset{g}[h] {
      if h != g && h.gradingSessionId == g.gradingSessionId {
        assert h !in rows;
      }
    }
    assert multiset(r) == multiset{g};
    assert |r| == |multiset(r)|;
  }

  /** A session with only one grade in the snapshot is never reported. */
  lemma LoneGradeIsNotReported(snap: Snapshot, graderId: string, limit: nat, g: HumanGrade)
    requires TruthyString(g.gradingSessionId) && multiset(snap.grades)[g] == 1
    requires forall h :: h in snap.grades && h.gradingSessionId == g.gradingSessionId ==> h == g
    ensures forall x :: x in Recent(snap, graderId, limit) ==> x.id != g.gradingSessionId.value
  {
    var sessions := UniqueSessions(snap.grades, graderId, limit);
    LoneRowReload(snap.grades, g);
    forall x | x in Recent(snap, graderId, limit) ensures x.id != g.gradingSessionId.value {
      var i :| 0 <= i < |sessions| && Summary(snap, sessions[i]) == Some(x);
    }
  }

  /**
   * A session whose two rows are labelled "Response 1" and "Response 2" is
   * reported with model A winning exactly when its score is at least model
   * B's, and each rating is the score unless that score is zero.
   */
  lemma WellLabelledPairIsReported(snap: Snapshot, s: SessionLatest, r1: HumanGrade, r2: HumanGrade)
    requires TruthyString(s.sessionId)
    requires SessionRows(snap.grades, s.sessionId.value) in {[r1, r2], [r2, r1]}
    requires r1.responseName == Some(Response1) && r2.responseName == Some(Response2)
    requires SessionRows(snap.grades, s.sessionId.value)[0].responseId in snap.responseTestCase
    ensures Summary(snap, s).Some?
    ensures Summary(snap, s).value.winner == ModelA <==> r1.score >= r2.score
    ensures Summary(snap, s).value.winner == ModelB <==> r1.score < r2.score
    ensures Summary(snap, s).value.modelARating == (if r1.score == 0 then None else Some(r1.score))
    ensures Summary(snap, s).value.modelBRating == (if r2.score == 0 then None else Some(r2.score))
  {
    var rows := SessionRows(snap.grades, s.sessionId.value);
    assert Response1 != Response2 by {
      assert Response1[9] != Response2[9];
    }
    if rows == [r1, r2] {
      assert FindByName(rows, Response1) == Some(r1);
      assert FindByName(rows, Response2) == Some(r2);
    } else {
      assert FindByName(rows, Response1) == Some(r1);
      assert FindByName(rows, Response2) == Some(r2);
    }
  }

  /**
   * Unlike the statistics, which count such a session without a winner, a
   * session whose two rows are both labelled "Response 1" is still reported:
   * model B's rating and comment are `null`, and its missing score counts as
   * zero when the winner is chosen.
   */
  lemma MislabelledPairIsReported(snap: Snapshot, s: SessionLatest, r1: HumanGrade, r2: HumanGrade)
    requires TruthyString(s.sessionId)
    requires SessionRows(snap.grades, s.sessionId.value) == [r1, r2]
    requires r1.responseName == Some(Response1) && r2.responseName == Some(Response1)
    requires r1.responseId in snap.responseTestCase
    ensures Summary(snap, s).Some?
    ensures Summary(snap, s).value.winner == ModelA <==> r1.score >= 0
    ensures Summary(snap, s).value.modelBRating.None? && Summary(snap, s).value.modelBComment.None?
  {
    var rows := SessionRows(snap.grades, s.sessionId.value);
    assert Response1 != Response2 by {
      assert Response1[9] != Response2[9];
    }
    assert FindByName(rows, Response1) == Some(r1);
    assert FindByName(rows, Response2) == None;
  }

  /**
   * The reload is not restricted to this grader: a session that another
   * grader also graded has three rows and is dropped, although this grader's
   * own two rows form a complete comparison.
   */
  lemma SharedSessionIsDropped(snap: Snapshot, s: SessionLatest, a: HumanGrade, b: HumanGrade, c: HumanGrade)
    requires TruthyString(s.sessionId)
    requires snap.grades == [a, b, c]
    requires a.gradingSessionId == s.sessionId && b.gradingSessionId == s.sessionId && c.gradingSessionId == s.sessionId
    ensures Summary(snap, s).None?
  {
    assert SessionRows(snap.grades, s.sessionId.value) == [a, b, c] by {
      assert snap.grades[1..] == [b, c] && snap.grades[1..][1..] == [c];
    }
  }
}
