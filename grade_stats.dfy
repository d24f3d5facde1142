/**
 * `PostgreSQLStorage.getEvaluationStatsByUser`: the per-grader summary of
 * completed A/B comparisons. The SQL query becomes a filter over a snapshot of
 * `human_grades` rows (taken in the order the query returns them); the
 * grouping and counting loops are kept as loops, and each is proved against
 * the specification functions below.
 */
module GradeStats {
  import opened Records
  import opened Numeric

  /** `grade.gradingSessionId` when it is truthy; `null`, absent and `""` are skipped. */
  function SessionKey(g: HumanGrade): (k: Option<string>)
    ensures k.Some? <==> TruthyString(g.gradingSessionId)
    ensures k.Some? ==> k == g.gradingSessionId
  {
    if TruthyString(g.gradingSessionId) then g.gradingSessionId else None
  }

  /** The two columns of a grade the grouping keeps besides the session id. */
  datatype Entry = Entry(score: int, responseName: Option<string>)

  function EntryOf(g: HumanGrade): Entry
  {
    Entry(g.score, g.responseName)
  }

  /** `WHERE graderId = …`, keeping the order of the snapshot. */
  function GraderRows(rows: seq<HumanGrade>, graderId: string): (r: seq<HumanGrade>)
    ensures |r| <= |rows|
    ensures forall g :: g in r <==> g in rows && g.graderId == graderId
  {
    if rows == [] then []
    else
      var g := rows[|rows| - 1];
      GraderRows(rows[..|rows| - 1], graderId) + (if g.graderId == graderId then [g] else [])
  }

  /** The entries of the session `sid`, in row order: `sessionMap.get(sid)` once every row is pushed. */
  function Group(rows: seq<HumanGrade>, sid: string): (r: seq<Entry>)
    ensures |r| <= |rows|
  {
    if rows == [] then []
    else
      var g := rows[|rows| - 1];
      Group(rows[..|rows| - 1], sid) + (if SessionKey(g) == Some(sid) then [EntryOf(g)] else [])
  }

  /** `WHERE graderId = …` keeps each of this grader's rows as often as the snapshot holds it, and no other row. */
  lemma {:induction false} GraderRowsCount(rows: seq<HumanGrade>, graderId: string)
    ensures forall g :: multiset(GraderRows(rows, graderId))[g] ==
                        if g.graderId == graderId then multiset(rows)[g] else 0
  {
    if rows != [] {
      var init := rows[..|rows| - 1];
      GraderRowsCount(init, graderId);
      assert rows == init + [rows[|rows| - 1]];
    }
  }

  /** The positions of the rows of the session `sid`. */
  ghost function SessionPositions(rows: seq<HumanGrade>, sid: string): set<nat>
  {
    set i: nat | i < |rows| && SessionKey(rows[i]) == Some(sid)
  }

  /** The size of a group, which the two-grade test reads, is the number of rows of its session. */
  lemma {:induction false} GroupCount(rows: seq<HumanGrade>, sid: string)
    ensures |Group(rows, sid)| == |SessionPositions(rows, sid)|
  {
    if rows == [] {
      assert SessionPositions(rows, sid) == {};
    } else {
      var init, last := rows[..|rows| - 1], rows[|rows| - 1];
      GroupCount(init, sid);
      assert forall i :: 0 <= i < |init| ==> rows[i] == init[i];
      if SessionKey(last) == Some(sid) {
        assert SessionPositions(rows, sid) == SessionPositions(init, sid) + {|init|};
        assert |init| !in SessionPositions(init, sid);
      } else {
        assert SessionPositions(rows, sid) == SessionPositions(init, sid);
      }
    }
  }

  /** The keys of `sessionMap` in insertion order: each truthy session id once, by first appearance. */
  function SessionIds(rows: seq<HumanGrade>): (r: seq<string>)
    ensures forall i, j :: 0 <= i < j < |r| ==> r[i] != r[j]
  {
    if rows == [] then []
    else
      var p := SessionIds(rows[..|rows| - 1]);
      var k := SessionKey(rows[|rows| - 1]);
      if k.Some? && k.value !in p then p + [k.value] else p
  }

  /** A session id is listed exactly when some row carries it. */
  lemma {:induction false} SessionIdsListTaggedSessions(rows: seq<HumanGrade>, s: string)
    ensures s in SessionIds(rows) <==> exists g :: g in rows && SessionKey(g) == Some(s)
  {
    if rows != [] {
      var init := rows[..|rows| - 1];
      SessionIdsListTaggedSessions(init, s);
      assert forall g :: g in rows <==> g in init || g == rows[|rows| - 1];
    }
  }

  /** `sessionGrades.find(g => g.gradingCriteria?.responseName === label)`. */
  function FindLabel(group: seq<Entry>, name: string): (r: Option<Entry>)
    ensures r.Some? ==> r.value in group && r.value.responseName == Some(name)
    ensures r.None? ==> forall e :: e in group ==> e.responseName != Some(name)
  {
    if group == [] then None
    else if group[0].responseName == Some(name) then Some(group[0])
    else FindLabel(group[1..], name)
  }

  /** `find` returns the first entry with the label, in the session's row order. */
  lemma {:induction false} FindLabelIsFirst(group: seq<Entry>, name: string)
    requires FindLabel(group, name).Some?
    ensures exists i :: 0 <= i < |group| && group[i] == FindLabel(group, name).value &&
                        forall j :: 0 <= j < i ==> group[j].responseName != Some(name)
  {
    if group[0].responseName != Some(name) {
      FindLabelIsFirst(group[1..], name);
      var i :| 0 <= i < |group[1..]| && group[1..][i] == FindLabel(group, name).value &&
               forall j :: 0 <= j < i ==> group[1..][j].responseName != Some(name);
      assert forall j :: 0 < j < i + 1 ==> group[j] == group[1..][j - 1];
      assert group[i + 1] == FindLabel(group, name).value;
    }
  }

  /** What one session contributes: nothing, a comparison only, or a scored comparison. */
  datatype Verdict = Incomplete | Malformed | Scored(score1: int, score2: int)

  function Judge(group: seq<Entry>): (v: Verdict)
    ensures v.Incomplete? <==> |group| != 2
    ensures v.Scored? ==> Entry(v.score1, Some(Response1)) in group && Entry(v.score2, Some(Response2)) in group
    ensures v.Malformed? <==> |group| == 2 && ((forall e :: e in group ==> e.responseName != Some(Response1))
                                              || (forall e :: e in group ==> e.responseName != Some(Response2)))
  {
    if |group| != 2 then Incomplete
    else
      var r1 := FindLabel(group, Response1);
      var r2 := FindLabel(group, Response2);
      if r1.Some? && r2.Some? then Scored(r1.value.score, r2.value.score) else Malformed
  }

  /** The loop's counters. */
  datatype Totals = Totals(comparisons: nat, aWins: nat, bWins: nat, scoreSum: int, scoreCount: nat)

  const Zero: Totals := Totals(0, 0, 0, 0, 0)

  /**
   * One session's step. A complete session is counted before its labels are
   * looked at, so a malformed one counts as a comparison and nowhere else.
   * Equal scores go to Response 1.
   */
  function Step(t: Totals, v: Verdict): (u: Totals)
    ensures v.Incomplete? ==> u == t
    ensures v.Malformed? ==> u == t.(comparisons := t.comparisons + 1)
    ensures v.Scored? ==>
              && u.comparisons == t.comparisons + 1
              && u.scoreCount == t.scoreCount + 2
              && u.scoreSum == t.scoreSum + v.score1 + v.score2
              && ((u.aWins == t.aWins + 1 && u.bWins == t.bWins) <==> v.score1 >= v.score2)
              && ((u.bWins == t.bWins + 1 && u.aWins == t.aWins) <==> v.score1 < v.score2)
  {
    match v
    case Incomplete => t
    case Malformed => t.(comparisons := t.comparisons + 1)
    case Scored(s1, s2) =>
      var wins := if s1 >= s2 then t.(aWins := t.aWins + 1) else t.(bWins := t.bWins + 1);
      wins.(comparisons := t.comparisons + 1, scoreSum := t.scoreSum + s1 + s2, scoreCount := t.scoreCount + 2)
  }

  /** The counters after the sessions `ids` (in that order) have been processed. */
  function TallyIds(rows: seq<HumanGrade>, ids: seq<string>): (t: Totals)
    ensures t.aWins + t.bWins <= t.comparisons <= |ids|
    ensures t.scoreCount == 2 * (t.aWins + t.bWins)
  {
    if ids == [] then Zero
    else Step(TallyIds(rows, ids[..|ids| - 1]), Judge(Group(rows, ids[|ids| - 1])))
  }

  function Tally(rows: seq<HumanGrade>): Totals
  {
    TallyIds(rows, SessionIds(rows))
  }

  /**
   * The result object. `averageTenths` is `averageScore * 10`: the exact mean
   * rounded half-up to a tenth (the source rounds an IEEE double).
   */
  datatype EvaluationStats = EvaluationStats(
    totalComparisons: nat,
    averageTenths: int,
    modelAWins: nat,
    modelBWins: nat,
    preferredModel: string)

  function Summarize(t: Totals): (s: EvaluationStats)
    ensures s.totalComparisons == t.comparisons && s.modelAWins == t.aWins && s.modelBWins == t.bWins
    ensures s.preferredModel == Response1 <==> t.aWins >= t.bWins
    ensures s.preferredModel == Response2 <==> t.aWins < t.bWins
    ensures t.scoreCount == 0 ==> s.averageTenths == 0
    ensures t.scoreCount > 0 ==> 2 * t.scoreCount * s.averageTenths <= 20 * t.scoreSum + t.scoreCount
                                < 2 * t.scoreCount * (s.averageTenths + 1)
  {
    EvaluationStats(
      t.comparisons,
      if t.scoreCount > 0 then RoundHalfUpTenths(t.scoreSum, t.scoreCount) else 0,
      t.aWins,
      t.bWins,
      if t.aWins >= t.bWins then Response1 else Response2)
  }

  /** What `getEvaluationStatsByUser(graderId)` returns for the snapshot `rows`. */
  function Stats(rows: seq<HumanGrade>, graderId: string): EvaluationStats
  {
    Summarize(Tally(GraderRows(rows, graderId)))
  }

  lemma GroupSnoc(rows: seq<HumanGrade>, g: HumanGrade, k: string)
    ensures Group(rows + [g], k) == Group(rows, k) + (if SessionKey(g) == Some(k) then [EntryOf(g)] else [])
  {
    assert (rows + [g])[..|rows|] == rows;
  }

  lemma SessionIdsSnoc(rows: seq<HumanGrade>, g: HumanGrade)
    ensures SessionIds(rows + [g]) == if SessionKey(g).Some? && SessionKey(g).value !in SessionIds(rows)
                                      then SessionIds(rows) + [SessionKey(g).value] else SessionIds(rows)
  {
    assert (rows + [g])[..|rows|] == rows;
  }

  /** The first loop (`grades.forEach`): push every session-tagged grade onto its session's list. */
  method GroupBySession(grades: seq<HumanGrade>) returns (sessionMap: map<string, seq<Entry>>, keys: seq<string>)
    ensures keys == SessionIds(grades)
    ensures forall k :: k in sessionMap <==> k in keys
    ensures forall k :: k in sessionMap ==> sessionMap[k] == Group(grades, k)
  {
    sessionMap, keys := map[], [];
    var i := 0;
    while i < |grades|
      invariant 0 <= i <= |grades|
      invariant keys == SessionIds(grades[..i])
      invariant forall k :: k in sessionMap <==> k in keys
      invariant forall k :: k in sessionMap ==> sessionMap[k] == Group(grades[..i], k)
    {
      var g := grades[i];
      assert grades[..i + 1] == grades[..i] + [g];
      SessionIdsSnoc(grades[..i], g);
      forall k {
        GroupSnoc(grades[..i], g, k);
      }
      if TruthyString(g.gradingSessionId) {
        var sid := g.gradingSessionId.value;
        if sid !in sessionMap {
          SessionIdsListTaggedSessions(grades[..i], sid);
          NoKeyNoGroup(grades[..i], sid);
          sessionMap := sessionMap[sid := []];
          keys := keys + [sid];
        }
        sessionMap := sessionMap[sid := sessionMap[sid] + [EntryOf(g)]];
      }
      i := i + 1;
    }
    assert grades[..i] == grades;
  }

  /** The second loop (`sessionMap.forEach`): count the complete sessions, in key order. */
  method CountSessions(grades: seq<HumanGrade>, sessionMap: map<string, seq<Entry>>, keys: seq<string>)
    returns (totals: Totals)
    requires forall k :: k in keys ==> k in sessionMap && sessionMap[k] == Group(grades, k)
    ensures totals == TallyIds(grades, keys)
  {
    var totalComparisons: nat, modelAWins: nat, modelBWins: nat := 0, 0, 0;
    var totalScoreSum: int, totalScoreCount: nat := 0, 0;
    var j := 0;
    while j < |keys|
      invariant 0 <= j <= |keys|
      invariant Totals(totalComparisons, modelAWins, modelBWins, totalScoreSum, totalScoreCount)
                == TallyIds(grades, keys[..j])
    {
      assert keys[..j + 1][..j] == keys[..j];
      var sessionGrades := sessionMap[keys[j]];
      ghost var before := Totals(totalComparisons, modelAWins, modelBWins, totalScoreSum, totalScoreCount);
      assert TallyIds(grades, keys[..j + 1]) == Step(before, Judge(sessionGrades));
      if |sessionGrades| == 2 {
        totalComparisons := totalComparisons + 1;
        var response1Grade := FindLabel(sessionGrades, Response1);
        var response2Grade := FindLabel(sessionGrades, Response2);
        if response1Grade.Some? && response2Grade.Some? {
          assert Judge(sessionGrades) == Scored(response1Grade.value.score, response2Grade.value.score);
          if response1Grade.value.score >= response2Grade.value.score {
            modelAWins := modelAWins + 1;
          } else {
            modelBWins := modelBWins + 1;
          }
          totalScoreSum := totalScoreSum + response1Grade.value.score + response2Grade.value.score;
          totalScoreCount := totalScoreCount + 2;
        } else {
          assert Judge(sessionGrades) == Malformed;
        }
      } else {
        assert Judge(sessionGrades) == Incomplete;
      }
      j := j + 1;
    }
    assert keys[..j] == keys;
    totals := Totals(totalComparisons, modelAWins, modelBWins, totalScoreSum, totalScoreCount);
  }

  /** `getEvaluationStatsByUser(graderId)` over the snapshot `rows`. */
  method GetEvaluationStatsByUser(rows: seq<HumanGrade>, graderId: string) returns (stats: EvaluationStats)
    ensures stats == Stats(rows, graderId)
    ensures stats.modelAWins + stats.modelBWins <= stats.totalComparisons
  {
    var grades := GraderRows(rows, graderId);
    var sessionMap, keys := GroupBySession(grades);
    var t := CountSessions(grades, sessionMap, keys);
    var averageScore := if t.scoreCount > 0 then RoundHalfUpTenths(t.scoreSum, t.scoreCount) else 0;
    var preferredModel := if t.aWins >= t.bWins then Response1 else Response2;
    stats := EvaluationStats(t.comparisons, averageScore, t.aWins, t.bWins, preferredModel);
  }

  // ---- properties of the specification ----

  /** When every complete session carries one "Response 1" and one "Response 2" grade, every comparison is a win. */
  lemma {:induction false} WellLabelledSessionsAllWin(rows: seq<HumanGrade>, ids: seq<string>)
    requires forall sid :: sid in ids ==> !Judge(Group(rows, sid)).Malformed?
    ensures TallyIds(rows, ids).aWins + TallyIds(rows, ids).bWins == TallyIds(rows, ids).comparisons
  {
    if ids != [] {
      WellLabelledSessionsAllWin(rows, ids[..|ids| - 1]);
    }
  }

  /** A malformed complete session is counted in `totalComparisons` but not in the wins. */
  lemma {:induction false} MalformedSessionsWidenTheGap(rows: seq<HumanGrade>, ids: seq<string>, sid: string)
    requires sid in ids
    requires Judge(Group(rows, sid)).Malformed?
    ensures TallyIds(rows, ids).aWins + TallyIds(rows, ids).bWins < TallyIds(rows, ids).comparisons
  {
    var last := ids[|ids| - 1];
    if sid != last {
      MalformedSessionsWidenTheGap(rows, ids[..|ids| - 1], sid);
    }
  }

  lemma {:induction false} NoKeyNoGroup(rows: seq<HumanGrade>, sid: string)
    requires forall g :: g in rows ==> SessionKey(g) != Some(sid)
    ensures Group(rows, sid) == []
  {
    if rows != [] {
      NoKeyNoGroup(rows[..|rows| - 1], sid);
    }
  }

  /** Adding a row of another session leaves the tally over `ids` unchanged. */
  lemma {:induction false} TallyIgnoresOtherSession(rows: seq<HumanGrade>, g: HumanGrade, ids: seq<string>)
    requires SessionKey(g).Some? && SessionKey(g).value !in ids
    ensures TallyIds(rows + [g], ids) == TallyIds(rows, ids)
  {
    if ids != [] {
      var last := ids[|ids| - 1];
      assert (rows + [g])[..|rows|] == rows;
      assert Group(rows + [g], last) == Group(rows, last);
      TallyIgnoresOtherSession(rows, g, ids[..|ids| - 1]);
    }
  }

  /**
   * A grade whose session has no other grade by this grader contributes
   * nothing, whatever its score: the session is incomplete.
   */
  lemma LoneGradeIsIgnored(rows: seq<HumanGrade>, g: HumanGrade, graderId: string)
    requires SessionKey(g).Some?
    requires forall h :: h in rows && h.graderId == graderId ==> SessionKey(h) != SessionKey(g)
    ensures Stats(rows + [g], graderId) == Stats(rows, graderId)
  {
    GraderRowsSnoc(rows, g, graderId);
    var before := GraderRows(rows, graderId);
    if g.graderId == graderId {
      LoneGradeTally(before, g);
      assert Tally(GraderRows(rows + [g], graderId)) == Tally(before);
    } else {
      assert GraderRows(rows + [g], graderId) == before;
    }
  }

  lemma LoneGradeTally(before: seq<HumanGrade>, g: HumanGrade)
    requires SessionKey(g).Some?
    requires forall h :: h in before ==> SessionKey(h) != SessionKey(g)
    ensures Tally(before + [g]) == Tally(before)
  {
    var after := before + [g];
    var s := SessionKey(g).value;
    var ids := SessionIds(before);
    SessionIdsListTaggedSessions(before, s);
    SessionIdsSnoc(before, g);
    assert SessionIds(after) == ids + [s];
    NoKeyNoGroup(before, s);
    GroupSnoc(before, g, s);
    assert Judge(Group(after, s)) == Incomplete;
    assert (ids + [s])[..|ids|] == ids;
    assert TallyIds(after, ids + [s]) == TallyIds(after, ids);
    TallyIgnoresOtherSession(before, g, ids);
  }

  lemma GraderRowsSnoc(rows: seq<HumanGrade>, g: HumanGrade, graderId: string)
    ensures GraderRows(rows + [g], graderId) == GraderRows(rows, graderId) + (if g.graderId == graderId then [g] else [])
  {
    assert (rows + [g])[..|rows|] == rows;
  }

  /** With no session-tagged grade for this grader, the result is all zeros and "Response 1". */
  lemma NoSessionsGiveDefaults(rows: seq<HumanGrade>, graderId: string)
    requires forall g :: g in rows && g.graderId == graderId ==> SessionKey(g).None?
    ensures Stats(rows, graderId) == EvaluationStats(0, 0, 0, 0, Response1)
  {
    var mine := GraderRows(rows, graderId);
    if SessionIds(mine) != [] {
      SessionIdsListTaggedSessions(mine, SessionIds(mine)[0]);
      assert false;
    }
  }

  /** Equal scores in a lone well-labelled session give a win to Response 1. */
  lemma TieGoesToResponse1(sid: string, graderId: string, score: int)
    requires sid != ""
    ensures var rows := [HumanGrade("g1", "r1", graderId, score, None, Some(Response1), Some(sid), 0),
                         HumanGrade("g2", "r2", graderId, score, None, Some(Response2), Some(sid), 1)];
            Stats(rows, graderId).modelAWins == 1 && Stats(rows, graderId).modelBWins == 0
  {
    var rows := [HumanGrade("g1", "r1", graderId, score, None, Some(Response1), Some(sid), 0),
                 HumanGrade("g2", "r2", graderId, score, None, Some(Response2), Some(sid), 1)];
    assert rows[..1][..0] == [];
    assert rows[..1] == [rows[0]];
    assert SessionIds(rows[..1]) == [sid];
    assert GraderRows(rows, graderId) == rows;
    assert SessionIds(rows) == [sid];
    assert Group(rows, sid) == [Entry(score, Some(Response1)), Entry(score, Some(Response2))];
  }

  function Grade(id: string, score: int, name: string, sid: string, at: int): HumanGrade
  {
    HumanGrade(id, id, "grader", score, None, Some(name), Some(sid), at)
  }

  /** Two rows that make up a session `sid` on their own. */
  lemma PairFacts(rows: seq<HumanGrade>, r1: HumanGrade, r2: HumanGrade, sid: string)
    requires r1.graderId == r2.graderId == "grader"
    requires SessionKey(r1) == SessionKey(r2) == Some(sid)
    requires sid !in SessionIds(rows)
    ensures GraderRows(rows + [r1, r2], "grader") == GraderRows(rows, "grader") + [r1, r2]
    ensures SessionIds(rows + [r1, r2]) == SessionIds(rows) + [sid]
    ensures Group(rows + [r1, r2], sid) == [EntryOf(r1), EntryOf(r2)]
  {
    assert rows + [r1, r2] == rows + [r1] + [r2];
    PairGraderRows(rows, r1, r2);
    PairSessionIds(rows, r1, r2, sid);
    PairGroup(rows, r1, r2, sid);
  }

  lemma PairGraderRows(rows: seq<HumanGrade>, r1: HumanGrade, r2: HumanGrade)
    requires r1.graderId == r2.graderId == "grader"
    ensures GraderRows(rows + [r1] + [r2], "grader") == GraderRows(rows, "grader") + [r1, r2]
  {
    GraderRowsSnoc(rows, r1, "grader");
    GraderRowsSnoc(rows + [r1], r2, "grader");
  }

  lemma PairSessionIds(rows: seq<HumanGrade>, r1: HumanGrade, r2: HumanGrade, sid: string)
    requires SessionKey(r1) == SessionKey(r2) == Some(sid)
    requires sid !in SessionIds(rows)
    ensures SessionIds(rows + [r1] + [r2]) == SessionIds(rows) + [sid]
  {
    SessionIdsSnoc(rows, r1);
    assert SessionIds(rows + [r1]) == SessionIds(rows) + [sid];
    SessionIdsSnoc(rows + [r1], r2);
    assert sid in SessionIds(rows + [r1]);
  }

  lemma PairGroup(rows: seq<HumanGrade>, r1: HumanGrade, r2: HumanGrade, sid: string)
    requires SessionKey(r1) == SessionKey(r2) == Some(sid)
    requires sid !in SessionIds(rows)
    ensures Group(rows + [r1] + [r2], sid) == [EntryOf(r1), EntryOf(r2)]
  {
    SessionIdsListTaggedSessions(rows, sid);
    NoKeyNoGroup(rows, sid);
    GroupSnoc(rows, r1, sid);
    GroupSnoc(rows + [r1], r2, sid);
  }

  /** Adding a whole session `sid` after the sessions already tallied. */
  lemma {:induction false} PairTally(rows: seq<HumanGrade>, r1: HumanGrade, r2: HumanGrade, sid: string)
    requires r1.graderId == r2.graderId == "grader"
    requires SessionKey(r1) == SessionKey(r2) == Some(sid)
    requires sid !in SessionIds(rows)
    ensures Tally(rows + [r1, r2]) == Step(Tally(rows), Judge([EntryOf(r1), EntryOf(r2)]))
  {
    PairFacts(rows, r1, r2, sid);
    var ids := SessionIds(rows);
    assert (ids + [sid])[..|ids|] == ids;
    TallyIgnoresPair(rows, r1, r2, ids);
  }

  lemma {:induction false} TallyIgnoresPair(rows: seq<HumanGrade>, r1: HumanGrade, r2: HumanGrade, ids: seq<string>)
    requires SessionKey(r1) == SessionKey(r2) && SessionKey(r1).Some? && SessionKey(r1).value !in ids
    ensures TallyIds(rows + [r1, r2], ids) == TallyIds(rows, ids)
  {
    assert rows + [r1, r2] == rows + [r1] + [r2];
    TallyIgnoresOtherSession(rows, r1, ids);
    TallyIgnoresOtherSession(rows + [r1], r2, ids);
  }

  lemma JudgeWellLabelled(score1: int, score2: int)
    ensures Judge([Entry(score1, Some(Response1)), Entry(score2, Some(Response2))]) == Scored(score1, score2)
  {
    assert Response1 != Response2 by { assert Response1[9] != Response2[9]; }
  }

  const ExampleA: HumanGrade := Grade("a", 8, Response1, "s1", 6)
  const ExampleB: HumanGrade := Grade("b", 6, Response2, "s1", 5)
  const ExampleC: HumanGrade := Grade("c", 5, Response1, "s2", 4)
  const ExampleD: HumanGrade := Grade("d", 5, Response2, "s2", 3)
  const ExampleE: HumanGrade := Grade("e", 9, Response1, "s3", 2)
  const ExampleF: HumanGrade := Grade("f", 7, Response2, "s3", 1)

  /** Response 1 scored 8, 5, 9 and Response 2 scored 6, 5, 7, one session each. */
  function ExampleRows(): seq<HumanGrade>
  {
    [ExampleA, ExampleB] + [ExampleC, ExampleD] + [ExampleE, ExampleF]
  }

  lemma ExampleFirst()
    ensures SessionIds([ExampleA, ExampleB]) == ["s1"]
    ensures Tally([ExampleA, ExampleB]) == Totals(1, 1, 0, 14, 2)
    ensures GraderRows([ExampleA, ExampleB], "grader") == [ExampleA, ExampleB]
  {
    var r0: seq<HumanGrade> := [];
    assert r0 + [ExampleA, ExampleB] == [ExampleA, ExampleB];
    PairFacts(r0, ExampleA, ExampleB, "s1");
    PairTally(r0, ExampleA, ExampleB, "s1");
    JudgeWellLabelled(8, 6);
  }

  lemma ExampleFirstTwo()
    ensures SessionIds([ExampleA, ExampleB] + [ExampleC, ExampleD]) == ["s1", "s2"]
    ensures Tally([ExampleA, ExampleB] + [ExampleC, ExampleD]) == Totals(2, 2, 0, 24, 4)
    ensures GraderRows([ExampleA, ExampleB] + [ExampleC, ExampleD], "grader") == [ExampleA, ExampleB] + [ExampleC, ExampleD]
  {
    var r2 := [ExampleA, ExampleB];
    ExampleFirst();
    assert "s2" !in SessionIds(r2) by {
      assert "s1"[1] != "s2"[1];
    }
    PairFacts(r2, ExampleC, ExampleD, "s2");
    PairTally(r2, ExampleC, ExampleD, "s2");
    assert [EntryOf(ExampleC), EntryOf(ExampleD)] == [Entry(5, Some(Response1)), Entry(5, Some(Response2))];
    JudgeWellLabelled(5, 5);
    assert Step(Totals(1, 1, 0, 14, 2), Scored(5, 5)) == Totals(2, 2, 0, 24, 4);
  }

  lemma ExampleTally()
    ensures GraderRows(ExampleRows(), "grader") == ExampleRows()
    ensures Tally(ExampleRows()) == Totals(3, 3, 0, 40, 6)
  {
    var r4 := [ExampleA, ExampleB] + [ExampleC, ExampleD];
    ExampleFirstTwo();
    assert "s3" !in SessionIds(r4) by {
      assert "s1"[1] != "s3"[1] && "s2"[1] != "s3"[1];
    }
    PairFacts(r4, ExampleE, ExampleF, "s3");
    PairTally(r4, ExampleE, ExampleF, "s3");
    assert [EntryOf(ExampleE), EntryOf(ExampleF)] == [Entry(9, Some(Response1)), Entry(7, Some(Response2))];
    JudgeWellLabelled(9, 7);
    assert Step(Totals(2, 2, 0, 24, 4), Scored(9, 7)) == Totals(3, 3, 0, 40, 6);
    assert ExampleRows() == r4 + [ExampleE, ExampleF];
  }

  /**
   * Three complete sessions scored (8, 6), (5, 5) and (9, 7): three Response 1
   * wins (the tie included) and the mean 40 / 6 = 6.67, rounded to 6.7.
   */
  lemma ThreeSessionExample()
    ensures Stats(ExampleRows(), "grader") == EvaluationStats(3, 67, 3, 0, Response1)
  {
    ExampleTally();
  }

  /** Two "Response 1" grades in one session: a comparison that is neither win nor scored. */
  lemma MalformedSessionExample()
    ensures var rows := [Grade("a", 8, Response1, "s1", 2), Grade("b", 6, Response1, "s1", 1)];
            Stats(rows, "grader") == EvaluationStats(1, 0, 0, 0, Response1)
  {
    var a, b := Grade("a", 8, Response1, "s1", 2), Grade("b", 6, Response1, "s1", 1);
    var r0: seq<HumanGrade> := [];
    PairFacts(r0, a, b, "s1");
    PairTally(r0, a, b, "s1");
    assert r0 + [a, b] == [a, b];
    assert Judge([EntryOf(a), EntryOf(b)]) == Malformed;
  }
}
