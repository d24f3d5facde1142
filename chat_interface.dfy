/**
 * The non-rendering state of the `ChatInterface` component: the example
 * rotation, the current analysis session, the two ratings and comments, and
 * the running tally of submitted comparisons. Each React state cell is a
 * field; each handler is a method that performs the `set…` calls it makes.
 */
module ChatInterface {
  import opened Records


  /** The slider bounds of a rating, and the value a rating is reset to. */
  const MinRating: int := 1
  const MaxRating: int := 10
  const ResetRating: int := 5

  /** `sessionStats` */
  datatype Tally = Tally(total: nat, modelAWins: nat, modelBWins: nat)

  const NoComparisons: Tally := Tally(0, 0, 0)

  /** `modelARating >= modelBRating ? "modelA" : "modelB"`: equal ratings go to model A. */
  function WinnerOf(aRating: int, bRating: int): (w: string)
    ensures w == ModelA <==> aRating >= bRating
    ensures w == ModelB <==> aRating < bRating
  {
    assert ModelA != ModelB by {
      assert ModelA[5] != ModelB[5];
    }
    if aRating >= bRating then ModelA else ModelB
  }

  /** The `setSessionStats` update after a successful submit. */
  function Record(t: Tally, aRating: int, bRating: int): (u: Tally)
    ensures u.total == t.total + 1
    ensures u.modelAWins + u.modelBWins == t.modelAWins + t.modelBWins + 1
    ensures u.modelAWins == t.modelAWins + 1 <==> aRating >= bRating
    ensures u.modelBWins == t.modelBWins + 1 <==> aRating < bRating
  {
    var w := WinnerOf(aRating, bRating);
    Tally(t.total + 1,
          t.modelAWins + (if w == ModelA then 1 else 0),
          t.modelBWins + (if w == ModelB then 1 else 0))
  }

  /** The tally after the successful submits `votes` (pairs of A and B ratings), from zero. */
  function Replay(votes: seq<(int, int)>): Tally
  {
    if votes == [] then NoComparisons
    else
      var last := votes[|votes| - 1];
      Record(Replay(votes[..|votes| - 1]), last.0, last.1)
  }

  /**
   * From zero, the total is the number of successful submits and always
   * equals model A's wins plus model B's; model B has no win exactly when
   * no submit rated B strictly higher.
   */
  lemma {:induction false} ReplayKeepsTotalEqualToWins(votes: seq<(int, int)>)
    ensures Replay(votes).total == |votes|
    ensures Replay(votes).total == Replay(votes).modelAWins + Replay(votes).modelBWins
    ensures Replay(votes).modelBWins == 0 <==> forall v :: v in votes ==> v.0 >= v.1
  {
    if votes != [] {
      var init := votes[..|votes| - 1];
      ReplayKeepsTotalEqualToWins(init);
      assert votes == init + [votes[|votes| - 1]];
      assert forall v :: v in votes <==> v in init || v == votes[|votes| - 1];
    }
  }

  /** `(currentExampleIndex + 1) % examples.length`: the next example, wrapping to the first after the last. */
  function NextIndex(i: nat, n: nat): (j: nat)
    requires n > 0
    ensures j < n
    ensures i < n ==> j == (if i + 1 < n then i + 1 else 0)
  {
    (i + 1) % n
  }

  /** The example index after `k` successful analyses, starting from the first example. */
  function IndexAfter(k: nat, n: nat): (i: nat)
    requires n > 0
    ensures i < n
  {
    if k == 0 then 0 else NextIndex(IndexAfter(k - 1, n), n)
  }

  /** The first `n` analyses visit the examples in order. */
  lemma {:induction false} RotationVisitsInOrder(k: nat, n: nat)
    requires 0 < n && k < n
    ensures IndexAfter(k, n) == k
  {
    if k > 0 {
      RotationVisitsInOrder(k - 1, n);
    }
  }

  /** The examples are visited in a cycle of length `n`: every `n` analyses the index comes back. */
  lemma {:induction false} RotationIsCyclic(k: nat, n: nat)
    requires n > 0
    ensures IndexAfter(k + n, n) == IndexAfter(k, n)
  {
    if k == 0 {
      RotationVisitsInOrder(n - 1, n);
    } else {
      RotationIsCyclic(k - 1, n);
      assert k + n - 1 == (k - 1) + n;
    }
  }

  /** The fields of the analysis response that the component reads. */
  datatype Session = Session(id: string, agentResponseAId: Option<string>, agentResponseBId: Option<string>)

  /** The body of `POST /api/evaluations`. */
  datatype AnalysisRequest = AnalysisRequest(prompt: string, userId: Option<string>)

  /** The body of `POST /api/comparisons`; `None` fields are `undefined` and left out of the JSON. */
  datatype ComparisonRequest = ComparisonRequest(
    evaluationSessionId: Option<string>,
    winner: string,
    modelARating: int,
    modelBRating: int,
    modelAComment: Option<string>,
    modelBComment: Option<string>,
    userId: Option<string>,
    agentResponseAId: Option<string>,
    agentResponseBId: Option<string>)

  /** `comment || undefined`: an empty comment is not sent. */
  function CommentOrUndefined(comment: string): (r: Option<string>)
    ensures r.None? <==> comment == ""
    ensures r.Some? ==> r.value == comment
  {
    if comment == "" then None else Some(comment)
  }

  class ChatPanel {
    const examples: seq<string>
    var currentExampleIndex: nat
    var prompt: string
    var currentSession: Option<Session>
    var sessionStats: Tally
    var modelARating: int
    var modelBRating: int
    var modelAComment: string
    var modelBComment: string

    ghost predicate Valid()
      reads this
    {
      && currentExampleIndex < |examples|
      && sessionStats.total == sessionStats.modelAWins + sessionStats.modelBWins
      && MinRating <= modelARating <= MaxRating
      && MinRating <= modelBRating <= MaxRating
    }

    /** The initial `useState` values; `examples` are the example prompts, of which there is at least one. */
    constructor (examples: seq<string>)
      requires |examples| > 0
      ensures Valid()
      ensures this.examples == examples
      ensures currentExampleIndex == 0 && prompt == examples[0]
      ensures currentSession.None? && sessionStats == NoComparisons
      ensures modelARating == ResetRating && modelBRating == ResetRating
      ensures modelAComment == "" && modelBComment == ""
    {
      this.examples := examples;
      currentExampleIndex := 0;
      prompt := examples[0];
      currentSession := None;
      sessionStats := NoComparisons;
      modelARating, modelBRating := ResetRating, ResetRating;
      modelAComment, modelBComment := "", "";
    }

    /** The analysis request sends the current example, whatever the `prompt` state holds. */
    function AnalysisRequestFor(userId: Option<string>): (req: AnalysisRequest)
      reads this
      requires Valid()
      ensures req.prompt == examples[currentExampleIndex] && req.userId == userId
    {
      AnalysisRequest(examples[currentExampleIndex], userId)
    }

    /** `onSuccess` of the analysis: show the session, move to the next example, reset ratings and comments. */
    method OnAnalysisSuccess(data: Session)
      requires Valid()
      modifies this
      ensures Valid()
      ensures currentSession == Some(data)
      ensures currentExampleIndex == NextIndex(old(currentExampleIndex), |examples|)
      ensures prompt == examples[currentExampleIndex]
      ensures modelARating == ResetRating && modelBRating == ResetRating
      ensures modelAComment == "" && modelBComment == ""
      ensures sessionStats == old(sessionStats)
    {
      currentSession := Some(data);
      var nextIndex := NextIndex(currentExampleIndex, |examples|);
      currentExampleIndex := nextIndex;
      prompt := examples[nextIndex];
      modelARating, modelBRating := ResetRating, ResetRating;
      modelAComment, modelBComment := "", "";
    }

    /** `handleClear`: drop the session and reset the ratings and comments; the example and tally stay. */
    method Clear()
      requires Valid()
      modifies this
      ensures Valid()
      ensures currentSession.None?
      ensures modelARating == ResetRating && modelBRating == ResetRating
      ensures modelAComment == "" && modelBComment == ""
      ensures currentExampleIndex == old(currentExampleIndex) && prompt == old(prompt)
      ensures sessionStats == old(sessionStats)
    {
      currentSession := None;
      modelARating, modelBRating := ResetRating, ResetRating;
      modelAComment, modelBComment := "", "";
    }

    /** `onRate` of a response panel: the slider gives a rating between 1 and 10. */
    method Rate(modelA: bool, rating: int)
      requires Valid()
      requires MinRating <= rating <= MaxRating
      modifies this
      ensures Valid()
      ensures modelA ==> modelARating == rating && modelBRating == old(modelBRating)
      ensures !modelA ==> modelBRating == rating && modelARating == old(modelARating)
      ensures currentSession == old(currentSession) && sessionStats == old(sessionStats)
      ensures currentExampleIndex == old(currentExampleIndex) && prompt == old(prompt)
      ensures modelAComment == old(modelAComment) && modelBComment == old(modelBComment)
    {
      if modelA {
        modelARating := rating;
      } else {
        modelBRating := rating;
      }
    }

    /** `onComment` of a response panel. */
    method Comment(modelA: bool, comment: string)
      requires Valid()
      modifies this
      ensures Valid()
      ensures modelA ==> modelAComment == comment && modelBComment == old(modelBComment)
      ensures !modelA ==> modelBComment == comment && modelAComment == old(modelAComment)
      ensures currentSession == old(currentSession) && sessionStats == old(sessionStats)
      ensures currentExampleIndex == old(currentExampleIndex) && prompt == old(prompt)
      ensures modelARating == old(modelARating) && modelBRating == old(modelBRating)
    {
      if modelA {
        modelAComment := comment;
      } else {
        modelBComment := comment;
      }
    }

    /** The comparison request built from the current state. */
    function ComparisonRequestFor(userId: Option<string>): (req: ComparisonRequest)
      reads this
      requires currentSession.Some?
      ensures req.evaluationSessionId == Some(currentSession.value.id)
      ensures req.winner == ModelA <==> modelARating >= modelBRating
      ensures req.winner == ModelB <==> modelARating < modelBRating
      ensures req.modelARating == modelARating && req.modelBRating == modelBRating
      ensures req.modelAComment.None? <==> modelAComment == ""
      ensures req.modelBComment.None? <==> modelBComment == ""
      ensures req.modelAComment.Some? ==> req.modelAComment.value == modelAComment
      ensures req.modelBComment.Some? ==> req.modelBComment.value == modelBComment
      ensures req.userId == userId
      ensures req.agentResponseAId == currentSession.value.agentResponseAId
      ensures req.agentResponseBId == currentSession.value.agentResponseBId
    {
      var s := currentSession.value;
      ComparisonRequest(Some(s.id), WinnerOf(modelARating, modelBRating), modelARating, modelBRating,
                        CommentOrUndefined(modelAComment), CommentOrUndefined(modelBComment), userId,
                        s.agentResponseAId, s.agentResponseBId)
    }

    /**
     * `handleSubmitComparison`: without a session nothing is sent and nothing
     * changes; otherwise the request is sent and, when `succeeded` (the
     * server's answer), the tally records the vote.
     */
    method SubmitComparison(userId: Option<string>, succeeded: bool) returns (sent: Option<ComparisonRequest>)
      requires Valid()
      modifies this
      ensures Valid()
      ensures currentSession == old(currentSession)
      ensures old(currentSession).None? ==> sent.None? && sessionStats == old(sessionStats)
      ensures old(currentSession).Some? ==> sent == Some(ComparisonRequestFor(userId))
      ensures old(currentSession).Some? && succeeded ==>
                sessionStats == Record(old(sessionStats), modelARating, modelBRating)
      ensures !succeeded ==> sessionStats == old(sessionStats)
      ensures currentExampleIndex == old(currentExampleIndex) && prompt == old(prompt)
      ensures modelARating == old(modelARating) && modelBRating == old(modelBRating)
      ensures modelAComment == old(modelAComment) && modelBComment == old(modelBComment)
    {
      if currentSession.None? {
        return None;
      }
      sent := Some(ComparisonRequestFor(userId));
      if succeeded {
        sessionStats := Record(sessionStats, modelARating, modelBRating);
      }
    }
  }
}
