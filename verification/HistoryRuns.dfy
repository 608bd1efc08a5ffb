/** A repair from its first chunk to its last attempt. */
module HistoryRuns {
  import opened Wrappers
  import opened HistoryContract
  import opened HistoryChunks
  import opened HistoryAttempt
  import Cov = HistoryCoverage

  /** One chunk and the world its attempt met. */
  datatype Try = Try(chunk: Intent, env: Environment)

  function Attempt(t: Try): Attempted {
    Execute(true, t.chunk, t.env)
  }

  /** The attempts of a repair, under exact snapshot authority: each outcome decides
      whether there is a next chunk, and which. */
  function Tries(intent: Intent, envs: seq<Environment>): seq<Try>
    decreases |envs|
  {
    if envs == [] then []
    else
      var first := Try(intent, envs[0]);
      var next := Continuation(intent, Attempt(first).outcome);
      if next.None? then [first] else [first] + Tries(next.value, envs[1..])
  }

  function OutcomesOf(tries: seq<Try>): (outcomes: seq<Outcome>)
    ensures |outcomes| == |tries|
    ensures forall i :: 0 <= i < |tries| ==> outcomes[i] == Attempt(tries[i]).outcome
  {
    seq(|tries|, i requires 0 <= i < |tries| => Attempt(tries[i]).outcome)
  }

  function ChunksOf(tries: seq<Try>): (chunks: seq<Intent>)
    ensures |chunks| == |tries|
    ensures forall i :: 0 <= i < |tries| ==> chunks[i] == tries[i].chunk
  {
    seq(|tries|, i requires 0 <= i < |tries| => tries[i].chunk)
  }

  /** Everything handed to the commit owner along the way. */
  function Handed(tries: seq<Try>): seq<Cov.Receipt> {
    if tries == [] then []
    else
      var front, call := Handed(tries[..|tries| - 1]), Attempt(tries[|tries| - 1]).call;
      if call.Some? then front + call.value.receipts else front
  }

  /** The attempt handed a complete answer to the commit owner. */
  predicate CommittedComplete(t: Try) {
    Attempt(t).call.Some? && Attempt(t).call.value.terminal.Complete?
  }

  predicate AllCommittedComplete(tries: seq<Try>) {
    forall i :: 0 <= i < |tries| ==> CommittedComplete(tries[i])
  }

  /** A typed answer about this chunk passed the result constructor. */
  ghost predicate TypedAnswers(tries: seq<Try>, now: int) {
    forall i :: 0 <= i < |tries| ==>
      Fenced(tries[i].chunk, tries[i].env) ==> IsAdmitted(tries[i].env.fetched.value.value, now)
  }

  /** A walk whose first outcome is this one. */
  lemma WalkStep(intent: Intent, outcomes: seq<Outcome>, rest: seq<Outcome>, chunks: seq<Intent>)
    requires outcomes != [] && outcomes[1..] == rest
    requires Continuation(intent, outcomes[0]).Some? && Walk(Continuation(intent, outcomes[0]).value, rest) == chunks
    ensures Walk(intent, outcomes) == [intent] + chunks
  {
  }

  lemma TriesStep(intent: Intent, envs: seq<Environment>, rest: seq<Try>)
    requires envs != [] && Tries(intent, envs) == [Try(intent, envs[0])] + rest
    ensures ChunksOf(Tries(intent, envs)) == [intent] + ChunksOf(rest)
    ensures OutcomesOf(Tries(intent, envs))[1..] == OutcomesOf(rest)
    ensures OutcomesOf(Tries(intent, envs))[0] == Attempt(Try(intent, envs[0])).outcome
  {
  }

  /** The walk of these outcomes visits exactly the chunks attempted. */
  lemma {:induction false} TriesWalk(intent: Intent, envs: seq<Environment>, now: int)
    requires intent.Valid(now) && |envs| >= ChunksLeft(intent)
    ensures Walk(intent, OutcomesOf(Tries(intent, envs))) == ChunksOf(Tries(intent, envs))
    decreases |envs|
  {
    ChunksLeftPositive(intent);
    var tries, first := Tries(intent, envs), Try(intent, envs[0]);
    var next := Continuation(intent, Attempt(first).outcome);
    if next.Some? {
      ContinuationIsLegal(intent, Attempt(first).outcome, now);
      TriesWalk(next.value, envs[1..], now);
      var rest := Tries(next.value, envs[1..]);
      TriesStep(intent, envs, rest);
      WalkStep(intent, OutcomesOf(tries), OutcomesOf(rest), ChunksOf(rest));
    } else {
      assert tries == [first] && ChunksOf(tries) == [intent];
    }
  }

  // ----- the answers behind the attempts -----------------------------------

  /** An answer with nothing in it, for an attempt that never got to commit. */
  function NoAnswer(intent: Intent): FetchResult {
    FetchResult(intent, Terminal.Incomplete, [], [], None, None, None)
  }

  lemma NoAnswerIsAdmitted(intent: Intent, now: int)
    requires intent.Valid(now) && intent.identity.resolution.Exact?
    ensures IsAdmitted(NoAnswer(intent), now)
  {
    var raw := RawResult(intent, Terminal.Incomplete, [], [], None, None, None);
    assert raw.BarsAdmissible() && raw.Resolves() && raw.ResponseOrdered() && raw.ExactAdmissible();
    assert Admitted(raw) == NoAnswer(intent);
  }

  function AnswerOf(t: Try): FetchResult {
    if Fenced(t.chunk, t.env) && WorthCommitting(true, t.env.fetched.value.value) then t.env.fetched.value.value
    else NoAnswer(t.chunk)
  }

  function AnswersOf(tries: seq<Try>): (answers: seq<FetchResult>)
    ensures |answers| == |tries|
    ensures forall i :: 0 <= i < |tries| ==> answers[i] == AnswerOf(tries[i])
  {
    seq(|tries|, i requires 0 <= i < |tries| => AnswerOf(tries[i]))
  }

  lemma AnswerIsHanded(t: Try)
    ensures ReceiptsToCommit(AnswerOf(t)) == if Attempt(t).call.Some? then Attempt(t).call.value.receipts else []
    ensures AnswerOf(t).terminal.Complete? <==> CommittedComplete(t)
    ensures AnswerOf(t).intent == t.chunk
  {
    AttemptIsFenced(true, t.chunk, t.env);
  }

  lemma {:induction false} HandedIsAnswered(tries: seq<Try>)
    ensures Handed(tries) == AllReceipts(AnswersOf(tries))
  {
    if tries != [] {
      var n := |tries| - 1;
      HandedIsAnswered(tries[..n]);
      AnswerIsHanded(tries[n]);
      assert AnswersOf(tries)[..n] == AnswersOf(tries[..n]);
      assert AllReceipts(AnswersOf(tries[..n])) + [] == AllReceipts(AnswersOf(tries[..n]));
    }
  }

  lemma TriesAreAnswered(tries: seq<Try>, chunks: seq<Intent>, now: int)
    requires chunks == ChunksOf(tries) && Descends(chunks, now) && TypedAnswers(tries, now)
    requires chunks[0].identity.resolution.Exact? && CurrentVersions(chunks[0].identity)
    ensures Answers(AnswersOf(tries), chunks, now)
  {
    forall i | 0 <= i < |tries| ensures AnswerOf(tries[i]).intent == chunks[i] && IsAdmitted(AnswerOf(tries[i]), now)
      && chunks[i].identity == chunks[0].identity
    {
      AnswerIsHanded(tries[i]);
      assert i > 0 ==> chunks[i].identity == chunks[0].identity;
      assert chunks[i].Valid(now);
      NoAnswerIsAdmitted(chunks[i], now);
    }
  }

  lemma RepairIsAnswered(intent: Intent, envs: seq<Environment>, now: int)
    requires intent.Valid(now) && |envs| >= ChunksLeft(intent)
    requires intent.identity.resolution.Exact? && CurrentVersions(intent.identity)
    requires TypedAnswers(Tries(intent, envs), now)
    ensures
      var tries := Tries(intent, envs);
      && Answers(AnswersOf(tries), Walk(intent, OutcomesOf(tries)), now)
      && |Walk(intent, OutcomesOf(tries))| == |tries|
  {
    var tries := Tries(intent, envs);
    TriesWalk(intent, envs, now);
    WalkDescends(intent, OutcomesOf(tries), now);
    TriesAreAnswered(tries, Walk(intent, OutcomesOf(tries)), now);
  }

  lemma CompleteIsCommitted(tries: seq<Try>)
    ensures AllComplete(AnswersOf(tries)) <==> AllCommittedComplete(tries)
  {
    forall i | 0 <= i < |tries| ensures AnswersOf(tries)[i].terminal.Complete? <==> CommittedComplete(tries[i]) {
      AnswerIsHanded(tries[i]);
    }
  }

  /** End to end: a repair that reaches its target start has handed the commit owner
      receipts that merge to the one interval of the whole target exactly when every
      attempt handed over a complete answer. */
  lemma RepairCoversTarget(intent: Intent, envs: seq<Environment>, now: int)
    requires intent.Valid(now) && |envs| >= ChunksLeft(intent)
    requires intent.identity.resolution.Exact? && CurrentVersions(intent.identity)
    requires TypedAnswers(Tries(intent, envs), now)
    requires |Tries(intent, envs)| == ChunksLeft(intent)
    ensures Cov.IsUnion([Cov.Range(intent.targetStartsAt, intent.endsAt)], Handed(Tries(intent, envs)))
       <==> AllCommittedComplete(Tries(intent, envs))
  {
    var tries := Tries(intent, envs);
    RepairIsAnswered(intent, envs, now);
    WalkCoversTarget(intent, OutcomesOf(tries), AnswersOf(tries), now);
    HandedIsAnswered(tries);
    CompleteIsCommitted(tries);
  }
}
