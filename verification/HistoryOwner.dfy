/** The commit owner never reports a partial answer as committed, so a repair only
    moves past chunks that are complete. */
module HistoryOwner {
  import opened Wrappers
  import opened HistoryContract
  import opened HistoryChunks
  import opened HistoryAttempt
  import opened HistoryRuns
  import Cov = HistoryCoverage

  // ----- the owner's reply -------------------------------------------------

  /** How the serialized commit lane settled a request. */
  datatype LaneStatus = Stored | Unchanged | OldGeneration | OldRoute | LaneFull | LaneFailed

  datatype LaneReceipt = LaneReceipt(written: nat, deleted: nat, coverageInserted: nat, coverageExpanded: bool)

  datatype LaneOutcome = LaneOutcome(status: LaneStatus, receipt: Option<LaneReceipt>, generation: Option<nat>)

  function StatusOf(status: LaneStatus): OutcomeStatus {
    match status
    case Stored => OutcomeStatus.Committed
    case Unchanged => NoChange
    case OldGeneration => StaleGeneration
    case OldRoute => StaleRoute
    case LaneFull => CommitQueueFull
    case LaneFailed => CommitFailed
  }

  /** The answer holds only part of what was asked for. */
  predicate Partial(terminal: Terminal) {
    terminal.Incomplete? || terminal.RollingPartial?
  }

  /** Success of the lane on a partial answer is reported as incomplete. */
  function OwnerReply(call: CommitCall, lane: Result<LaneOutcome>): Result<Outcome> {
    if lane.Failure? then Failure(lane.code)
    else
      var status := StatusOf(lane.value.status);
      var reported := if (status.Committed? || status.NoChange?) && Partial(call.terminal) then OutcomeStatus.Incomplete else status;
      var receipt := if lane.value.receipt.Some? then lane.value.receipt.value else LaneReceipt(0, 0, 0, false);
      Success(Outcome(reported, call.intent, Some(call.terminal), receipt.written, receipt.deleted,
        receipt.coverageInserted, receipt.coverageExpanded, lane.value.generation, call.errorCode, None))
  }

  /** Every commit of this environment goes through the owner. */
  ghost predicate Owned(env: Environment) {
    forall call :: exists lane :: env.commit(call) == OwnerReply(call, lane)
  }

  /** Adapters answer with a rolling terminal only when asked for a rolling range. */
  predicate TerminalFits(intent: Intent, env: Environment) {
    Fenced(intent, env) && intent.identity.resolution.Exact? ==>
      !env.fetched.value.value.terminal.RollingComplete? && !env.fetched.value.value.terminal.RollingPartial?
  }

  // ----- one attempt -------------------------------------------------------

  /** What the owner's reply says about the call it answers. */
  lemma OwnedReply(env: Environment, call: CommitCall)
    requires Owned(env) && env.commit(call).Success?
    ensures
      var reply := env.commit(call).value;
      && reply.intent == call.intent && reply.terminal == Some(call.terminal)
      && (reply.status.Committed? || reply.status.NoChange? ==> !Partial(call.terminal))
  {
    var lane :| env.commit(call) == OwnerReply(call, lane);
  }

  /** A partial answer ends the walk, and its chunk stays part of what remains,
      whatever was stored of it. */
  lemma PartialAnswerStops(authority: bool, intent: Intent, env: Environment)
    requires Owned(env) && intent.Nested()
    requires Fenced(intent, env) && Partial(env.fetched.value.value.terminal)
    ensures
      var outcome := Execute(authority, intent, env).outcome;
      Continuation(intent, outcome).None? && outcome.RemainingRange() == Some((intent.targetStartsAt, intent.endsAt))
  {
    var attempted := Execute(authority, intent, env);
    AttemptIsFenced(authority, intent, env);
    if attempted.call.Some? && env.commit(attempted.call.value).Success? {
      OwnedReply(env, attempted.call.value);
    }
  }

  /** An attempt that lets the walk advance handed a complete answer to the owner,
      and reports it. */
  lemma AdvancedIsComplete(intent: Intent, env: Environment)
    requires Owned(env) && TerminalFits(intent, env) && intent.identity.resolution.Exact?
    requires Advances(Execute(true, intent, env).outcome)
    ensures
      var attempted := Execute(true, intent, env);
      && attempted.call.Some? && attempted.call.value.terminal.Complete?
      && attempted.outcome.ChunkComplete()
  {
    var attempted := Execute(true, intent, env);
    AttemptIsFenced(true, intent, env);
    if attempted.call.Some? && env.commit(attempted.call.value).Success? {
      OwnedReply(env, attempted.call.value);
    }
  }

  /** After every attempt that advances, what remains is exactly the chunks still to
      come. */
  lemma AdvancedLeavesTheRest(intent: Intent, env: Environment, now: int)
    requires intent.Valid(now) && Owned(env) && TerminalFits(intent, env) && intent.identity.resolution.Exact?
    requires Advances(Execute(true, intent, env).outcome)
    ensures
      var outcome := Execute(true, intent, env).outcome;
      outcome.RemainingRange() == match Continuation(intent, outcome)
        case None => None
        case Some(next) => Some((next.targetStartsAt, next.endsAt))
  {
    var outcome := Execute(true, intent, env).outcome;
    AttemptIsFenced(true, intent, env);
    AdvancedIsComplete(intent, env);
    RemainingIsStillToCome(intent, outcome, now);
  }

  // ----- a whole repair ----------------------------------------------------

  ghost predicate AllOwned(tries: seq<Try>) {
    forall i :: 0 <= i < |tries| ==> Owned(tries[i].env) && TerminalFits(tries[i].chunk, tries[i].env)
  }

  predicate Advanced(t: Try) {
    Advances(Attempt(t).outcome)
  }

  /** Every attempt but the last one advanced, and all are about exact ranges. */
  lemma {:induction false} EarlierAdvanced(intent: Intent, envs: seq<Environment>, i: nat)
    requires intent.identity.resolution.Exact? && i < |Tries(intent, envs)|
    ensures Tries(intent, envs)[i].chunk.identity == intent.identity
    ensures i < |Tries(intent, envs)| - 1 ==> Advanced(Tries(intent, envs)[i])
    decreases |envs|
  {
    if i > 0 {
      EarlierAdvanced(Continuation(intent, Attempt(Try(intent, envs[0])).outcome).value, envs[1..], i - 1);
    }
  }

  lemma EveryTryIsCommitted(intent: Intent, envs: seq<Environment>)
    requires intent.identity.resolution.Exact? && AllOwned(Tries(intent, envs))
    requires Tries(intent, envs) != [] ==> Advanced(Tries(intent, envs)[|Tries(intent, envs)| - 1])
    ensures AllCommittedComplete(Tries(intent, envs))
  {
    var tries := Tries(intent, envs);
    forall i | 0 <= i < |tries| ensures CommittedComplete(tries[i]) {
      EarlierAdvanced(intent, envs, i);
      AdvancedIsCommitted(tries[i]);
    }
  }

  lemma AdvancedIsCommitted(t: Try)
    requires Owned(t.env) && TerminalFits(t.chunk, t.env) && t.chunk.identity.resolution.Exact? && Advanced(t)
    ensures CommittedComplete(t)
  {
    AdvancedIsComplete(t.chunk, t.env);
  }

  /** A repair of a whole target that gets to its start and whose last attempt
      advanced too has handed over receipts of exactly the target. */
  lemma FinishedRepairCoversTarget(intent: Intent, envs: seq<Environment>, now: int)
    requires intent.Valid(now) && intent.endsAt == intent.targetEndsAt && |envs| >= ChunksLeft(intent)
    requires intent.identity.resolution.Exact? && CurrentVersions(intent.identity)
    requires TypedAnswers(Tries(intent, envs), now) && AllOwned(Tries(intent, envs))
    requires |Tries(intent, envs)| == ChunksLeft(intent)
    requires Tries(intent, envs) != [] ==> Advanced(Tries(intent, envs)[|Tries(intent, envs)| - 1])
    ensures Cov.IsUnion([Cov.Range(intent.targetStartsAt, intent.targetEndsAt)], Handed(Tries(intent, envs)))
  {
    EveryTryIsCommitted(intent, envs);
    RepairCoversTarget(intent, envs, now);
  }

  /** Attempts that all advance get to the target start, so they cover the target. */
  lemma AdvancingRepairCoversTarget(intent: Intent, envs: seq<Environment>, now: int)
    requires intent.Valid(now) && intent.endsAt == intent.targetEndsAt && |envs| >= ChunksLeft(intent)
    requires intent.identity.resolution.Exact? && CurrentVersions(intent.identity)
    requires TypedAnswers(Tries(intent, envs), now) && AllOwned(Tries(intent, envs))
    requires forall i :: 0 <= i < |Tries(intent, envs)| ==> Advanced(Tries(intent, envs)[i])
    ensures Cov.IsUnion([Cov.Range(intent.targetStartsAt, intent.targetEndsAt)], Handed(Tries(intent, envs)))
  {
    AdvancingTries(intent, envs, now);
    FinishedRepairCoversTarget(intent, envs, now);
  }

  lemma {:induction false} AdvancingTries(intent: Intent, envs: seq<Environment>, now: int)
    requires intent.Valid(now) && intent.identity.resolution.Exact? && |envs| >= ChunksLeft(intent)
    requires forall i :: 0 <= i < |Tries(intent, envs)| ==> Advanced(Tries(intent, envs)[i])
    ensures |Tries(intent, envs)| == ChunksLeft(intent)
    decreases |envs|
  {
    ChunksLeftPositive(intent);
    var tries, first := Tries(intent, envs), Try(intent, envs[0]);
    var next := Continuation(intent, Attempt(first).outcome);
    assert Advanced(tries[0]);
    if next.Some? {
      ContinuationIsLegal(intent, Attempt(first).outcome, now);
      var rest := Tries(next.value, envs[1..]);
      assert tries == [first] + rest;
      forall i | 0 <= i < |rest| ensures Advanced(rest[i]) {
        assert rest[i] == tries[i + 1];
      }
      AdvancingTries(next.value, envs[1..], now);
    }
  }

  // ----- a terminal that does not fit --------------------------------------

  /** The result constructor itself lets a rolling terminal through for an exact
      range; such an answer would count as complete and hand over no receipt. That
      it never arrives is up to the adapters. */
  lemma MisfitIsAdmitted(intent: Intent)
    requires intent.identity.resolution.Exact?
    ensures
      var raw := RawResult(intent, Terminal.RollingComplete, [], [], None, None, None);
      && raw.Admissible() && ReceiptsToCommit(Admitted(raw)) == []
      && BareOutcome(NoChange, intent).(terminal := Some(raw.terminal)).ChunkComplete()
  {
    var raw := RawResult(intent, Terminal.RollingComplete, [], [], None, None, None);
    assert raw.BarsAdmissible() && raw.Resolves() && raw.ResponseOrdered() && raw.ExactAdmissible();
  }

  // ----- what the owner reports about progress -----------------------------

  /** The owner's report counts as no progress exactly when the lane changed nothing,
      or stored part of an answer, and the receipt shows nothing written, deleted or
      newly covered. */
  lemma OwnerReportsProgress(call: CommitCall, lane: Result<LaneOutcome>)
    requires lane.Success?
    ensures
      var reply, receipt := OwnerReply(call, lane).value, lane.value.receipt;
      var idle := receipt.None? || (receipt.value.written == 0 && receipt.value.deleted == 0 && !receipt.value.coverageExpanded);
      var partial := call.terminal.Incomplete? || call.terminal.RollingPartial?;
      && ((reply.status.NoChange? || reply.status.Incomplete? || reply.status.Malformed?)
            && reply.writtenBars == 0 && reply.deletedBars == 0 && !reply.coverageExpanded
          <==> idle && (lane.value.status.Unchanged? || (lane.value.status.Stored? && partial)))
      && reply.status == (match lane.value.status
           case Stored => if partial then OutcomeStatus.Incomplete else OutcomeStatus.Committed
           case Unchanged => if partial then OutcomeStatus.Incomplete else NoChange
           case OldGeneration => StaleGeneration
           case OldRoute => StaleRoute
           case LaneFull => CommitQueueFull
           case LaneFailed => CommitFailed)
      && reply.generation == lane.value.generation && reply.intent == call.intent && reply.terminal == Some(call.terminal)
  {
  }
}
