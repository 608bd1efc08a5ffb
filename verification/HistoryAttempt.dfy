/** One attempt on one chunk: fetch it, check the fences again, submit it to the
    commit owner. Everything awaited is an argument, in the order it is awaited. */
module HistoryAttempt {
  import opened Wrappers
  import opened HistoryContract
  import opened HistoryChunks
  import Cov = HistoryCoverage

  /** What the commit owner is asked to store. */
  datatype CommitCall = CommitCall(
    intent: Intent,
    terminal: Terminal,
    bars: seq<HistoryBar>,
    receipts: seq<Cov.Receipt>,
    errorCode: Option<string>
  )

  /** The awaited world. A lookup says whether the persisted instrument still
      matches the route; a fetch may return something that is not a typed result. */
  datatype Environment = Environment(
    routeMatches: bool,
    storeCallable: bool,
    commitCallable: bool,
    lookup: Result<bool>,
    generation: nat,
    fetched: Result<Option<FetchResult>>,
    lookupAfter: Result<bool>,
    generationAfter: nat,
    commit: CommitCall -> Result<Outcome>
  )

  /** The outcome, and the commit call if one was made. */
  datatype Attempted = Attempted(outcome: Outcome, call: Option<CommitCall>)

  function Ended(status: OutcomeStatus, intent: Intent, code: Option<string>): Attempted {
    Attempted(BareOutcome(status, intent).(errorCode := code), None)
  }

  function EndedAfterFetch(status: OutcomeStatus, result: FetchResult, generation: Option<nat>, code: Option<string>): Attempted {
    Attempted(BareOutcome(status, result.intent).(terminal := Some(result.terminal), generation := generation,
      errorCode := code, response := result.response), None)
  }

  function Execute(authority: bool, intent: Intent, env: Environment): Attempted {
    if !env.routeMatches then Ended(StaleRoute, intent, Some("HISTORY_REPAIR_ROUTE_MISMATCH"))
    else if !env.storeCallable then Ended(StorageFailed, intent, Some("HISTORY_REPAIR_STORE_FACTORY_REQUIRED"))
    else if !env.commitCallable then Ended(CommitFailed, intent, Some("HISTORY_REPAIR_COMMIT_REQUIRED"))
    else if env.lookup.Failure? then Ended(StorageFailed, intent, Some(env.lookup.code))
    else if !env.lookup.value then Ended(StaleRoute, intent, Some("HISTORY_REPAIR_PERSISTED_ROUTE_STALE"))
    else if env.generation != intent.canonicalGeneration then
      var stale := Ended(StaleGeneration, intent, None);
      stale.(outcome := stale.outcome.(generation := Some(env.generation)))
    else if env.fetched.Failure? then Ended(FetchFailed, intent, Some(env.fetched.code))
    else if env.fetched.value.None? || env.fetched.value.value.intent != intent then
      Ended(OutcomeStatus.Malformed, intent, Some("HISTORY_REPAIR_TYPED_RESULT_MISMATCH"))
    else Submit(authority, env.fetched.value.value, env)
  }

  /** The part after a typed result arrived. */
  function Submit(authority: bool, result: FetchResult, env: Environment): Attempted {
    if result.terminal.Malformed? then EndedAfterFetch(OutcomeStatus.Malformed, result, None, result.errorCode)
    else if env.lookupAfter.Failure? then EndedAfterFetch(StorageFailed, result, None, Some(env.lookupAfter.code))
    else if !env.lookupAfter.value then
      EndedAfterFetch(StaleRoute, result, None, Some("HISTORY_REPAIR_PERSISTED_ROUTE_STALE"))
    else if env.generationAfter != result.intent.canonicalGeneration then
      EndedAfterFetch(StaleGeneration, result, Some(env.generationAfter), None)
    else if result.terminal.Complete? && authority then
      var receipts := CoverageReceipts(result);
      if receipts.Failure? then EndedAfterFetch(OutcomeStatus.Malformed, result, None, Some(receipts.code))
      else Commit(result, receipts.value, env)
    else if result.terminal.RollingComplete? && result.bars == [] then
      EndedAfterFetch(NoChange, result, Some(env.generationAfter), None)
    else if !result.terminal.Complete? && result.bars == [] then
      EndedAfterFetch(OutcomeStatus.Incomplete, result, None, result.errorCode)
    else Commit(result, [], env)
  }

  function Commit(result: FetchResult, receipts: seq<Cov.Receipt>, env: Environment): Attempted {
    var call := CommitCall(result.intent, result.terminal, result.bars, receipts, result.errorCode);
    var reply := env.commit(call);
    if reply.Failure? then
      EndedAfterFetch(CommitFailed, result, None, Some(reply.code)).(call := Some(call))
    else if reply.value.intent != result.intent then
      EndedAfterFetch(CommitFailed, result, None, Some("HISTORY_REPAIR_COMMIT_OUTCOME_MISMATCH")).(call := Some(call))
    else Attempted(reply.value.(response := result.response), Some(call))
  }

  /** Both fences held around the fetch, and the result is about this very intent. */
  predicate Fenced(intent: Intent, env: Environment) {
    && env.routeMatches && env.storeCallable && env.commitCallable
    && env.lookup == Success(true) && env.lookupAfter == Success(true)
    && env.generation == env.generationAfter == intent.canonicalGeneration
    && env.fetched.Success? && env.fetched.value.Some? && env.fetched.value.value.intent == intent
  }

  /** There is something for the commit owner to decide on. */
  predicate WorthCommitting(authority: bool, result: FetchResult) {
    && !result.terminal.Malformed?
    && (if result.terminal.Complete? then authority ==> CoverageReceipts(result).Success?
        else result.bars != [])
  }

  /** An attempt always reports about its own intent; it reaches the commit owner
      exactly when both fences held and there is something to commit; and it hands
      over exactly the fetched bars, with receipts only for an authoritative
      complete result. */
  lemma AttemptIsFenced(authority: bool, intent: Intent, env: Environment)
    ensures
      var attempted := Execute(authority, intent, env);
      && attempted.outcome.intent == intent
      && (attempted.call.Some? <==> Fenced(intent, env) && WorthCommitting(authority, env.fetched.value.value))
      && (attempted.call.Some? ==>
            var result := env.fetched.value.value;
            attempted.call.value == CommitCall(intent, result.terminal, result.bars,
              if authority then ReceiptsToCommit(result) else [], result.errorCode))
  {
  }

  /** A walk moves past a chunk only after the commit owner was asked about it and
      answered for this very chunk. */
  lemma OnlyCommitsAdvance(authority: bool, intent: Intent, env: Environment)
    requires Continuation(intent, Execute(authority, intent, env).outcome).Some?
    ensures
      var attempted := Execute(authority, intent, env);
      && attempted.call.Some?
      && env.commit(attempted.call.value).Success?
      && env.commit(attempted.call.value).value == attempted.outcome.(response := env.commit(attempted.call.value).value.response)
  {
    AttemptIsFenced(authority, intent, env);
  }

  /** A chunk that came back complete under exact authority is committed with
      receipts for exactly its own instants. */
  lemma CommittedReceiptsCoverChunk(intent: Intent, env: Environment, now: int, t: int)
    requires Execute(true, intent, env).call.Some?
    requires intent.identity.resolution.Exact? && CurrentVersions(intent.identity)
    requires IsAdmitted(env.fetched.value.value, now)
    ensures
      var call := Execute(true, intent, env).call.value;
      Cov.Covered(t, call.receipts) <==> call.terminal.Complete? && ChunkHolds(intent, t)
  {
    AttemptIsFenced(true, intent, env);
    var result := env.fetched.value.value;
    if result.terminal.Complete? {
      CompleteResultCoversChunk(result, now);
      assert Cov.Covered(t, CoverageReceipts(result).value) <==> ChunkHolds(result.intent, t);
    }
  }

  // ----- how an attempt ends -----------------------------------------------

  /** The route still exists, and everything needed can be called. */
  predicate Opens(env: Environment) {
    env.routeMatches && env.storeCallable && env.commitCallable && env.lookup == Success(true)
  }

  predicate Fetches(intent: Intent, env: Environment) {
    Opens(env) && env.generation == intent.canonicalGeneration
  }

  /** A typed answer about this intent came back, and it is not malformed. */
  predicate Answered(intent: Intent, env: Environment) {
    && Fetches(intent, env) && env.fetched.Success? && env.fetched.value.Some?
    && env.fetched.value.value.intent == intent && !env.fetched.value.value.terminal.Malformed?
  }

  /** An answer under exact authority whose completions do not tile the chunk. */
  predicate Untiled(authority: bool, intent: Intent, env: Environment) {
    && Answered(intent, env) && Fenced(intent, env) && authority
    && env.fetched.value.value.terminal.Complete? && CoverageReceipts(env.fetched.value.value).Failure?
  }

  /** The answer holds no bars, and is not a complete one. */
  predicate Empty(intent: Intent, env: Environment) {
    Answered(intent, env) && Fenced(intent, env) && !env.fetched.value.value.terminal.Complete? && env.fetched.value.value.bars == []
  }

  /** An attempt that never got to the commit owner: what it met first decides how it
      ends, and with these seven endings every case is taken. */
  lemma EndsBeforeCommit(authority: bool, intent: Intent, env: Environment)
    requires Execute(authority, intent, env).call.None?
    ensures
      var status := Execute(authority, intent, env).outcome.status;
      && (status.FetchFailed? <==> Fetches(intent, env) && env.fetched.Failure?)
      && (status.StaleGeneration? <==>
            || (Opens(env) && env.generation != intent.canonicalGeneration)
            || (Answered(intent, env) && env.lookupAfter == Success(true) && env.generationAfter != intent.canonicalGeneration))
      && (status.StaleRoute? <==>
            || !env.routeMatches
            || (env.storeCallable && env.commitCallable && env.lookup == Success(false))
            || (Answered(intent, env) && env.lookupAfter == Success(false)))
      && (status.StorageFailed? <==>
            || (env.routeMatches && (!env.storeCallable || (env.commitCallable && env.lookup.Failure?)))
            || (Answered(intent, env) && env.lookupAfter.Failure?))
      && (status.CommitFailed? <==> env.routeMatches && env.storeCallable && !env.commitCallable)
      && (status.Malformed? <==>
            || (Fetches(intent, env) && env.fetched.Success? && !Answered(intent, env))
            || Untiled(authority, intent, env))
      && (status.NoChange? <==> Empty(intent, env) && env.fetched.value.value.terminal.RollingComplete?)
      && (status.Incomplete? <==> Empty(intent, env) && !env.fetched.value.value.terminal.RollingComplete?)
  {
    if Answered(intent, env) {
      AnsweredEnds(authority, intent, env);
    } else {
      UnansweredEnds(authority, intent, env);
    }
  }

  /** Before a usable answer. */
  lemma UnansweredEnds(authority: bool, intent: Intent, env: Environment)
    requires !Answered(intent, env)
    ensures Execute(authority, intent, env).outcome.status ==
      if !env.routeMatches then StaleRoute
      else if !env.storeCallable then StorageFailed
      else if !env.commitCallable then CommitFailed
      else if env.lookup.Failure? then StorageFailed
      else if !env.lookup.value then StaleRoute
      else if env.generation != intent.canonicalGeneration then StaleGeneration
      else if env.fetched.Failure? then FetchFailed
      else OutcomeStatus.Malformed
  {
  }

  /** After one, before the commit owner. */
  lemma AnsweredEnds(authority: bool, intent: Intent, env: Environment)
    requires Answered(intent, env) && Execute(authority, intent, env).call.None?
    ensures Execute(authority, intent, env).outcome.status ==
      if env.lookupAfter.Failure? then StorageFailed
      else if !env.lookupAfter.value then StaleRoute
      else if env.generationAfter != intent.canonicalGeneration then StaleGeneration
      else if env.fetched.value.value.terminal.Complete? then OutcomeStatus.Malformed
      else if env.fetched.value.value.terminal.RollingComplete? then NoChange
      else OutcomeStatus.Incomplete
    ensures env.lookupAfter == Success(true) && env.generationAfter == intent.canonicalGeneration ==>
      Untiled(authority, intent, env) || Empty(intent, env)
  {
  }

  /** An attempt that did get there ends as the owner replied, or as a failed commit
      if the owner raised or replied about something else. */
  lemma EndsAsCommitted(authority: bool, intent: Intent, env: Environment)
    requires Execute(authority, intent, env).call.Some?
    ensures
      var attempted := Execute(authority, intent, env);
      var reply := env.commit(attempted.call.value);
      attempted.outcome.status ==
        if reply.Success? && reply.value.intent == intent then reply.value.status else CommitFailed
  {
    AttemptIsFenced(authority, intent, env);
  }

  /** What a typed answer said is reported however the attempt goes on: its range with
      every ending, its terminal with every ending before the commit; a failure carries
      its own code, and a stale ending the generation that was met. */
  lemma AnswerIsReported(authority: bool, intent: Intent, env: Environment)
    requires Fetches(intent, env) && env.fetched.Success? && env.fetched.value.Some? && env.fetched.value.value.intent == intent
    ensures
      var attempted, result := Execute(authority, intent, env), env.fetched.value.value;
      && attempted.outcome.response == result.response
      && (attempted.call.None? ==> attempted.outcome.terminal == Some(result.terminal))
      && (result.terminal.Malformed? ==> attempted.outcome.errorCode == result.errorCode)
      && (attempted.call.None? && attempted.outcome.status.StaleGeneration? ==>
            attempted.outcome.generation == Some(env.generationAfter))
  {
  }

  lemma FailureIsReported(authority: bool, intent: Intent, env: Environment)
    requires Fetches(intent, env) && env.fetched.Failure?
    ensures Execute(authority, intent, env).outcome.errorCode == Some(env.fetched.code)
    ensures Execute(authority, intent, env).outcome.intent == intent
  {
  }
}
