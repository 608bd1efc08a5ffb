/** The orchestrator object itself: fields updated in place, one method per locked
    region, each refining a step of the lane specification. */
module RepairOrchestrator {
  import opened Wrappers
  import opened HistoryContract
  import opened RepairLane
  import opened RepairLaneInvariant

  class HistoryRepairOrchestrator {
    var tasks: map<RepairKey, Request>
    var nextAllowed: map<RepairKey, nat>
    var awaitingGeneration: map<CursorKey, nat>
    var pending: map<string, seq<Request>>
    var callbacks: map<RepairKey, seq<Callback>>
    var outcomes: seq<Outcome>

    function State(): Lane
      reads this
    {
      Lane(tasks, pending, callbacks, outcomes, nextAllowed, awaitingGeneration)
    }

    constructor ()
      ensures State() == EMPTY_LANE && Inv(State())
    {
      tasks, nextAllowed, awaitingGeneration, pending, callbacks, outcomes := map[], map[], map[], map[], map[], [];
    }

    method RememberOutcomeLocked(outcome: Outcome)
      modifies this`outcomes
      ensures outcomes == Remember(old(outcomes), outcome)
    {
      outcomes := Without(outcomes, KeyOf(outcome.intent));
      outcomes := outcomes + [outcome];
      ghost var all := outcomes;
      while |outcomes| > MAX_OUTCOMES
        invariant 1 <= |outcomes| <= |all| && outcomes == all[|all| - |outcomes|..]
        invariant |all| > MAX_OUTCOMES ==> |outcomes| >= MAX_OUTCOMES
        invariant |all| <= MAX_OUTCOMES ==> outcomes == all
      {
        outcomes := outcomes[1..];
      }
    }

    /** The stored outcome of exactly this intent, refreshed as most recently used. */
    method LatestOutcome(intent: Intent) returns (r: Option<Outcome>)
      requires OutcomesOk(outcomes)
      modifies this`outcomes
      ensures OutcomesOk(outcomes) && multiset(outcomes) == multiset(old(outcomes))
      ensures r.None? ==> outcomes == old(outcomes) && forall o :: o in outcomes ==> KeyOf(o.intent) != KeyOf(intent)
      ensures r.Some? ==> r.value in old(outcomes) && KeyOf(r.value.intent) == KeyOf(intent)
      ensures r.Some? ==> outcomes == Without(old(outcomes), KeyOf(intent)) + [r.value]
    {
      var key := KeyOf(intent);
      r := None;
      for i := 0 to |outcomes|
        invariant outcomes == old(outcomes)
        invariant forall j :: 0 <= j < i ==> KeyOf(outcomes[j].intent) != key
      {
        if KeyOf(outcomes[i].intent) == key {
          r := Some(outcomes[i]);
          WithoutSplits(outcomes, i);
          WithoutFacts(outcomes, key);
          assert outcomes == outcomes[..i] + [outcomes[i]] + outcomes[i + 1..];
          outcomes := Without(outcomes, key) + [outcomes[i]];
          forall a | 0 <= a < |outcomes| - 1 ensures KeyOf(outcomes[a].intent) != key {
            assert outcomes[a] in Without(old(outcomes), key);
          }
          return;
        }
      }
    }

    method SubscribeLocked(taskKey: RepairKey, callback: Option<Callback>) returns (subscribed: bool)
      modifies this`callbacks
      ensures (callbacks, subscribed) == Subscribe(old(callbacks), taskKey, callback)
    {
      if callback.None? {
        return false;
      }
      var waiting := WaitingAt(callbacks, taskKey);
      if |waiting| >= MAX_CALLBACKS {
        return false;
      }
      callbacks := callbacks[taskKey := waiting + [callback.value]];
      subscribed := true;
    }

    method StartLocked(request: Request)
      modifies this`tasks
      ensures tasks == old(tasks)[request.taskKey := request]
    {
      tasks := tasks[request.taskKey := request];
    }

    method PopNextLocked(provider: string) returns (next: Option<Request>)
      modifies this`pending
      ensures
        var queue := PendingOf(old(State()), provider);
        if queue == [] then next.None? && pending == old(pending) - {provider}
        else
          && next == Some(queue[0])
          && pending == if |queue| == 1 then old(pending) - {provider} else old(pending)[provider := queue[1..]]
    {
      if provider !in pending || pending[provider] == [] {
        pending := pending - {provider};
        return None;
      }
      var queue := pending[provider];
      next := Some(queue[0]);
      if |queue| == 1 {
        pending := pending - {provider};
      } else {
        pending := pending[provider := queue[1..]];
      }
    }

    /** Drops the generation blocks a newer generation of the chart lifts. */
    method LiftBlocksLocked(intent: Intent)
      modifies this`awaitingGeneration
      ensures awaitingGeneration == LiftBlocks(old(awaitingGeneration), intent)
    {
      var todo := awaitingGeneration.Keys;
      while todo != {}
        invariant todo <= awaitingGeneration.Keys
        invariant awaitingGeneration == map k | k in old(awaitingGeneration)
          && (k in todo || !Outdated(k, old(awaitingGeneration)[k], intent)) :: old(awaitingGeneration)[k]
        decreases |todo|
      {
        var key :| key in todo;
        if Outdated(key, awaitingGeneration[key], intent) {
          awaitingGeneration := awaitingGeneration - {key};
        }
        todo := todo - {key};
      }
    }

    /** Drops the cooldowns that have passed and belong to no running request. */
    method ExpireCooldownsLocked(now: nat)
      modifies this`nextAllowed
      ensures nextAllowed == LiveCooldowns(old(nextAllowed), tasks, now)
    {
      var todo := nextAllowed.Keys;
      while todo != {}
        invariant todo <= nextAllowed.Keys
        invariant nextAllowed == map k | k in old(nextAllowed)
          && (k in todo || !(old(nextAllowed)[k] <= now && k !in tasks)) :: old(nextAllowed)[k]
        decreases |todo|
      {
        var key :| key in todo;
        if nextAllowed[key] <= now && key !in tasks {
          nextAllowed := nextAllowed - {key};
        }
        todo := todo - {key};
      }
    }

    /** Searches a queue from its end for background work. */
    method FindEvictable(queue: seq<Request>) returns (r: Option<nat>)
      ensures r == LastBackground(queue)
    {
      var i := |queue|;
      while i > 0
        invariant 0 <= i <= |queue|
        invariant LastBackground(queue) == LastBackground(queue[..i])
      {
        if queue[i - 1].intent.priority.Background? {
          assert queue[..i][i - 1] == queue[i - 1];
          return Some(i - 1);
        }
        assert queue[..i][..i - 1] == queue[..i - 1];
        i := i - 1;
      }
      assert queue[..0] == [];
      r := None;
    }

    /** Refreshes a queued request that is asked for again. */
    method JoinPendingLocked(request: Request, onComplete: Option<Callback>) returns (admission: Admission)
      requires Queues(PendingOf(State(), request.intent.provider), request.taskKey)
      modifies this`pending, this`callbacks
      ensures Step(State(), admission, []) == JoinQueued(old(State()), request, onComplete)
    {
      var intent, provider := request.intent, request.intent.provider;
      var queue := pending[provider];
      var i := IndexOf(queue, request.taskKey);
      var existing := queue[i];
      if intent.priority.Rank() < existing.intent.priority.Rank() {
        queue := queue[i := existing.(intent := intent,
          timeout := if existing.timeout < request.timeout then existing.timeout else request.timeout,
          fetch := request.fetch, commit := request.commit, store := request.store)];
        queue := Prioritize(queue);
      }
      pending := pending[provider := queue];
      var subscribed := SubscribeLocked(request.taskKey, onComplete);
      admission := Admission(Queued, intent, false, subscribed, 0);
    }

    /** Queues a new request behind a busy lane, evicting background work if it must. */
    method EnqueueLocked(request: Request, onComplete: Option<Callback>)
      returns (admission: Admission, superseded: seq<Delivery>)
      modifies this`pending, this`callbacks, this`outcomes
      ensures Step(State(), admission, superseded) == Enqueue(old(State()), request, onComplete)
    {
      var intent, provider := request.intent, request.intent.provider;
      var queue := if provider in pending then pending[provider] else [];
      superseded := [];
      if |queue| >= MAX_PENDING {
        var evictable: Option<nat> := None;
        if intent.priority.Foreground? {
          evictable := FindEvictable(queue);
        }
        if evictable.None? {
          return Admission(QueueFull, intent, false, false, 0), [];
        }
        var evicted := queue[evictable.value];
        queue := Removed(queue, evictable.value);
        var outcome := BareOutcome(Superseded, evicted.intent);
        RememberOutcomeLocked(outcome);
        superseded := Deliver(evicted.taskKey, WaitingAt(callbacks, evicted.taskKey), outcome);
        callbacks := callbacks - {evicted.taskKey};
      }
      pending := pending[provider := Prioritize(queue + [request])];
      outcomes := Without(outcomes, request.taskKey);
      var subscribed := SubscribeLocked(request.taskKey, onComplete);
      admission := Admission(Queued, intent, true, subscribed, 0);
    }

    /** The locked region of `schedule`. */
    method ScheduleLocked(request: Request, onComplete: Option<Callback>, now: nat)
      returns (admission: Admission, superseded: seq<Delivery>)
      requires request.taskKey == KeyOf(request.intent)
      modifies this
      ensures Step(State(), admission, superseded) == Schedule(old(State()), request, onComplete, now)
    {
      var intent, taskKey, subscribed := request.intent, request.taskKey, false;
      superseded := [];
      LiftBlocksLocked(intent);
      if CursorOf(intent) in awaitingGeneration && intent.canonicalGeneration <= awaitingGeneration[CursorOf(intent)] {
        return Admission(AwaitingGenerationAdvance, intent, false, false, 0), [];
      }
      ExpireCooldownsLocked(now);
      if taskKey in tasks {
        subscribed := SubscribeLocked(taskKey, onComplete);
        return Admission(Running, intent, false, subscribed, 0), [];
      }
      if Queues(PendingOf(State(), intent.provider), taskKey) {
        admission := JoinPendingLocked(request, onComplete);
        return;
      }
      if taskKey in nextAllowed && now < nextAllowed[taskKey] {
        return Admission(Throttled, intent, false, false, nextAllowed[taskKey] - now), [];
      }
      if exists k :: k in tasks && k.Provider() == intent.provider {
        admission, superseded := EnqueueLocked(request, onComplete);
        return;
      }
      subscribed := SubscribeLocked(taskKey, onComplete);
      outcomes := Without(outcomes, taskKey);
      StartLocked(request);
      admission := Admission(Scheduled, intent, true, subscribed, 0);
    }

    /** Admission of one request; `superseded` are the callbacks of an evicted one.
        Arguments that are not of their type, or not callable, are absent. */
    method ScheduleRepair(provider: string, exactAuthority: Option<bool>, routeMatches: bool, instrument: nat, intent: Intent,
                          timeout: Option<int>, fetch: Option<nat>, commit: Option<nat>, store: Option<nat>,
                          onComplete: Option<Callback>, now: nat)
      returns (r: Result<Admission>, superseded: seq<Delivery>)
      requires Inv(State()) && intent.Nested()
      modifies this
      ensures Inv(State())
      ensures r.Failure? <==>
        || exactAuthority.None? || provider != intent.provider || !routeMatches
        || fetch.None? || commit.None? || store.None? || timeout.None? || timeout.value <= 0
      ensures r.Failure? ==> State() == old(State()) && superseded == []
      ensures r.Success? ==>
        var request := Request(KeyOf(intent), exactAuthority.value, instrument, intent, timeout.value,
          fetch.value, commit.value, store.value);
        Step(State(), r.value, superseded) == Schedule(old(State()), request, onComplete, now)
    {
      var error := Refusal(provider, exactAuthority, routeMatches, intent, timeout, fetch, commit, store);
      if error.Some? {
        return Failure(error.value), [];
      }
      var request := Request(KeyOf(intent), exactAuthority.value, instrument, intent, timeout.value,
        fetch.value, commit.value, store.value);
      var admission: Admission;
      ghost var before := State();
      admission, superseded := ScheduleLocked(request, onComplete, now);
      ScheduleKeeps(before, request, onComplete, now);
      r := Success(admission);
    }

    /** The checks before the lock is taken, in the source's order. */
    method Refusal(provider: string, exactAuthority: Option<bool>, routeMatches: bool, intent: Intent,
                   timeout: Option<int>, fetch: Option<nat>, commit: Option<nat>, store: Option<nat>)
      returns (error: Option<string>)
      ensures error.Some? <==>
        || exactAuthority.None? || provider != intent.provider || !routeMatches
        || fetch.None? || commit.None? || store.None? || timeout.None? || timeout.value <= 0
    {
      if exactAuthority.None? {
        return Some("HISTORY_REPAIR_SNAPSHOT_AUTHORITY_BOOL_REQUIRED");
      }
      if provider != intent.provider || !routeMatches {
        return Some("HISTORY_REPAIR_ROUTE_MISMATCH");
      }
      if fetch.None? {
        return Some("HISTORY_REPAIR_FETCH_REQUIRED");
      }
      if commit.None? {
        return Some("HISTORY_REPAIR_COMMIT_REQUIRED");
      }
      if store.None? {
        return Some("HISTORY_REPAIR_STORE_FACTORY_REQUIRED");
      }
      if timeout.None? || timeout.value <= 0 {
        return Some("HISTORY_REPAIR_TIMEOUT_INVALID");
      }
      error := None;
    }

    /** Cancels everything a provider has queued. */
    method FlushPendingLocked(provider: string) returns (completions: seq<Delivery>)
      modifies this`pending, this`callbacks, this`outcomes
      ensures Finished(State(), completions) ==
        Flush(old(State()).(pending := old(pending) - {provider}), PendingOf(old(State()), provider))
    {
      var queue := if provider in pending then pending[provider] else [];
      pending := pending - {provider};
      completions := [];
      ghost var emptied := State();
      var i := 0;
      while i < |queue|
        invariant 0 <= i <= |queue|
        invariant Prepend(completions, Flush(State(), queue[i..])) == Flush(emptied, queue)
      {
        ghost var before := State();
        FlushAdvances(before, queue, i, completions);
        var lost := BareOutcome(Cancelled, queue[i].intent);
        completions := completions + Deliver(queue[i].taskKey, WaitingAt(callbacks, queue[i].taskKey), lost);
        RememberOutcomeLocked(lost);
        callbacks := callbacks - {queue[i].taskKey};
        assert State() == Dropped(before, queue[i]);
        i := i + 1;
      }
    }

    /** The locked region at the end of a run: `attempt` is the outcome, or nothing
        when the run was cancelled while awaiting it. */
    method FinishLocked(request: Request, attempt: Option<Outcome>, now: nat) returns (completions: seq<Delivery>)
      modifies this
      ensures Finished(State(), completions) ==
        if attempt.Some? then Finish(old(State()), request, attempt.value, now)
        else Cancel(old(State()), request, now)
    {
      var provider := request.intent.provider;
      var outcome := if attempt.None? then BareOutcome(Cancelled, request.intent) else attempt.value;
      var continuation := if attempt.None? then None else NextRequest(request, outcome);
      RememberOutcomeLocked(outcome);
      if TerminalNoProgress(outcome) {
        awaitingGeneration := awaitingGeneration[CursorOf(request.intent) := request.intent.canonicalGeneration];
      }
      nextAllowed := nextAllowed[request.taskKey := now + Cooldown(request.intent, outcome)];
      tasks := tasks - {request.taskKey};
      completions := Deliver(request.taskKey, WaitingAt(callbacks, request.taskKey), outcome);
      callbacks := callbacks - {request.taskKey};
      assert State() == Settle(old(State()), request, outcome, now);
      if attempt.None? {
        var lost := FlushPendingLocked(provider);
        completions := completions + lost;
      } else {
        var next := continuation;
        if next.None? {
          next := PopNextLocked(provider);
        }
        if next.Some? {
          StartLocked(next.value);
        }
      }
    }

    /** A run ends: the lane keeps its invariant and moves on. */
    method FinishRun(request: Request, attempt: Option<Outcome>, now: nat) returns (completions: seq<Delivery>)
      requires Inv(State()) && request.taskKey in tasks && tasks[request.taskKey] == request
      requires attempt.Some? ==> attempt.value.intent == request.intent
      modifies this
      ensures Inv(State())
      ensures Finished(State(), completions) ==
        if attempt.Some? then Finish(old(State()), request, attempt.value, now)
        else Cancel(old(State()), request, now)
    {
      ghost var before := State();
      completions := FinishLocked(request, attempt, now);
      if attempt.Some? {
        FinishKeeps(before, request, attempt.value, now);
      } else {
        CancelKeeps(before, request, now);
      }
    }
  }

  function Prepend(deliveries: seq<Delivery>, rest: Finished): Finished {
    Finished(rest.lane, deliveries + rest.deliveries)
  }

  /** The lane after one queued request is cancelled. */
  function Dropped(lane: Lane, request: Request): Lane {
    lane.(outcomes := Remember(lane.outcomes, BareOutcome(Cancelled, request.intent)),
          callbacks := lane.callbacks - {request.taskKey})
  }

  lemma FlushAdvances(lane: Lane, queue: seq<Request>, i: nat, completions: seq<Delivery>)
    requires i < |queue|
    ensures
      var served := Deliver(queue[i].taskKey, WaitingAt(lane.callbacks, queue[i].taskKey),
        BareOutcome(Cancelled, queue[i].intent));
      Prepend(completions, Flush(lane, queue[i..]))
        == Prepend(completions + served, Flush(Dropped(lane, queue[i]), queue[i + 1..]))
  {
    var left := queue[i..];
    assert left[0] == queue[i] && left[1..] == queue[i + 1..];
    var served := Deliver(queue[i].taskKey, WaitingAt(lane.callbacks, queue[i].taskKey),
      BareOutcome(Cancelled, queue[i].intent));
    var rest := Flush(Dropped(lane, queue[i]), queue[i + 1..]);
    assert completions + (served + rest.deliveries) == (completions + served) + rest.deliveries;
  }

  /** With distinct keys, dropping one key drops one place. */
  lemma {:induction false} WithoutSplits(outcomes: seq<Outcome>, i: nat)
    requires i < |outcomes|
    requires forall a, b :: 0 <= a < b < |outcomes| ==> KeyOf(outcomes[a].intent) != KeyOf(outcomes[b].intent)
    ensures Without(outcomes, KeyOf(outcomes[i].intent)) == outcomes[..i] + outcomes[i + 1..]
  {
    var key := KeyOf(outcomes[i].intent);
    if i == 0 {
      WithoutMissing(outcomes[1..], key);
    } else {
      WithoutSplits(outcomes[1..], i - 1);
      assert outcomes[..i] + outcomes[i + 1..] == [outcomes[0]] + (outcomes[1..][..i - 1] + outcomes[1..][i..]);
    }
  }

  lemma {:induction false} WithoutMissing(outcomes: seq<Outcome>, key: RepairKey)
    requires forall a :: 0 <= a < |outcomes| ==> KeyOf(outcomes[a].intent) != key
    ensures Without(outcomes, key) == outcomes
  {
    if outcomes != [] {
      WithoutMissing(outcomes[1..], key);
    }
  }
}
