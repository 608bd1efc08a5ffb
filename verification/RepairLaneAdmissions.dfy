/** What a caller is told when scheduling a repair, and what is remembered of it
    afterwards. */
module RepairLaneAdmissions {
  import opened Wrappers
  import opened HistoryContract
  import opened HistoryChunks
  import opened RepairLane
  import opened RepairLaneInvariant
  import opened RepairLaneQueue
  import opened RepairLaneRefusals

  /** The key was ended too recently. */
  predicate Waits(lane: Lane, key: RepairKey, now: nat) {
    key in lane.nextAllowed && now < lane.nextAllowed[key]
  }

  /** Thirty-two requests wait, and none of them gives way to this one. */
  predicate NoRoom(lane: Lane, request: Request) {
    var queue := PendingOf(lane, request.intent.provider);
    |queue| == 32 && (request.intent.priority.Background? || Class(queue, false) == [])
  }

  lemma {:induction false} NoBackground(queue: seq<Request>)
    ensures LastBackground(queue).None? <==> Class(queue, false) == []
  {
    if queue != [] {
      var n := |queue| - 1;
      assert queue == queue[..n] + [queue[n]];
      NoBackground(queue[..n]);
      ClassAppends(queue[..n], [queue[n]], false);
      assert [queue[n]][1..] == [];
    }
  }

  lemma WhenBusy(lane: Lane, request: Request, callback: Option<Callback>)
    requires Inv(lane) && Legal(request) && !Present(lane, request.taskKey)
    ensures
      var step := Enqueue(lane, request, callback);
      step.admission ==
        if NoRoom(lane, request) then Admission(QueueFull, request.intent, false, false, 0)
        else Admission(Queued, request.intent, true, callback.Some?, 0)
  {
    NoBackground(PendingOf(lane, request.intent.provider));
    InvShapes(lane, request.intent.provider);
    assert request.taskKey !in lane.callbacks;
  }

  /** Once no generation blocks the request. */
  lemma ProceedMeaning(lane: Lane, request: Request, callback: Option<Callback>, now: nat)
    requires Inv(lane) && Legal(request)
    ensures
      var key, intent := request.taskKey, request.intent;
      var heard := callback.Some? && |WaitingAt(lane.callbacks, key)| < 32;
      Proceed(lane, request, callback, now).admission ==
        if key in lane.tasks then Admission(Running, intent, false, heard, 0)
        else if Present(lane, key) then Admission(Queued, intent, false, heard, 0)
        else if Waits(lane, key, now) then Admission(Throttled, intent, false, false, lane.nextAllowed[key] - now)
        else if !Active(lane, intent.provider) then Admission(Scheduled, intent, true, callback.Some?, 0)
        else if NoRoom(lane, request) then Admission(QueueFull, intent, false, false, 0)
        else Admission(Queued, intent, true, callback.Some?, 0)
  {
    if !Present(lane, request.taskKey) {
      assert request.taskKey !in lane.callbacks;
      WhenBusy(lane, request, callback);
    }
  }

  /** The lane once outdated blocks and expired deadlines are gone. */
  function Opened(lane: Lane, request: Request, now: nat): Lane {
    lane.(awaiting := LiftBlocks(lane.awaiting, request.intent), nextAllowed := LiveCooldowns(lane.nextAllowed, lane.tasks, now))
  }

  lemma OpenedIsSame(lane: Lane, request: Request, now: nat)
    requires Inv(lane)
    ensures
      var open := Opened(lane, request, now);
      && Inv(open) && open.tasks == lane.tasks && open.callbacks == lane.callbacks && open.outcomes == lane.outcomes
      && open.pending == lane.pending
      && (request.taskKey !in lane.tasks ==> (Waits(open, request.taskKey, now) <==> Waits(lane, request.taskKey, now)))
      && (Waits(open, request.taskKey, now) ==> open.nextAllowed[request.taskKey] == lane.nextAllowed[request.taskKey])
  {
    SameQueues(lane, Opened(lane, request, now));
  }

  /** Every answer of an admission, and when it is given: by the first of these that
      applies. */
  lemma AdmissionMeaning(lane: Lane, request: Request, callback: Option<Callback>, now: nat)
    requires Inv(lane) && Legal(request)
    ensures
      var key, intent := request.taskKey, request.intent;
      var heard := callback.Some? && |WaitingAt(lane.callbacks, key)| < 32;
      Schedule(lane, request, callback, now).admission ==
        if HeldBack(lane, CursorOf(intent), intent.canonicalGeneration) then
          Admission(AwaitingGenerationAdvance, intent, false, false, 0)
        else if key in lane.tasks then Admission(Running, intent, false, heard, 0)
        else if Present(lane, key) then Admission(Queued, intent, false, heard, 0)
        else if Waits(lane, key, now) then Admission(Throttled, intent, false, false, lane.nextAllowed[key] - now)
        else if !Active(lane, intent.provider) then Admission(Scheduled, intent, true, callback.Some?, 0)
        else if NoRoom(lane, request) then Admission(QueueFull, intent, false, false, 0)
        else Admission(Queued, intent, true, callback.Some?, 0)
  {
    AwaitingIffHeldBack(lane, request, callback, now);
    OpenedIsSame(lane, request, now);
    ProceedMeaning(Opened(lane, request, now), request, callback, now);
    ScheduleProceeds(lane, request, callback, now);
  }

  lemma ScheduleProceeds(lane: Lane, request: Request, callback: Option<Callback>, now: nat)
    ensures
      var step := Schedule(lane, request, callback, now);
      if HeldBack(lane, CursorOf(request.intent), request.intent.canonicalGeneration) then
        step.admission == Admission(AwaitingGenerationAdvance, request.intent, false, false, 0)
        && step.lane.outcomes == lane.outcomes && step.lane.tasks == lane.tasks
      else step == Proceed(Opened(lane, request, now), request, callback, now)
  {
    AwaitingIffHeldBack(lane, request, callback, now);
  }

  /** A newly admitted request starts with a clean slate: nothing is remembered of an
      earlier run of its key. Any other answer leaves the memory alone. */
  lemma AdmissionForgets(lane: Lane, request: Request, callback: Option<Callback>, now: nat)
    requires Inv(lane) && Legal(request)
    ensures
      var step := Schedule(lane, request, callback, now);
      && Forgets(lane, step, request.taskKey)
      && step.lane.tasks == if step.admission.status.Scheduled? then lane.tasks[request.taskKey := request] else lane.tasks
  {
    OpenedIsSame(lane, request, now);
    ProceedForgets(Opened(lane, request, now), request, callback, now);
    ScheduleProceeds(lane, request, callback, now);
  }

  ghost predicate Forgets(lane: Lane, step: Step, key: RepairKey) {
    if step.admission.newlyAdmitted then forall o :: o in step.lane.outcomes ==> KeyOf(o.intent) != key
    else step.lane.outcomes == lane.outcomes
  }

  lemma ProceedForgets(lane: Lane, request: Request, callback: Option<Callback>, now: nat)
    ensures
      var step := Proceed(lane, request, callback, now);
      && Forgets(lane, step, request.taskKey)
      && step.lane.tasks == if step.admission.status.Scheduled? then lane.tasks[request.taskKey := request] else lane.tasks
  {
    if request.taskKey in lane.tasks {
      assert JoinRunning(lane, request, callback).lane.outcomes == lane.outcomes;
    } else if Queues(PendingOf(lane, request.intent.provider), request.taskKey) {
      JoinForgets(lane, request, callback);
    } else {
      AdmitForgets(lane, request, callback);
      StartForgets(lane, request, callback);
    }
  }

  lemma StartForgets(lane: Lane, request: Request, callback: Option<Callback>)
    ensures
      var step := Start(lane, request, callback);
      Forgets(lane, step, request.taskKey) && step.lane.tasks == lane.tasks[request.taskKey := request] && step.admission.status.Scheduled?
  {
    WithoutFacts(lane.outcomes, request.taskKey);
  }

  lemma JoinForgets(lane: Lane, request: Request, callback: Option<Callback>)
    requires Queues(PendingOf(lane, request.intent.provider), request.taskKey)
    ensures
      var step := JoinQueued(lane, request, callback);
      step.lane.outcomes == lane.outcomes && step.lane.tasks == lane.tasks && step.admission.status.Queued? && !step.admission.newlyAdmitted
  {
  }

  lemma AdmitForgets(lane: Lane, request: Request, callback: Option<Callback>)
    ensures
      var step := Enqueue(lane, request, callback);
      step.lane.tasks == lane.tasks && !step.admission.status.Scheduled? && Forgets(lane, step, request.taskKey)
  {
    var queue := PendingOf(lane, request.intent.provider);
    if |queue| < 32 {
      OneAdmitForgets(lane, queue, request, callback, []);
    } else if LastBackground(queue).Some? {
      var i := LastBackground(queue).value;
      var superseded := BareOutcome(Superseded, queue[i].intent);
      var without := lane.(outcomes := Remember(lane.outcomes, superseded), callbacks := lane.callbacks - {queue[i].taskKey});
      OneAdmitForgets(without, Removed(queue, i), request, callback,
        Deliver(queue[i].taskKey, WaitingAt(lane.callbacks, queue[i].taskKey), superseded));
    }
  }

  lemma OneAdmitForgets(lane: Lane, queue: seq<Request>, request: Request, callback: Option<Callback>, deliveries: seq<Delivery>)
    ensures
      var step := Admit(lane, queue, request, callback, deliveries);
      && step.lane.tasks == lane.tasks && step.admission.status.Queued? && step.admission.newlyAdmitted
      && forall o :: o in step.lane.outcomes ==> KeyOf(o.intent) != request.taskKey
  {
    WithoutFacts(lane.outcomes, request.taskKey);
  }

  // ----- the end of a run --------------------------------------------------

  /** The outcome of a run is remembered, as the newest, and its key no longer runs
      unless it comes back as the next chunk. */
  lemma EndIsRemembered(lane: Lane, request: Request, outcome: Outcome, now: nat)
    requires Inv(lane) && Legal(request) && outcome.intent == request.intent
    ensures
      var after := Finish(lane, request, outcome, now).lane;
      after.outcomes != [] && after.outcomes[|after.outcomes| - 1] == outcome
  {
    RememberOk(lane.outcomes, outcome);
  }

  /** The next chunk runs for the same instrument, under the same authority, deadline
      and handles; only its intent is the older chunk's. */
  lemma ContinuationKeepsHandles(request: Request, outcome: Outcome)
    ensures
      var next, older := NextRequest(request, outcome), Continuation(request.intent, outcome);
      && (next.Some? <==> older.Some?)
      && (next.Some? ==> next.value == Request(KeyOf(older.value), request.exactAuthority, request.instrument, older.value,
            request.timeout, request.fetch, request.commit, request.store))
  {
  }

  /** A walk goes on exactly after a commit, or an unchanged chunk of which something
      was still written, deleted or newly covered, and only above its target start and
      for an exact request. */
  lemma ContinuesIff(intent: Intent, outcome: Outcome)
    ensures Continuation(intent, outcome).Some? <==>
      && !intent.identity.resolution.ProviderResponse? && intent.targetStartsAt < intent.startsAt
      && (outcome.status.Committed?
          || (outcome.status.NoChange? && (outcome.writtenBars > 0 || outcome.deletedBars > 0 || outcome.coverageExpanded)))
  {
  }

  // ----- requests that never ran -------------------------------------------

  /** A request pushed out of a full queue is remembered as superseded. */
  lemma EvictedIsRemembered(lane: Lane, request: Request, callback: Option<Callback>)
    requires Inv(lane) && Legal(request) && !Present(lane, request.taskKey)
    requires |PendingOf(lane, request.intent.provider)| == 32 && !NoRoom(lane, request)
    ensures
      var background := Class(PendingOf(lane, request.intent.provider), false);
      BareOutcome(Superseded, background[|background| - 1].intent) in Enqueue(lane, request, callback).lane.outcomes
  {
    var queue := PendingOf(lane, request.intent.provider);
    NoBackground(queue);
    InvShapes(lane, request.intent.provider);
    QueueShape(queue);
    var i := LastBackground(queue).value;
    LastBackgroundIsTail(Class(queue, true), Class(queue, false));
    var evicted := queue[i];
    var superseded := BareOutcome(Superseded, evicted.intent);
    RememberOk(lane.outcomes, superseded);
    WithoutFacts(Remember(lane.outcomes, superseded), request.taskKey);
    assert KeyOf(evicted.intent) != request.taskKey by {
      assert Legal(evicted) && Queues(queue, evicted.taskKey);
    }
  }

  /** Every request of a cancelled queue is remembered as cancelled. */
  lemma {:induction false} FlushedAreRemembered(lane: Lane, queue: seq<Request>, i: nat)
    requires OutcomesOk(lane.outcomes) && i < |queue| <= 32 && DistinctKeys(queue)
    requires forall k :: 0 <= k < |queue| ==> Legal(queue[k])
    ensures BareOutcome(Cancelled, queue[i].intent) in Flush(lane, queue).lane.outcomes
    decreases |queue|
  {
    var cancelled := BareOutcome(Cancelled, queue[0].intent);
    var next := lane.(outcomes := Remember(lane.outcomes, cancelled), callbacks := lane.callbacks - {queue[0].taskKey});
    RememberOk(lane.outcomes, cancelled);
    if i > 0 {
      FlushedAreRemembered(next, queue[1..], i - 1);
    } else {
      NewestStay(next, queue[1..], cancelled, |next.outcomes| - 1);
    }
  }

  /** An outcome among the newest stays remembered while others are added. */
  lemma {:induction false} NewestStay(lane: Lane, queue: seq<Request>, o: Outcome, at: nat)
    requires OutcomesOk(lane.outcomes) && at < |lane.outcomes| && lane.outcomes[at] == o
    requires |lane.outcomes| - at + |queue| <= 256
    requires forall k :: 0 <= k < |queue| ==> queue[k].taskKey == KeyOf(queue[k].intent) != KeyOf(o.intent)
    ensures o in Flush(lane, queue).lane.outcomes
    decreases |queue|
  {
    if queue != [] {
      var cancelled := BareOutcome(Cancelled, queue[0].intent);
      var next := lane.(outcomes := Remember(lane.outcomes, cancelled), callbacks := lane.callbacks - {queue[0].taskKey});
      RememberOk(lane.outcomes, cancelled);
      var there := RememberMoves(lane.outcomes, cancelled, at);
      NewestStay(next, queue[1..], o, there);
    }
  }

  lemma RememberMoves(outcomes: seq<Outcome>, outcome: Outcome, at: nat) returns (there: nat)
    requires OutcomesOk(outcomes) && at < |outcomes| && KeyOf(outcomes[at].intent) != KeyOf(outcome.intent)
    requires |outcomes| - at < 256
    ensures
      var after := Remember(outcomes, outcome);
      there < |after| && after[there] == outcomes[at] && |after| - there <= |outcomes| - at + 1
  {
    var key := KeyOf(outcome.intent);
    var k := WithoutMoves(outcomes, key, at);
    var kept := Without(outcomes, key);
    var all := kept + [outcome];
    WithoutFacts(outcomes, key);
    assert all[k] == outcomes[at];
    there := if |all| > 256 then k - (|all| - 256) else k;
  }

  lemma {:induction false} WithoutMoves(outcomes: seq<Outcome>, key: RepairKey, at: nat) returns (k: nat)
    requires at < |outcomes| && KeyOf(outcomes[at].intent) != key
    ensures
      var kept := Without(outcomes, key);
      k < |kept| && kept[k] == outcomes[at] && |kept| - k <= |outcomes| - at && k <= at
  {
    if at == 0 {
      WithoutFacts(outcomes[1..], key);
      k := 0;
    } else {
      k := WithoutMoves(outcomes[1..], key, at - 1);
      if KeyOf(outcomes[0].intent) != key {
        k := k + 1;
      }
    }
  }
}
