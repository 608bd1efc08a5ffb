/** What the lane refuses: a cursor that made no progress until its chart has a newer
    generation, and a key that has just ended until its deadline. */
module RepairLaneRefusals {
  import opened Wrappers
  import opened HistoryContract
  import opened HistoryAttempt
  import opened RepairLane
  import opened RepairLaneInvariant
  import opened RepairLaneRuns

  /** The cursor made no progress at this generation, or at a later one. */
  predicate HeldBack(lane: Lane, cursor: CursorKey, generation: nat) {
    cursor in lane.awaiting && generation <= lane.awaiting[cursor]
  }

  predicate SameChart(a: CursorKey, b: CursorKey) {
    a.provider == b.provider && a.instrumentId == b.instrumentId && a.routeFingerprint == b.routeFingerprint
      && a.timeframe == b.timeframe
  }

  /** A request of the cursor's chart arrives, newer than this generation. */
  predicate AsksNewer(event: Event, cursor: CursorKey, generation: nat) {
    event.Ask? && SameChart(cursor, CursorOf(event.request.intent)) && generation < event.request.intent.canonicalGeneration
  }

  /** The running request of this key ends without progress. */
  predicate EndsIdle(lane: Lane, event: Event, cursor: CursorKey) {
    && event.Done? && event.key in lane.tasks && TerminalNoProgress(event.outcome)
    && CursorOf(lane.tasks[event.key].intent) == cursor
  }

  predicate EndsIdleAt(lane: Lane, event: Event, cursor: CursorKey, generation: nat) {
    EndsIdle(lane, event, cursor) && lane.tasks[event.key].intent.canonicalGeneration == generation
  }

  /** The two ways a block is gone: a newer generation of the chart is asked for, or
      an older attempt on the same cursor ends without progress after it. */
  predicate Reopens(lane: Lane, event: Event, cursor: CursorKey, generation: nat) {
    cursor in lane.awaiting &&
    (AsksNewer(event, cursor, lane.awaiting[cursor])
      || (EndsIdle(lane, event, cursor) && lane.tasks[event.key].intent.canonicalGeneration < generation))
  }

  // ----- what a step does to the fences ------------------------------------

  predicate SameFences(a: Lane, b: Lane) {
    a.awaiting == b.awaiting && a.nextAllowed == b.nextAllowed
  }

  lemma EnqueueKeepsFences(lane: Lane, request: Request, callback: Option<Callback>)
    ensures SameFences(Enqueue(lane, request, callback).lane, lane)
  {
  }

  lemma JoinKeepsFences(lane: Lane, request: Request, callback: Option<Callback>)
    requires Queues(PendingOf(lane, request.intent.provider), request.taskKey)
    ensures SameFences(JoinQueued(lane, request, callback).lane, lane)
  {
  }

  lemma ProceedKeepsFences(lane: Lane, request: Request, callback: Option<Callback>, now: nat)
    ensures SameFences(Proceed(lane, request, callback, now).lane, lane)
  {
    var key := request.taskKey;
    if key in lane.tasks {
      assert SameFences(JoinRunning(lane, request, callback).lane, lane);
    } else if Queues(PendingOf(lane, request.intent.provider), key) {
      JoinKeepsFences(lane, request, callback);
    } else {
      EnqueueKeepsFences(lane, request, callback);
      assert SameFences(Start(lane, request, callback).lane, lane);
    }
  }

  lemma {:induction false} FlushKeepsFences(lane: Lane, queue: seq<Request>)
    ensures Flush(lane, queue).lane.awaiting == lane.awaiting
    ensures Flush(lane, queue).lane.nextAllowed == lane.nextAllowed
    ensures Flush(lane, queue).lane.tasks == lane.tasks
    decreases |queue|
  {
    if queue != [] {
      var cancelled := BareOutcome(Cancelled, queue[0].intent);
      FlushKeepsFences(
        lane.(outcomes := Remember(lane.outcomes, cancelled), callbacks := lane.callbacks - {queue[0].taskKey}),
        queue[1..]);
    }
  }

  lemma ScheduleFences(lane: Lane, request: Request, callback: Option<Callback>, now: nat)
    ensures
      var step := Schedule(lane, request, callback, now);
      && step.lane.awaiting == LiftBlocks(lane.awaiting, request.intent)
      && (step.lane.nextAllowed == lane.nextAllowed || step.lane.nextAllowed == LiveCooldowns(lane.nextAllowed, lane.tasks, now))
  {
    var open := lane.(awaiting := LiftBlocks(lane.awaiting, request.intent),
      nextAllowed := LiveCooldowns(lane.nextAllowed, lane.tasks, now));
    ProceedKeepsFences(open, request, callback, now);
  }

  lemma FinishFences(lane: Lane, request: Request, outcome: Outcome, now: nat)
    ensures
      var after := Finish(lane, request, outcome, now).lane;
      && after.awaiting == Settle(lane, request, outcome, now).awaiting
      && after.nextAllowed == Settle(lane, request, outcome, now).nextAllowed
  {
  }

  lemma CancelFences(lane: Lane, request: Request, now: nat)
    ensures
      var after := Cancel(lane, request, now).lane;
      && after.awaiting == lane.awaiting
      && after.nextAllowed == lane.nextAllowed[request.taskKey := now + request.intent.cooldown]
  {
    var provider := request.intent.provider;
    var settled := Settle(lane, request, BareOutcome(Cancelled, request.intent), now);
    FlushKeepsFences(settled.(pending := settled.pending - {provider}), PendingOf(settled, provider));
  }

  // ----- blocked cursors ---------------------------------------------------

  /** A request is refused for want of a newer generation exactly when its cursor is
      held back at its generation; the refusal changes nothing else. */
  lemma AwaitingIffHeldBack(lane: Lane, request: Request, callback: Option<Callback>, now: nat)
    ensures
      var step := Schedule(lane, request, callback, now);
      && (step.admission.status.AwaitingGenerationAdvance? <==>
            HeldBack(lane, CursorOf(request.intent), request.intent.canonicalGeneration))
      && (step.admission.status.AwaitingGenerationAdvance? ==>
            step == Refused(lane.(awaiting := LiftBlocks(lane.awaiting, request.intent)), AwaitingGenerationAdvance, request.intent, 0))
  {
  }

  /** An end without progress holds its cursor back at its generation. */
  lemma IdleEndHoldsBack(world: World, event: Event, cursor: CursorKey, generation: nat)
    requires Enabled(world, event) && EndsIdleAt(world.lane, event, cursor, generation)
    ensures HeldBack(Next(world, event).lane, cursor, generation)
  {
    FinishFences(world.lane, world.lane.tasks[event.key], event.outcome, event.now);
  }

  /** A run that neither changed nor stored anything and did not get a complete new
      answer holds its cursor back at its generation; no other end does. */
  lemma NoProgressHoldsBack(world: World, event: Event)
    requires Enabled(world, event) && event.Done?
    ensures
      var intent, outcome := world.lane.tasks[event.key].intent, event.outcome;
      var cursor, generation := CursorOf(intent), intent.canonicalGeneration;
      var idle := (outcome.status.NoChange? || outcome.status.Incomplete? || outcome.status.Malformed?)
        && outcome.writtenBars == 0 && outcome.deletedBars == 0 && !outcome.coverageExpanded;
      HeldBack(Next(world, event).lane, cursor, generation) <==> idle || HeldBack(world.lane, cursor, generation)
  {
    FinishFences(world.lane, world.lane.tasks[event.key], event.outcome, event.now);
  }

  /** A cursor held back stays so exactly unless it is reopened. */
  lemma HeldBackStep(world: World, event: Event, cursor: CursorKey, generation: nat)
    requires Enabled(world, event) && HeldBack(world.lane, cursor, generation)
    ensures HeldBack(Next(world, event).lane, cursor, generation) <==> !Reopens(world.lane, event, cursor, generation)
  {
    match event
    case Ask(request, callback, now) =>
      ScheduleFences(world.lane, request, callback, now);
    case Done(key, outcome, now) =>
      FinishFences(world.lane, world.lane.tasks[key], outcome, now);
    case Stopped(key, now) =>
      CancelFences(world.lane, world.lane.tasks[key], now);
  }

  /** Between two events no newer generation of the chart is asked for. */
  ghost predicate NoneNewer(events: seq<Event>, i: nat, j: nat, cursor: CursorKey, generation: nat) {
    forall k :: i < k < j && k < |events| ==> !AsksNewer(events[k], cursor, generation)
  }

  /** Between two events no attempt on the cursor at an older generation ends without
      progress. */
  ghost predicate NoneOlder(worlds: seq<World>, events: seq<Event>, i: nat, j: nat, cursor: CursorKey, generation: nat) {
    forall k :: i < k < j && k < |events| && k < |worlds| && EndsIdle(worlds[k].lane, events[k], cursor) ==>
      generation <= worlds[k].lane.tasks[events[k].key].intent.canonicalGeneration
  }

  lemma {:induction false} StaysHeldBack(worlds: seq<World>, events: seq<Event>, i: nat, j: nat, cursor: CursorKey, generation: nat)
    requires IsRun(worlds, events) && i < j < |worlds| && EndsIdleAt(worlds[i].lane, events[i], cursor, generation)
    requires NoneNewer(events, i, j, cursor, generation) && NoneOlder(worlds, events, i, j, cursor, generation)
    ensures HeldBack(worlds[j].lane, cursor, generation)
    decreases j
  {
    if j == i + 1 {
      IdleEndHoldsBack(worlds[i], events[i], cursor, generation);
    } else {
      StaysHeldBack(worlds, events, i, j - 1, cursor, generation);
      HeldBackStep(worlds[j - 1], events[j - 1], cursor, generation);
    }
  }

  // ----- attempts are fenced by the chart's generation ---------------------

  /** Only an attempt that saw its own generation can end without progress. */
  lemma IdleEndSawItsGeneration(authority: bool, intent: Intent, env: Environment)
    requires TerminalNoProgress(Execute(authority, intent, env).outcome)
    ensures env.generation == intent.canonicalGeneration
  {
  }

  ghost predicate EndsAttempt(lane: Lane, event: Event, seen: nat) {
    event.Done? && event.key in lane.tasks &&
    exists authority, env: Environment :: env.generation == seen
      && event.outcome == Execute(authority, lane.tasks[event.key].intent, env).outcome
  }

  /** Every end of a chart's request is the end of an attempt, and the generation the
      attempts of a chart see at their start never falls. */
  ghost predicate Fences(worlds: seq<World>, events: seq<Event>, cursor: CursorKey, seen: seq<nat>) {
    && |seen| == |events| <= |worlds|
    && (forall k, l :: 0 <= k < l < |seen| ==> seen[k] <= seen[l])
    && forall k :: 0 <= k < |events| && EndsIdle(worlds[k].lane, events[k], cursor) ==>
         EndsAttempt(worlds[k].lane, events[k], seen[k])
  }

  lemma IdleEndsAscend(worlds: seq<World>, events: seq<Event>, cursor: CursorKey, seen: seq<nat>, k: nat)
    requires Fences(worlds, events, cursor, seen) && k < |events| && EndsIdle(worlds[k].lane, events[k], cursor)
    ensures worlds[k].lane.tasks[events[k].key].intent.canonicalGeneration == seen[k]
  {
    var intent := worlds[k].lane.tasks[events[k].key].intent;
    assert EndsAttempt(worlds[k].lane, events[k], seen[k]);
    var authority, env: Environment :| env.generation == seen[k] && events[k].outcome == Execute(authority, intent, env).outcome;
    IdleEndSawItsGeneration(authority, intent, env);
  }

  /** After an end without progress the same cursor is refused, and nothing else
      changes, until a newer generation of its chart is asked for. */
  lemma IdleCursorWaitsForItsChart(worlds: seq<World>, events: seq<Event>, i: nat, j: nat, cursor: CursorKey, seen: seq<nat>)
    requires IsRun(worlds, events) && i < j < |events| && EndsIdle(worlds[i].lane, events[i], cursor)
    requires Fences(worlds, events, cursor, seen)
    requires events[j].Ask? && CursorOf(events[j].request.intent) == cursor
    requires NoneNewer(events, i, j + 1, cursor, worlds[i].lane.tasks[events[i].key].intent.canonicalGeneration)
    ensures
      var ask, lane := events[j], worlds[j].lane;
      && Schedule(lane, ask.request, ask.callback, ask.now).admission
           == Admission(AwaitingGenerationAdvance, ask.request.intent, false, false, 0)
      && worlds[j + 1] == worlds[j].(lane := worlds[j + 1].lane)
      && worlds[j + 1].lane == lane.(awaiting := worlds[j + 1].lane.awaiting)
  {
    var generation := worlds[i].lane.tasks[events[i].key].intent.canonicalGeneration;
    IdleEndsAscend(worlds, events, cursor, seen, i);
    forall k | i < k < j && EndsIdle(worlds[k].lane, events[k], cursor)
      ensures generation <= worlds[k].lane.tasks[events[k].key].intent.canonicalGeneration
    {
      IdleEndsAscend(worlds, events, cursor, seen, k);
    }
    StaysHeldBack(worlds, events, i, j, cursor, generation);
    assert !AsksNewer(events[j], cursor, generation);
    RefusalChangesNothing(worlds[j], events[j]);
  }

  lemma RefusalChangesNothing(world: World, event: Event)
    requires event.Ask? && Enabled(world, event)
    requires HeldBack(world.lane, CursorOf(event.request.intent), event.request.intent.canonicalGeneration)
    ensures
      var intent := event.request.intent;
      && Schedule(world.lane, event.request, event.callback, event.now).admission
           == Admission(AwaitingGenerationAdvance, intent, false, false, 0)
      && Next(world, event) == world.(lane := world.lane.(awaiting := LiftBlocks(world.lane.awaiting, intent)))
  {
    AwaitingIffHeldBack(world.lane, event.request, event.callback, event.now);
  }

  // ----- deadlines ---------------------------------------------------------

  predicate EndsKey(event: Event, key: RepairKey) {
    (event.Done? || event.Stopped?) && event.key == key
  }

  /** When the key may run again. */
  function Deadline(lane: Lane, event: Event): nat
    requires (event.Done? || event.Stopped?) && event.key in lane.tasks
  {
    var intent := lane.tasks[event.key].intent;
    event.now + if event.Done? then Cooldown(intent, event.outcome) else intent.cooldown
  }

  predicate Until(lane: Lane, key: RepairKey, deadline: nat) {
    key in lane.nextAllowed && lane.nextAllowed[key] == deadline
  }

  lemma EndSetsDeadline(world: World, event: Event, key: RepairKey)
    requires Inv(world.lane) && Enabled(world, event) && EndsKey(event, key)
    ensures Until(Next(world, event).lane, key, Deadline(world.lane, event))
  {
    if event.Done? {
      FinishFences(world.lane, world.lane.tasks[key], event.outcome, event.now);
    } else {
      CancelFences(world.lane, world.lane.tasks[key], event.now);
    }
  }

  lemma DeadlineStep(world: World, event: Event, key: RepairKey, deadline: nat)
    requires Inv(world.lane) && Enabled(world, event) && Until(world.lane, key, deadline)
    requires !EndsKey(event, key) && (event.Ask? ==> event.now < deadline)
    ensures Until(Next(world, event).lane, key, deadline)
  {
    match event
    case Ask(request, callback, now) =>
      ScheduleFences(world.lane, request, callback, now);
    case Done(ended, outcome, now) =>
      FinishFences(world.lane, world.lane.tasks[ended], outcome, now);
    case Stopped(ended, now) =>
      CancelFences(world.lane, world.lane.tasks[ended], now);
  }

  /** Between two events the key does not end again, and no request comes at or after
      the deadline. */
  ghost predicate StillEarly(events: seq<Event>, i: nat, j: nat, key: RepairKey, deadline: nat) {
    forall k :: i < k < j && k < |events| ==> !EndsKey(events[k], key) && (events[k].Ask? ==> events[k].now < deadline)
  }

  lemma {:induction false} DeadlineStays(worlds: seq<World>, events: seq<Event>, i: nat, j: nat, key: RepairKey)
    requires IsRun(worlds, events) && i < j < |worlds| && EndsKey(events[i], key)
    requires key in worlds[i].lane.tasks && StillEarly(events, i, j, key, Deadline(worlds[i].lane, events[i]))
    ensures Until(worlds[j].lane, key, Deadline(worlds[i].lane, events[i]))
    decreases j
  {
    EveryReachableLane(worlds, events, j - 1);
    if j == i + 1 {
      EndSetsDeadline(worlds[i], events[i], key);
    } else {
      DeadlineStays(worlds, events, i, j - 1, key);
      DeadlineStep(worlds[j - 1], events[j - 1], key, Deadline(worlds[i].lane, events[i]));
    }
  }

  lemma EarlyIsRefused(lane: Lane, request: Request, callback: Option<Callback>, now: nat)
    requires Legal(request) && request.taskKey in lane.nextAllowed && now < lane.nextAllowed[request.taskKey]
    requires !Present(lane, request.taskKey)
    ensures
      var step, wait := Schedule(lane, request, callback, now), lane.nextAllowed[request.taskKey] - now;
      && (step.admission == Admission(AwaitingGenerationAdvance, request.intent, false, false, 0)
            || step.admission == Admission(Throttled, request.intent, false, false, wait))
      && step.lane == lane.(awaiting := step.lane.awaiting, nextAllowed := step.lane.nextAllowed)
      && step.deliveries == []
  {
  }

  /** Before its deadline a key that neither runs nor waits is refused, with the time
      left unless its cursor is held back; nobody is subscribed, started or queued. */
  lemma EndedKeyWaitsForItsDeadline(worlds: seq<World>, events: seq<Event>, i: nat, j: nat, key: RepairKey)
    requires IsRun(worlds, events) && i < j < |events| && EndsKey(events[i], key)
    requires key in worlds[i].lane.tasks && StillEarly(events, i, j + 1, key, Deadline(worlds[i].lane, events[i]))
    requires events[j].Ask? && events[j].request.taskKey == key && !Present(worlds[j].lane, key)
    ensures
      var ask, lane := events[j], worlds[j].lane;
      var admission := Schedule(lane, ask.request, ask.callback, ask.now).admission;
      && admission == (if HeldBack(lane, key.cursor, key.canonicalGeneration)
           then Admission(AwaitingGenerationAdvance, ask.request.intent, false, false, 0)
           else Admission(Throttled, ask.request.intent, false, false, Deadline(worlds[i].lane, events[i]) - ask.now))
      && worlds[j + 1].lane == lane.(awaiting := worlds[j + 1].lane.awaiting, nextAllowed := worlds[j + 1].lane.nextAllowed)
      && worlds[j + 1] == worlds[j].(lane := worlds[j + 1].lane)
  {
    var ask := events[j];
    DeadlineStays(worlds, events, i, j, key);
    EarlyIsRefused(worlds[j].lane, ask.request, ask.callback, ask.now);
    AwaitingIffHeldBack(worlds[j].lane, ask.request, ask.callback, ask.now);
  }

  // ----- how long -----------------------------------------------------------

  /** Requests come at times that do not go back. */
  ghost predicate NoneLater(events: seq<Event>, i: nat, j: nat, now: nat) {
    forall k :: i < k < j && k < |events| && events[k].Ask? ==> events[k].now <= now
  }

  ghost predicate NoMoreEnds(events: seq<Event>, i: nat, j: nat, key: RepairKey) {
    forall k :: i < k < j && k < |events| ==> !EndsKey(events[k], key)
  }

  /** Whatever is still noted about the key is this deadline. */
  predicate AtMost(lane: Lane, key: RepairKey, deadline: nat) {
    key in lane.nextAllowed ==> lane.nextAllowed[key] == deadline
  }

  lemma AtMostStep(world: World, event: Event, key: RepairKey, deadline: nat)
    requires Inv(world.lane) && Enabled(world, event) && AtMost(world.lane, key, deadline) && !EndsKey(event, key)
    ensures AtMost(Next(world, event).lane, key, deadline)
  {
    match event
    case Ask(request, callback, now) =>
      ScheduleFences(world.lane, request, callback, now);
    case Done(ended, outcome, now) =>
      FinishFences(world.lane, world.lane.tasks[ended], outcome, now);
    case Stopped(ended, now) =>
      CancelFences(world.lane, world.lane.tasks[ended], now);
  }

  lemma {:induction false} AtMostStays(worlds: seq<World>, events: seq<Event>, i: nat, j: nat, key: RepairKey)
    requires IsRun(worlds, events) && i < j < |worlds| && EndsKey(events[i], key)
    requires key in worlds[i].lane.tasks && NoMoreEnds(events, i, j, key)
    ensures AtMost(worlds[j].lane, key, Deadline(worlds[i].lane, events[i]))
    decreases j
  {
    EveryReachableLane(worlds, events, j - 1);
    if j == i + 1 {
      EndSetsDeadline(worlds[i], events[i], key);
    } else {
      AtMostStays(worlds, events, i, j - 1, key);
      AtMostStep(worlds[j - 1], events[j - 1], key, Deadline(worlds[i].lane, events[i]));
    }
  }

  lemma LateIsNotThrottled(lane: Lane, request: Request, callback: Option<Callback>, now: nat, deadline: nat)
    requires Legal(request) && AtMost(lane, request.taskKey, deadline) && deadline <= now
    requires !Present(lane, request.taskKey)
    ensures !Schedule(lane, request, callback, now).admission.status.Throttled?
  {
    var open := lane.(awaiting := LiftBlocks(lane.awaiting, request.intent),
      nextAllowed := LiveCooldowns(lane.nextAllowed, lane.tasks, now));
    assert request.taskKey !in open.nextAllowed;
  }

  /** Of a key that has ended and neither runs nor waits: throttled, with the time
      left, exactly before its deadline, unless its cursor is held back. */
  lemma ThrottledUntilDeadline(worlds: seq<World>, events: seq<Event>, i: nat, j: nat, key: RepairKey)
    requires IsRun(worlds, events) && i < j < |events| && EndsKey(events[i], key) && key in worlds[i].lane.tasks
    requires events[j].Ask? && events[j].request.taskKey == key && !Present(worlds[j].lane, key)
    requires NoMoreEnds(events, i, j, key) && NoneLater(events, i, j, events[j].now)
    ensures
      var ask, deadline := events[j], Deadline(worlds[i].lane, events[i]);
      var admission := Schedule(worlds[j].lane, ask.request, ask.callback, ask.now).admission;
      && (HeldBack(worlds[j].lane, key.cursor, key.canonicalGeneration) ==>
            admission == Admission(AwaitingGenerationAdvance, ask.request.intent, false, false, 0))
      && (!HeldBack(worlds[j].lane, key.cursor, key.canonicalGeneration) ==>
            if ask.now < deadline then admission == Admission(Throttled, ask.request.intent, false, false, deadline - ask.now)
            else !admission.status.Throttled?)
  {
    var ask, deadline := events[j], Deadline(worlds[i].lane, events[i]);
    AwaitingIffHeldBack(worlds[j].lane, ask.request, ask.callback, ask.now);
    if ask.now < deadline {
      EndedKeyWaitsForItsDeadline(worlds, events, i, j, key);
    } else {
      AtMostStays(worlds, events, i, j, key);
      LateIsNotThrottled(worlds[j].lane, ask.request, ask.callback, ask.now, deadline);
    }
  }

  /** After a failed fetch, store or commit, or a malformed answer, the key is refused
      for its cooldown or five minutes, whichever is longer; after any other end, and
      after a cancellation, exactly for its cooldown. */
  lemma FailuresBackOff(worlds: seq<World>, events: seq<Event>, i: nat, j: nat, key: RepairKey)
    requires IsRun(worlds, events) && i < j < |events| && EndsKey(events[i], key) && key in worlds[i].lane.tasks
    requires events[j].Ask? && events[j].request.taskKey == key && !Present(worlds[j].lane, key)
    requires NoMoreEnds(events, i, j, key) && NoneLater(events, i, j, events[j].now)
    ensures
      var ended, cooldown := events[i], worlds[i].lane.tasks[key].intent.cooldown;
      var failed := ended.Done? && (ended.outcome.status.FetchFailed? || ended.outcome.status.StorageFailed?
        || ended.outcome.status.CommitFailed? || ended.outcome.status.CommitQueueFull? || ended.outcome.status.Malformed?);
      var until := ended.now + if failed && cooldown < 300_000_000 then 300_000_000 else cooldown;
      var ask := events[j];
      var admission := Schedule(worlds[j].lane, ask.request, ask.callback, ask.now).admission;
      && (ask.now < until ==> admission.status.Throttled? || admission.status.AwaitingGenerationAdvance?)
      && (!HeldBack(worlds[j].lane, key.cursor, key.canonicalGeneration) ==>
            (admission.status.Throttled? <==> ask.now < until)
            && (ask.now < until ==> admission.retryAfter == until - ask.now))
  {
    EveryReachableLane(worlds, events, i);
    ThrottledUntilDeadline(worlds, events, i, j, key);
  }
}
