/** A queued foreground request waits until it is started or its lane is cancelled. */
module RepairLaneForeground {
  import opened Wrappers
  import opened HistoryContract
  import opened RepairLane
  import opened RepairLaneInvariant
  import opened RepairLaneQueue
  import opened RepairLaneRuns

  /** A provider's queued foreground requests, in order. */
  function Waiting(lane: Lane, provider: string): seq<Request> {
    Class(PendingOf(lane, provider), true)
  }

  /** The key waits among its provider's foreground requests. */
  predicate WaitsInForeground(lane: Lane, key: RepairKey) {
    Queues(Waiting(lane, key.Provider()), key)
  }

  /** The event ends a run of the key's provider, and the key's request runs next. */
  ghost predicate StartsKey(world: World, event: Event, key: RepairKey) {
    && event.Done? && event.key.Provider() == key.Provider()
    && Enabled(world, event) && key in Next(world, event).lane.tasks
    && exists i :: 0 <= i < |Waiting(world.lane, key.Provider())|
         && Waiting(world.lane, key.Provider())[i] == Next(world, event).lane.tasks[key]
  }

  predicate CancelsLane(event: Event, provider: string) {
    event.Stopped? && event.key.Provider() == provider
  }

  ghost predicate LetsGo(world: World, event: Event, key: RepairKey) {
    StartsKey(world, event, key) || CancelsLane(event, key.Provider())
  }

  lemma QueuesMore(queue: seq<Request>, more: seq<Request>, key: RepairKey)
    requires Queues(queue, key)
    ensures Queues(queue + more, key)
  {
    var i :| 0 <= i < |queue| && queue[i].taskKey == key;
    assert (queue + more)[i].taskKey == key;
  }

  // ----- admissions --------------------------------------------------------

  lemma EnqueueKeepsForeground(lane: Lane, request: Request, callback: Option<Callback>, key: RepairKey)
    requires Inv(lane) && request.intent.provider == key.Provider() && WaitsInForeground(lane, key)
    ensures WaitsInForeground(Enqueue(lane, request, callback).lane, key)
  {
    var provider := key.Provider();
    InvShapes(lane, provider);
    if |PendingOf(lane, provider)| < MAX_PENDING {
      EnqueueWithRoom(lane, request, callback);
      QueuesMore(Waiting(lane, provider), Only(request, IsForeground(request)), key);
    } else {
      EnqueueWhenFull(lane, request, callback);
      QueuesMore(Waiting(lane, provider), [request], key);
    }
  }

  lemma JoinKeepsForeground(lane: Lane, request: Request, callback: Option<Callback>, key: RepairKey)
    requires Inv(lane) && request.intent.provider == key.Provider() && WaitsInForeground(lane, key)
    requires Queues(PendingOf(lane, key.Provider()), request.taskKey)
    ensures WaitsInForeground(JoinQueued(lane, request, callback).lane, key)
  {
    var queue := PendingOf(lane, key.Provider());
    InvShapes(lane, key.Provider());
    JoinDiscipline(queue, request);
    assert PendingOf(JoinQueued(lane, request, callback).lane, key.Provider()) == Join(queue, request);
    var i := IndexOf(queue, request.taskKey);
    if IsForeground(request) && !IsForeground(queue[i]) {
      QueuesMore(Class(queue, true), [Upgraded(queue[i], request)], key);
    }
  }

  lemma WaitingIsQueued(lane: Lane, key: RepairKey)
    requires Inv(lane) && WaitsInForeground(lane, key)
    ensures PendingOf(lane, key.Provider()) != [] && Active(lane, key.Provider())
  {
  }

  lemma ProceedKeepsForeground(open: Lane, request: Request, callback: Option<Callback>, now: nat, key: RepairKey)
    requires Inv(open) && request.intent.provider == key.Provider() && WaitsInForeground(open, key)
    ensures WaitsInForeground(Proceed(open, request, callback, now).lane, key)
  {
    WaitingIsQueued(open, key);
    if request.taskKey in open.tasks {
      assert PendingOf(JoinRunning(open, request, callback).lane, key.Provider()) == PendingOf(open, key.Provider());
    } else if Queues(PendingOf(open, request.intent.provider), request.taskKey) {
      JoinKeepsForeground(open, request, callback, key);
    } else if request.taskKey in open.nextAllowed && now < open.nextAllowed[request.taskKey] {
    } else {
      EnqueueKeepsForeground(open, request, callback, key);
    }
  }

  lemma ScheduleKeepsForeground(lane: Lane, request: Request, callback: Option<Callback>, now: nat, key: RepairKey)
    requires Inv(lane) && WaitsInForeground(lane, key)
    ensures WaitsInForeground(Schedule(lane, request, callback, now).lane, key)
  {
    if request.intent.provider != key.Provider() {
      ScheduleLeavesOthers(lane, request, callback, now, key.Provider());
    } else {
      var lifted := lane.(awaiting := LiftBlocks(lane.awaiting, request.intent));
      if !Blocked(lifted.awaiting, request.intent) {
        var open := lifted.(nextAllowed := LiveCooldowns(lane.nextAllowed, lane.tasks, now));
        SameQueues(lane, open);
        ProceedKeepsForeground(open, request, callback, now, key);
      }
    }
  }

  // ----- ends of runs ------------------------------------------------------

  lemma FinishOthers(lane: Lane, request: Request, outcome: Outcome, now: nat, other: string)
    requires other != request.intent.provider
    ensures PendingOf(Finish(lane, request, outcome, now).lane, other) == PendingOf(lane, other)
  {
  }

  lemma {:induction false} FlushKeepsPending(lane: Lane, queue: seq<Request>)
    ensures Flush(lane, queue).lane.pending == lane.pending
    decreases |queue|
  {
    if queue != [] {
      var cancelled := BareOutcome(Cancelled, queue[0].intent);
      FlushKeepsPending(
        lane.(outcomes := Remember(lane.outcomes, cancelled), callbacks := lane.callbacks - {queue[0].taskKey}),
        queue[1..]);
    }
  }

  lemma CancelOthers(lane: Lane, request: Request, now: nat, other: string)
    requires other != request.intent.provider
    ensures PendingOf(Cancel(lane, request, now).lane, other) == PendingOf(lane, other)
  {
    var provider := request.intent.provider;
    var settled := Settle(lane, request, BareOutcome(Cancelled, request.intent), now);
    FlushKeepsPending(settled.(pending := settled.pending - {provider}), PendingOf(settled, provider));
  }

  lemma FinishKeepsForeground(lane: Lane, request: Request, outcome: Outcome, now: nat, key: RepairKey)
    requires Inv(lane) && request.intent.provider == key.Provider() && WaitsInForeground(lane, key)
    ensures
      var after, fg := Finish(lane, request, outcome, now).lane, Waiting(lane, key.Provider());
      WaitsInForeground(after, key) || (fg[0].taskKey == key && key in after.tasks && after.tasks[key] == fg[0])
  {
    var after, fg := Finish(lane, request, outcome, now).lane, Waiting(lane, key.Provider());
    InvShapes(lane, key.Provider());
    FinishDiscipline(lane, request, outcome, now);
    if NextRequest(request, outcome).None? {
      var i :| 0 <= i < |fg| && fg[i].taskKey == key;
      if i > 0 {
        assert fg[1..][i - 1].taskKey == key;
      }
    }
  }

  // ----- runs --------------------------------------------------------------

  /** One event: a waiting foreground request goes on waiting, is started, or is
      cancelled with its lane. */
  lemma StepKeepsForeground(world: World, event: Event, key: RepairKey)
    requires Inv(world.lane) && Enabled(world, event) && WaitsInForeground(world.lane, key)
    ensures WaitsInForeground(Next(world, event).lane, key) || LetsGo(world, event, key)
  {
    match event
    case Ask(request, callback, now) => ScheduleKeepsForeground(world.lane, request, callback, now, key);
    case Done(done, outcome, now) =>
      var request := world.lane.tasks[done];
      if done.Provider() == key.Provider() {
        FinishKeepsForeground(world.lane, request, outcome, now, key);
      } else {
        FinishOthers(world.lane, request, outcome, now, key.Provider());
      }
    case Stopped(stopped, now) =>
      if stopped.Provider() != key.Provider() {
        CancelOthers(world.lane, world.lane.tasks[stopped], now, key.Provider());
      }
  }

  /** At this moment of the run the waiting request is let go. */
  ghost predicate LeavesAt(worlds: seq<World>, events: seq<Event>, k: nat, key: RepairKey)
    requires k < |events| && k < |worlds|
  {
    WaitsInForeground(worlds[k].lane, key) && LetsGo(worlds[k], events[k], key)
  }

  lemma NextStillWaits(worlds: seq<World>, events: seq<Event>, n: nat, key: RepairKey)
    requires IsRun(worlds, events) && n < |events|
    requires WaitsInForeground(worlds[n].lane, key) && !LeavesAt(worlds, events, n, key)
    ensures WaitsInForeground(worlds[n + 1].lane, key)
  {
    EveryReachableLane(worlds, events, n);
    StepKeepsForeground(worlds[n], events[n], key);
  }

  /** Over any run: a queued foreground request goes on waiting until it is started
      by the end of a run of its provider, or its lane is cancelled. */
  lemma {:induction false} ForegroundLeavesOnlyStartedOrCancelled(
      worlds: seq<World>, events: seq<Event>, i: nat, n: nat, key: RepairKey)
    requires IsRun(worlds, events) && i <= n < |worlds|
    requires WaitsInForeground(worlds[i].lane, key)
    requires forall k :: i <= k < n ==> !LeavesAt(worlds, events, k, key)
    ensures WaitsInForeground(worlds[n].lane, key)
    decreases n - i
  {
    if i < n {
      ForegroundLeavesOnlyStartedOrCancelled(worlds, events, i, n - 1, key);
      NextStillWaits(worlds, events, n - 1, key);
    }
  }
}
