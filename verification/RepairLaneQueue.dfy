/** Queue discipline of the repair lane, and why a lane left alone drains. */
module RepairLaneQueue {
  import opened Wrappers
  import opened HistoryContract
  import opened HistoryChunks
  import opened RepairLane
  import opened RepairLaneInvariant

  // ----- discipline --------------------------------------------------------

  /** An ordered queue is its foreground requests, then its background requests. */
  lemma {:induction false} OrderedIsPartition(queue: seq<Request>)
    requires ForegroundFirst(queue)
    ensures queue == Class(queue, true) + Class(queue, false)
  {
    if queue != [] {
      OrderedIsPartition(queue[1..]);
      assert queue == [queue[0]] + queue[1..];
      if !IsForeground(queue[0]) {
        assert forall i :: 0 <= i < |queue| ==> !IsForeground(queue[i]);
        ClassOfUniform(queue, false);
      }
    }
  }

  function Foreground(lane: Lane, provider: string): seq<Request> {
    Class(PendingOf(lane, provider), true)
  }

  function Background(lane: Lane, provider: string): seq<Request> {
    Class(PendingOf(lane, provider), false)
  }

  /** The queue of a provider in a lane that keeps the invariant. */
  ghost predicate Shaped(lane: Lane, provider: string) {
    QueueOk(provider, PendingOf(lane, provider))
  }

  /** Every lane that keeps the invariant has the queue shape assumed below. */
  lemma InvShapes(lane: Lane, provider: string)
    requires Inv(lane)
    ensures Shaped(lane, provider)
  {
    assert provider in lane.pending ==> QueueOk(provider, lane.pending[provider]);
  }

  lemma QueueShape(queue: seq<Request>)
    requires ForegroundFirst(queue)
    ensures queue == Class(queue, true) + Class(queue, false)
    ensures forall i :: 0 <= i < |Class(queue, true)| ==> IsForeground(Class(queue, true)[i])
    ensures forall i :: 0 <= i < |Class(queue, false)| ==> !IsForeground(Class(queue, false)[i])
  {
    OrderedIsPartition(queue);
    ClassIsUniform(queue, true);
    ClassIsUniform(queue, false);
  }

  lemma {:induction false} LastBackgroundIsTail(fg: seq<Request>, bg: seq<Request>)
    requires forall i :: 0 <= i < |fg| ==> IsForeground(fg[i])
    requires forall i :: 0 <= i < |bg| ==> !IsForeground(bg[i])
    ensures LastBackground(fg + bg) == if bg == [] then None else Some(|fg| + |bg| - 1)
    decreases |fg|
  {
    if bg != [] {
      assert (fg + bg)[|fg| + |bg| - 1] == bg[|bg| - 1];
    } else {
      assert fg + bg == fg;
      if fg != [] {
        assert fg[..|fg| - 1] + [] == fg[..|fg| - 1];
        LastBackgroundIsTail(fg[..|fg| - 1], []);
      }
    }
  }

  /** The classes of a queue after appending one request and sorting. */
  lemma AppendedClasses(queue: seq<Request>, request: Request, foreground: bool)
    ensures Class(Prioritize(queue + [request]), foreground)
         == Class(queue, foreground) + if IsForeground(request) == foreground then [request] else []
  {
    PrioritizeClasses(queue + [request], foreground);
    ClassAppends(queue, [request], foreground);
    assert [request][1..] == [];
  }

  /** Dropping the last background request of an ordered queue. */
  lemma DroppedClasses(queue: seq<Request>)
    requires ForegroundFirst(queue) && Class(queue, false) != []
    ensures LastBackground(queue) == Some(|queue| - 1)
    ensures Class(Removed(queue, |queue| - 1), true) == Class(queue, true)
    ensures Class(Removed(queue, |queue| - 1), false) == Class(queue, false)[..|Class(queue, false)| - 1]
  {
    var fg, bg := Class(queue, true), Class(queue, false);
    var left := bg[..|bg| - 1];
    QueueShape(queue);
    LastBackgroundIsTail(fg, bg);
    assert Removed(queue, |queue| - 1) == fg + left;
    ClassAppends(fg, left, true);
    ClassAppends(fg, left, false);
    ClassOfUniform(fg, true);
    ClassOfUniform(left, false);
  }

  function Only(request: Request, wanted: bool): seq<Request> {
    if wanted then [request] else []
  }

  /** A queue with room takes any request at the end of its class. */
  lemma EnqueueWithRoom(lane: Lane, request: Request, callback: Option<Callback>)
    requires Shaped(lane, request.intent.provider) && |PendingOf(lane, request.intent.provider)| < MAX_PENDING
    ensures
      var provider, step := request.intent.provider, Enqueue(lane, request, callback);
      && step.admission.status.Queued? && step.admission.newlyAdmitted && step.deliveries == []
      && Foreground(step.lane, provider) == Foreground(lane, provider) + Only(request, IsForeground(request))
      && Background(step.lane, provider) == Background(lane, provider) + Only(request, !IsForeground(request))
  {
    var queue := PendingOf(lane, request.intent.provider);
    AppendedClasses(queue, request, true);
    AppendedClasses(queue, request, false);
  }

  /** A full queue refuses a request, unless the request is foreground and there
      is a background one to give up: then the last background request goes, and
      its subscribers are told it was superseded. */
  lemma EnqueueWhenFull(lane: Lane, request: Request, callback: Option<Callback>)
    requires Shaped(lane, request.intent.provider) && |PendingOf(lane, request.intent.provider)| == MAX_PENDING
    ensures
      var provider, step := request.intent.provider, Enqueue(lane, request, callback);
      var fg, bg := Foreground(lane, provider), Background(lane, provider);
      if !IsForeground(request) || bg == [] then
        step.admission.status.QueueFull? && step.lane == lane && step.deliveries == []
      else
        var evicted := bg[|bg| - 1];
        && step.admission.status.Queued? && step.admission.newlyAdmitted
        && Foreground(step.lane, provider) == fg + [request]
        && Background(step.lane, provider) == bg[..|bg| - 1]
        && step.deliveries == Deliver(evicted.taskKey, WaitingAt(lane.callbacks, evicted.taskKey),
             BareOutcome(Superseded, evicted.intent))
  {
    var queue := PendingOf(lane, request.intent.provider);
    var bg := Class(queue, false);
    if bg == [] {
      QueueShape(queue);
      LastBackgroundIsTail(Class(queue, true), bg);
    } else if IsForeground(request) {
      DroppedClasses(queue);
      QueueShape(queue);
      AppendedClasses(Removed(queue, |queue| - 1), request, true);
      AppendedClasses(Removed(queue, |queue| - 1), request, false);
    }
  }

  /** A background entry asked for in the foreground moves to the end of the
      foreground class; anything else stays exactly where it was. */
  lemma {:induction false} JoinDiscipline(queue: seq<Request>, request: Request)
    requires ForegroundFirst(queue) && Queues(queue, request.taskKey)
    ensures
      var i := IndexOf(queue, request.taskKey);
      var fg, bg := Class(queue, true), Class(queue, false);
      if IsForeground(request) && !IsForeground(queue[i]) then
        && 0 <= i - |fg| < |bg|
        && Class(Join(queue, request), true) == fg + [Upgraded(queue[i], request)]
        && Class(Join(queue, request), false) == Removed(bg, i - |fg|)
      else Join(queue, request) == queue
  {
    var i := IndexOf(queue, request.taskKey);
    if IsForeground(request) && !IsForeground(queue[i]) {
      ReplaceBackground(queue, i, Upgraded(queue[i], request));
    }
  }

  lemma ReplaceBackground(queue: seq<Request>, i: nat, up: Request)
    requires ForegroundFirst(queue) && i < |queue| && !IsForeground(queue[i]) && IsForeground(up)
    ensures
      var fg, bg := Class(queue, true), Class(queue, false);
      && 0 <= i - |fg| < |bg|
      && Class(Prioritize(queue[i := up]), true) == fg + [up]
      && Class(Prioritize(queue[i := up]), false) == Removed(bg, i - |fg|)
  {
    var fg, bg := Class(queue, true), Class(queue, false);
    QueueShape(queue);
    var j := BackgroundPlace(fg, bg, i);
    SpliceAt(fg, bg, j, up);
    assert queue[i := up] == (fg + bg)[|fg| + j := up];
    ReplacedClass(fg, bg, j, up, true);
    ReplacedClass(fg, bg, j, up, false);
  }

  lemma BackgroundPlace(fg: seq<Request>, bg: seq<Request>, i: nat) returns (j: nat)
    requires forall k :: 0 <= k < |fg| ==> IsForeground(fg[k])
    requires i < |fg + bg| && !IsForeground((fg + bg)[i])
    ensures j == i - |fg| && j < |bg|
  {
    assert forall k :: 0 <= k < |fg| ==> IsForeground((fg + bg)[k]);
    j := i - |fg|;
  }

  lemma ReplacedClass(fg: seq<Request>, bg: seq<Request>, j: nat, up: Request, foreground: bool)
    requires forall i :: 0 <= i < |fg| ==> IsForeground(fg[i])
    requires forall i :: 0 <= i < |bg| ==> !IsForeground(bg[i])
    requires IsForeground(up) && j < |bg|
    ensures Class(Prioritize(fg + (bg[..j] + ([up] + bg[j + 1..]))), foreground) == if foreground then fg + [up] else Removed(bg, j)
  {
    SplitClass(fg, bg[..j], up, bg[j + 1..], foreground);
    PrioritizeClasses(fg + (bg[..j] + ([up] + bg[j + 1..])), foreground);
  }

  lemma SpliceAt(fg: seq<Request>, bg: seq<Request>, j: nat, up: Request)
    requires j < |bg|
    ensures (fg + bg)[|fg| + j := up] == fg + (bg[..j] + ([up] + bg[j + 1..]))
  {
  }

  lemma SplitClass(fg: seq<Request>, a: seq<Request>, up: Request, b: seq<Request>, foreground: bool)
    requires forall i :: 0 <= i < |fg| ==> IsForeground(fg[i])
    requires forall i :: 0 <= i < |a| ==> !IsForeground(a[i])
    requires forall i :: 0 <= i < |b| ==> !IsForeground(b[i])
    requires IsForeground(up)
    ensures Class(fg + (a + ([up] + b)), foreground) == if foreground then fg + [up] else a + b
  {
    ClassOfUniform(fg, true);
    ClassOfUniform(a, false);
    ClassOfUniform(b, false);
    ClassOfUniform([up], true);
    var tail := [up] + b;
    ClassAppends([up], b, foreground);
    assert Class(tail, foreground) == if foreground then [up] else b;
    ClassAppends(a, tail, foreground);
    assert Class(a + tail, foreground) == if foreground then [up] else a + b;
    ClassAppends(fg, a + tail, foreground);
  }

  /** When a request finishes, its own older chunk runs next if there is one;
      otherwise the oldest foreground request, and only without any the oldest
      background request. Nothing else leaves the queue. */
  lemma FinishDiscipline(lane: Lane, request: Request, outcome: Outcome, now: nat)
    requires Shaped(lane, request.intent.provider)
    ensures
      var provider, after := request.intent.provider, Finish(lane, request, outcome, now).lane;
      var next, fg, bg := NextRequest(request, outcome), Foreground(lane, provider), Background(lane, provider);
      var left := lane.tasks - {request.taskKey};
      if next.Some? then
        after.tasks == left[next.value.taskKey := next.value] && PendingOf(after, provider) == PendingOf(lane, provider)
      else if fg != [] then
        && after.tasks == left[fg[0].taskKey := fg[0]]
        && Foreground(after, provider) == fg[1..] && Background(after, provider) == bg
      else if bg != [] then
        && after.tasks == left[bg[0].taskKey := bg[0]]
        && Foreground(after, provider) == [] && Background(after, provider) == bg[1..]
      else after.tasks == left && PendingOf(after, provider) == []
  {
    var provider, after := request.intent.provider, Finish(lane, request, outcome, now).lane;
    var queue := PendingOf(lane, provider);
    QueueShape(queue);
    assert PendingOf(Settle(lane, request, outcome, now), provider) == queue;
    if NextRequest(request, outcome).None? && queue != [] {
      assert PendingOf(after, provider) == queue[1..];
      TailClasses(queue);
    }
  }

  lemma TailClasses(queue: seq<Request>)
    requires queue != [] && ForegroundFirst(queue)
    ensures
      var fg, bg := Class(queue, true), Class(queue, false);
      if fg != [] then
        queue[0] == fg[0] && Class(queue[1..], true) == fg[1..] && Class(queue[1..], false) == bg
      else
        bg != [] && queue[0] == bg[0] && Class(queue[1..], true) == [] && Class(queue[1..], false) == bg[1..]
  {
    QueueShape(queue);
  }

  lemma EnqueueLeavesOthers(lane: Lane, request: Request, callback: Option<Callback>, other: string)
    requires other != request.intent.provider
    ensures PendingOf(Enqueue(lane, request, callback).lane, other) == PendingOf(lane, other)
  {
    var provider := request.intent.provider;
    var after := Enqueue(lane, request, callback).lane;
    assert after.pending - {provider} == lane.pending - {provider};
    assert other in after.pending <==> other in after.pending - {provider};
  }

  /** Scheduling for one provider never disturbs another provider's queue. */
  lemma ScheduleLeavesOthers(lane: Lane, request: Request, callback: Option<Callback>, now: nat, other: string)
    requires other != request.intent.provider
    ensures PendingOf(Schedule(lane, request, callback, now).lane, other) == PendingOf(lane, other)
  {
    var intent, key := request.intent, request.taskKey;
    var lifted := lane.(awaiting := LiftBlocks(lane.awaiting, intent));
    if !Blocked(lifted.awaiting, intent) {
      var open := lifted.(nextAllowed := LiveCooldowns(lane.nextAllowed, lane.tasks, now));
      assert PendingOf(open, other) == PendingOf(lane, other);
      if key in open.tasks {
        assert PendingOf(JoinRunning(open, request, callback).lane, other) == PendingOf(open, other);
      } else if Queues(PendingOf(open, intent.provider), key) {
        assert PendingOf(JoinQueued(open, request, callback).lane, other) == PendingOf(open, other);
      } else if key in open.nextAllowed && now < open.nextAllowed[key] {
      } else if Active(open, intent.provider) {
        EnqueueLeavesOthers(open, request, callback, other);
      } else {
        assert PendingOf(Start(open, request, callback).lane, other) == PendingOf(open, other);
      }
    }
  }

  // ----- draining ----------------------------------------------------------

  ghost function RunningFor(lane: Lane, provider: string): Request
    requires Active(lane, provider)
  {
    var k :| k in lane.tasks && k.Provider() == provider;
    lane.tasks[k]
  }

  lemma RunningIsUnique(lane: Lane, request: Request)
    requires TasksOk(lane.tasks) && request.taskKey in lane.tasks && lane.tasks[request.taskKey] == request
    ensures Active(lane, request.intent.provider) && RunningFor(lane, request.intent.provider) == request
  {
    assert request.taskKey.Provider() == request.intent.provider;
  }

  function QueueWork(queue: seq<Request>): int
    requires forall i :: 0 <= i < |queue| ==> Legal(queue[i])
  {
    if queue == [] then 0
    else
      assert Legal(queue[0]) && queue[0].intent.Nested();
      ChunksLeft(queue[0].intent) + QueueWork(queue[1..])
  }

  lemma {:induction false} QueueWorkPositive(queue: seq<Request>)
    requires forall i :: 0 <= i < |queue| ==> Legal(queue[i])
    ensures QueueWork(queue) >= |queue|
  {
    if queue != [] {
      ChunksLeftPositive(queue[0].intent);
      QueueWorkPositive(queue[1..]);
    }
  }

  /** An upper bound on the chunks a provider still has to fetch. */
  ghost function Backlog(lane: Lane, provider: string): int
    requires Inv(lane)
  {
    QueuedLegal(lane, provider);
    (if Active(lane, provider) then ChunksLeft(RunningFor(lane, provider).intent) else 0)
      + QueueWork(PendingOf(lane, provider))
  }

  lemma QueuedLegal(lane: Lane, provider: string)
    requires Inv(lane)
    ensures forall i :: 0 <= i < |PendingOf(lane, provider)| ==> Legal(PendingOf(lane, provider)[i])
    ensures Active(lane, provider) ==> Legal(RunningFor(lane, provider))
  {
    assert provider in lane.pending ==> QueueOk(provider, lane.pending[provider]);
  }

  /** A backlog is never negative, and it is zero exactly when the lane is idle. */
  lemma BacklogMeaning(lane: Lane, provider: string)
    requires Inv(lane)
    ensures Backlog(lane, provider) >= 0
    ensures Backlog(lane, provider) == 0 <==> !Active(lane, provider)
    ensures Backlog(lane, provider) == 0 ==> PendingOf(lane, provider) == []
  {
    QueuedLegal(lane, provider);
    QueueWorkPositive(PendingOf(lane, provider));
    if Active(lane, provider) {
      ChunksLeftPositive(RunningFor(lane, provider).intent);
    }
  }

  /** Every finished chunk makes the provider's backlog smaller, whatever the
      outcome and whether or not the walk continues. */
  lemma FinishShrinksBacklog(lane: Lane, request: Request, outcome: Outcome, now: nat)
    requires Inv(lane) && request.taskKey in lane.tasks && lane.tasks[request.taskKey] == request
    ensures Inv(Finish(lane, request, outcome, now).lane)
    ensures Backlog(Finish(lane, request, outcome, now).lane, request.intent.provider)
          < Backlog(lane, request.intent.provider)
  {
    var provider, after := request.intent.provider, Finish(lane, request, outcome, now).lane;
    var queue, next := PendingOf(lane, provider), NextRequest(request, outcome);
    FinishKeeps(lane, request, outcome, now);
    RunningIsUnique(lane, request);
    ChunksLeftPositive(request.intent);
    QueuedLegal(lane, provider);
    SettleTasks(lane, request, outcome, now);
    if next.Some? {
      NextRequestLegal(request, outcome);
      ContinuationShape(request.intent, outcome);
      RunningIsUnique(after, next.value);
    } else if queue != [] {
      assert after.tasks[queue[0].taskKey] == queue[0];
      assert QueueOk(provider, queue);
      RunningIsUnique(after, queue[0]);
      assert PendingOf(after, provider) == queue[1..];
    }
  }

  /** A finish of one provider's running request. */
  datatype Finishing = Finishing(request: Request, outcome: Outcome, now: nat)

  /** A run of finishes of one provider with nothing new scheduled for it. */
  ghost predicate Drains(lanes: seq<Lane>, steps: seq<Finishing>, provider: string) {
    && |lanes| == |steps| + 1
    && Inv(lanes[0])
    && forall i :: 0 <= i < |steps| ==> DrainStep(lanes[i], steps[i], lanes[i + 1], provider)
  }

  ghost predicate DrainStep(before: Lane, step: Finishing, after: Lane, provider: string) {
    && step.request.taskKey in before.tasks && before.tasks[step.request.taskKey] == step.request
    && step.request.intent.provider == provider
    && after == Finish(before, step.request, step.outcome, step.now).lane
  }

  lemma StepShrinks(before: Lane, step: Finishing, after: Lane, provider: string)
    requires Inv(before) && DrainStep(before, step, after, provider)
    ensures Inv(after) && Backlog(after, provider) < Backlog(before, provider)
  {
    FinishShrinksBacklog(before, step.request, step.outcome, step.now);
  }

  lemma {:induction false} BacklogFalls(lanes: seq<Lane>, steps: seq<Finishing>, provider: string, n: nat)
    requires Drains(lanes, steps, provider) && n <= |steps|
    ensures Inv(lanes[n]) && n + Backlog(lanes[n], provider) <= Backlog(lanes[0], provider)
  {
    if n > 0 {
      BacklogFalls(lanes, steps, provider, n - 1);
      OneDrain(lanes, steps, provider, n - 1);
    }
  }

  lemma OneDrain(lanes: seq<Lane>, steps: seq<Finishing>, provider: string, k: nat)
    requires Drains(lanes, steps, provider) && k < |steps| && Inv(lanes[k])
    ensures Inv(lanes[k + 1]) && Backlog(lanes[k + 1], provider) < Backlog(lanes[k], provider)
  {
    StepShrinks(lanes[k], steps[k], lanes[k + 1], provider);
  }

  /** A lane left alone drains: it finishes at most as many chunks as its backlog,
      and once it has, nothing is queued and every subscriber has been served. */
  lemma LaneDrains(lanes: seq<Lane>, steps: seq<Finishing>, provider: string, key: RepairKey)
    requires Drains(lanes, steps, provider) && key.Provider() == provider
    ensures |steps| <= Backlog(lanes[0], provider)
    ensures |steps| == Backlog(lanes[0], provider) ==>
      && !Active(lanes[|steps|], provider)
      && PendingOf(lanes[|steps|], provider) == []
      && key !in lanes[|steps|].callbacks
  {
    var n := |steps|;
    BacklogFalls(lanes, steps, provider, n);
    BacklogMeaning(lanes[n], provider);
    if !Active(lanes[n], provider) {
      IdleMeansServed(lanes[n], provider, key);
    }
  }

  // ----- what a repeat and a full memory keep ------------------------------

  /** A more urgent repeat of a queued request keeps whom it is for, and takes over its
      intent, its handles and the sooner of both deadlines; any other repeat leaves the
      queued request as it was. */
  lemma RepeatTakesOver(queue: seq<Request>, request: Request)
    requires ForegroundFirst(queue) && Queues(queue, request.taskKey)
    ensures
      var existing := queue[IndexOf(queue, request.taskKey)];
      var kept := if request.intent.priority.Foreground? && existing.intent.priority.Background? then
          Request(existing.taskKey, existing.exactAuthority, existing.instrument, request.intent,
            if request.timeout < existing.timeout then request.timeout else existing.timeout,
            request.fetch, request.commit, request.store)
        else existing;
      kept in Join(queue, request)
  {
    var i := IndexOf(queue, request.taskKey);
    if IsForeground(request) && !IsForeground(queue[i]) {
      var up := Upgraded(queue[i], request);
      JoinDiscipline(queue, request);
      var fg := Class(queue, true);
      assert (fg + [up])[|fg|] == up;
      ClassMembers(Join(queue, request), true, up);
    }
  }

  lemma {:induction false} ClassMembers(queue: seq<Request>, foreground: bool, r: Request)
    requires r in Class(queue, foreground)
    ensures r in queue
  {
    if queue != [] {
      if r in Class(queue[1..], foreground) {
        ClassMembers(queue[1..], foreground, r);
      }
    }
  }

  /** Of the outcomes of other requests only the oldest is forgotten, and only when 256
      of other requests are remembered. */
  lemma RememberKeepsOthers(outcomes: seq<Outcome>, outcome: Outcome, other: Outcome)
    requires OutcomesOk(outcomes) && other in outcomes && KeyOf(other.intent) != KeyOf(outcome.intent)
    ensures other in Remember(outcomes, outcome) <==>
      !(|outcomes| == 256 && other == outcomes[0] && forall o :: o in outcomes ==> KeyOf(o.intent) != KeyOf(outcome.intent))
    ensures outcome in Remember(outcomes, outcome)
  {
    var key := KeyOf(outcome.intent);
    RememberOk(outcomes, outcome);
    if o :| o in outcomes && KeyOf(o.intent) == key {
      WithoutShrinks(outcomes, key, o);
      WithoutFacts(outcomes, key);
      assert Remember(outcomes, outcome) == Without(outcomes, key) + [outcome];
    } else {
      WithoutNothing(outcomes, key);
      AppendedKeeps(outcomes, outcome, other);
    }
  }

  lemma AppendedKeeps(outcomes: seq<Outcome>, outcome: Outcome, other: Outcome)
    requires |outcomes| <= 256 && other in outcomes && other != outcome
    requires forall i, j :: 0 <= i < j < |outcomes| ==> outcomes[i] != outcomes[j]
    ensures
      var all := outcomes + [outcome];
      other in (if |all| > 256 then all[|all| - 256..] else all) <==> !(|outcomes| == 256 && other == outcomes[0])
  {
    var all := outcomes + [outcome];
    if |outcomes| == 256 {
      assert all[1..] == outcomes[1..] + [outcome];
      assert outcomes == [outcomes[0]] + outcomes[1..];
    }
  }

  lemma {:induction false} WithoutNothing(outcomes: seq<Outcome>, key: RepairKey)
    requires forall o :: o in outcomes ==> KeyOf(o.intent) != key
    ensures Without(outcomes, key) == outcomes
  {
    if outcomes != [] {
      WithoutNothing(outcomes[1..], key);
      assert outcomes == [outcomes[0]] + outcomes[1..];
    }
  }

  lemma {:induction false} WithoutShrinks(outcomes: seq<Outcome>, key: RepairKey, o: Outcome)
    requires o in outcomes && KeyOf(o.intent) == key
    ensures |Without(outcomes, key)| < |outcomes|
  {
    WithoutFacts(outcomes[1..], key);
    if KeyOf(outcomes[0].intent) != key {
      WithoutShrinks(outcomes[1..], key, o);
    }
  }
}
