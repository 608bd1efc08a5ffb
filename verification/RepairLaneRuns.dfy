/** Whole runs of the repair lane: exactly-once delivery, queue discipline and draining. */
module RepairLaneRuns {
  import opened Wrappers
  import opened HistoryContract
  import opened RepairLane
  import opened RepairLaneInvariant

  // ----- the books ---------------------------------------------------------

  /** Callbacks accepted for a key, in order. */
  function Subs(log: seq<(RepairKey, Callback)>, key: RepairKey): seq<Callback> {
    if log == [] then [] else (if log[0].0 == key then [log[0].1] else []) + Subs(log[1..], key)
  }

  /** Callbacks invoked for a key, in order. */
  function Served(log: seq<Delivery>, key: RepairKey): seq<Callback> {
    if log == [] then [] else (if log[0].key == key then [log[0].callback] else []) + Served(log[1..], key)
  }

  lemma {:induction false} SubsAppend(a: seq<(RepairKey, Callback)>, b: seq<(RepairKey, Callback)>, key: RepairKey)
    ensures Subs(a + b, key) == Subs(a, key) + Subs(b, key)
  {
    if a == [] {
      assert a + b == b;
    } else {
      assert (a + b)[1..] == a[1..] + b;
      SubsAppend(a[1..], b, key);
    }
  }

  lemma {:induction false} ServedAppend(a: seq<Delivery>, b: seq<Delivery>, key: RepairKey)
    ensures Served(a + b, key) == Served(a, key) + Served(b, key)
  {
    if a == [] {
      assert a + b == b;
    } else {
      assert (a + b)[1..] == a[1..] + b;
      ServedAppend(a[1..], b, key);
    }
  }

  lemma {:induction false} ServedByDeliver(key: RepairKey, callbacks: seq<Callback>, outcome: Outcome, other: RepairKey)
    ensures Served(Deliver(key, callbacks, outcome), other) == if other == key then callbacks else []
    decreases |callbacks|
  {
    if callbacks != [] {
      assert Deliver(key, callbacks, outcome)[1..] == Deliver(key, callbacks[1..], outcome);
      ServedByDeliver(key, callbacks[1..], outcome, other);
    }
  }

  lemma Regroup(a: seq<Callback>, b: seq<Callback>, c: seq<Callback>)
    ensures (a + b) + c == a + (b + c)
  {
  }

  /** One step neither loses, repeats nor reorders a callback of any key. */
  ghost predicate StepBalances(before: Lane, added: seq<(RepairKey, Callback)>, deliveries: seq<Delivery>, after: Lane) {
    forall k :: WaitingAt(before.callbacks, k) + Subs(added, k)
             == Served(deliveries, k) + WaitingAt(after.callbacks, k)
  }

  /** Every delivery reports an outcome of the request it was accepted for. */
  ghost predicate Truthful(deliveries: seq<Delivery>) {
    forall i :: 0 <= i < |deliveries| ==> KeyOf(deliveries[i].outcome.intent) == deliveries[i].key
  }

  function Accepted(request: Request, callback: Option<Callback>, admission: Admission): seq<(RepairKey, Callback)> {
    if admission.subscribed && callback.Some? then [(request.taskKey, callback.value)] else []
  }

  lemma SubscribeBalances(before: Lane, after: Lane, request: Request, callback: Option<Callback>, admission: Admission)
    requires after.callbacks == Subscribe(before.callbacks, request.taskKey, callback).0
    requires admission.subscribed == Subscribe(before.callbacks, request.taskKey, callback).1
    ensures StepBalances(before, Accepted(request, callback, admission), [], after)
  {
    SubscribeFacts(before.callbacks, request.taskKey, callback);
    var added := Accepted(request, callback, admission);
    forall k ensures WaitingAt(before.callbacks, k) + Subs(added, k) == WaitingAt(after.callbacks, k) {
      assert added != [] ==> added[1..] == [];
      assert Subs(added, k) == if k == request.taskKey && admission.subscribed then [callback.value] else [];
    }
  }

  /** Nothing happened to the subscribers. */
  lemma QuietBalances(before: Lane, after: Lane, deliveries: seq<Delivery>)
    requires after.callbacks == before.callbacks && deliveries == []
    ensures StepBalances(before, [], deliveries, after) && Truthful(deliveries)
  {
    forall k ensures WaitingAt(before.callbacks, k) + Subs([], k) == Served(deliveries, k) + WaitingAt(after.callbacks, k) {
      assert Subs([], k) == [] && Served(deliveries, k) == [];
    }
  }

  lemma EnqueueBalances(lane: Lane, request: Request, callback: Option<Callback>)
    requires Inv(lane) && Legal(request) && !Present(lane, request.taskKey)
    ensures
      var step := Enqueue(lane, request, callback);
      && StepBalances(lane, Accepted(request, callback, step.admission), step.deliveries, step.lane)
      && Truthful(step.deliveries)
  {
    var queue := PendingOf(lane, request.intent.provider);
    var step := Enqueue(lane, request, callback);
    if |queue| < MAX_PENDING {
      SubscribeBalances(lane, step.lane, request, callback, step.admission);
    } else if request.intent.priority.Background? || LastBackground(queue).None? {
      QuietBalances(lane, step.lane, step.deliveries);
    } else {
      EvictionBalances(lane, request, callback, LastBackground(queue).value);
    }
  }

  lemma ProceedBalances(open: Lane, request: Request, callback: Option<Callback>, now: nat)
    requires Inv(open) && Legal(request)
    ensures
      var step := Proceed(open, request, callback, now);
      && StepBalances(open, Accepted(request, callback, step.admission), step.deliveries, step.lane)
      && Truthful(step.deliveries)
  {
    var step := Proceed(open, request, callback, now);
    var intent, key := request.intent, request.taskKey;
    if key in open.tasks || Queues(PendingOf(open, intent.provider), key) {
      SubscribeBalances(open, step.lane, request, callback, step.admission);
    } else if key in open.nextAllowed && now < open.nextAllowed[key] {
      QuietBalances(open, step.lane, step.deliveries);
    } else if Active(open, intent.provider) {
      EnqueueBalances(open, request, callback);
    } else {
      SubscribeBalances(open, step.lane, request, callback, step.admission);
    }
  }

  lemma ScheduleBalances(lane: Lane, request: Request, callback: Option<Callback>, now: nat)
    requires Inv(lane) && Legal(request)
    ensures
      var step := Schedule(lane, request, callback, now);
      && StepBalances(lane, Accepted(request, callback, step.admission), step.deliveries, step.lane)
      && Truthful(step.deliveries)
  {
    var step := Schedule(lane, request, callback, now);
    var lifted := lane.(awaiting := LiftBlocks(lane.awaiting, request.intent));
    if Blocked(lifted.awaiting, request.intent) {
      QuietBalances(lane, step.lane, step.deliveries);
    } else {
      var open := lifted.(nextAllowed := LiveCooldowns(lane.nextAllowed, lane.tasks, now));
      SameQueues(lane, open);
      ProceedBalances(open, request, callback, now);
      assert open.callbacks == lane.callbacks;
    }
  }

  lemma EvictionBalances(lane: Lane, request: Request, callback: Option<Callback>, i: nat)
    requires Inv(lane) && Legal(request) && !Present(lane, request.taskKey)
    requires i < |PendingOf(lane, request.intent.provider)|
    ensures
      var evicted := PendingOf(lane, request.intent.provider)[i];
      var left := lane.callbacks - {evicted.taskKey};
      var (callbacks, subscribed) := Subscribe(left, request.taskKey, callback);
      var superseded := BareOutcome(Superseded, evicted.intent);
      var deliveries := Deliver(evicted.taskKey, WaitingAt(lane.callbacks, evicted.taskKey), superseded);
      && Truthful(deliveries)
      && forall status, newly, retry ::
           StepBalances(lane,
             Accepted(request, callback, Admission(status, request.intent, newly, subscribed, retry)),
             deliveries, lane.(callbacks := callbacks))
  {
    var provider := request.intent.provider;
    var queue := PendingOf(lane, provider);
    var evicted := queue[i];
    assert QueueOk(provider, queue);
    assert Queues(queue, evicted.taskKey);
    var left := lane.callbacks - {evicted.taskKey};
    var (callbacks, subscribed) := Subscribe(left, request.taskKey, callback);
    var superseded := BareOutcome(Superseded, evicted.intent);
    var deliveries := Deliver(evicted.taskKey, WaitingAt(lane.callbacks, evicted.taskKey), superseded);
    SubscribeFacts(left, request.taskKey, callback);
    forall status, newly, retry
      ensures StepBalances(lane,
        Accepted(request, callback, Admission(status, request.intent, newly, subscribed, retry)),
        deliveries, lane.(callbacks := callbacks))
    {
      var added := Accepted(request, callback, Admission(status, request.intent, newly, subscribed, retry));
      forall k ensures WaitingAt(lane.callbacks, k) + Subs(added, k) == Served(deliveries, k) + WaitingAt(callbacks, k) {
        ServedByDeliver(evicted.taskKey, WaitingAt(lane.callbacks, evicted.taskKey), superseded, k);
        assert added != [] ==> added[1..] == [];
        assert Subs(added, k) == if k == request.taskKey && subscribed then [callback.value] else [];
      }
    }
  }

  /** Serving one key and dropping its subscribers balances. */
  lemma ServeBalances(before: Lane, after: Lane, request: Request, outcome: Outcome)
    requires Legal(request) && outcome.intent == request.intent
    requires after.callbacks == before.callbacks - {request.taskKey}
    ensures
      var deliveries := Deliver(request.taskKey, WaitingAt(before.callbacks, request.taskKey), outcome);
      StepBalances(before, [], deliveries, after) && Truthful(deliveries)
  {
    var waiting := WaitingAt(before.callbacks, request.taskKey);
    var deliveries := Deliver(request.taskKey, waiting, outcome);
    forall k ensures WaitingAt(before.callbacks, k) + Subs([], k) == Served(deliveries, k) + WaitingAt(after.callbacks, k) {
      ServedByDeliver(request.taskKey, waiting, outcome, k);
    }
  }

  lemma ComposeBalances(a: Lane, first: seq<Delivery>, b: Lane, second: seq<Delivery>, c: Lane)
    requires StepBalances(a, [], first, b) && StepBalances(b, [], second, c)
    requires Truthful(first) && Truthful(second)
    ensures StepBalances(a, [], first + second, c) && Truthful(first + second)
  {
    forall k ensures WaitingAt(a.callbacks, k) + Subs([], k) == Served(first + second, k) + WaitingAt(c.callbacks, k) {
      ServedAppend(first, second, k);
      assert WaitingAt(a.callbacks, k) + Subs([], k) == Served(first, k) + WaitingAt(b.callbacks, k);
      assert WaitingAt(b.callbacks, k) + Subs([], k) == Served(second, k) + WaitingAt(c.callbacks, k);
      Regroup(Served(first, k), Served(second, k), WaitingAt(c.callbacks, k));
    }
  }

  lemma FinishBalances(lane: Lane, request: Request, outcome: Outcome, now: nat)
    requires Legal(request) && outcome.intent == request.intent
    ensures
      var finished := Finish(lane, request, outcome, now);
      StepBalances(lane, [], finished.deliveries, finished.lane) && Truthful(finished.deliveries)
  {
    ServeBalances(lane, Finish(lane, request, outcome, now).lane, request, outcome);
  }

  lemma {:induction false} FlushBalances(lane: Lane, queue: seq<Request>)
    requires forall i :: 0 <= i < |queue| ==> Legal(queue[i])
    ensures StepBalances(lane, [], Flush(lane, queue).deliveries, Flush(lane, queue).lane)
    ensures Truthful(Flush(lane, queue).deliveries)
    decreases |queue|
  {
    if queue == [] {
      QuietBalances(lane, lane, []);
    } else {
      var head, cancelled := queue[0].taskKey, BareOutcome(Cancelled, queue[0].intent);
      var next := lane.(outcomes := Remember(lane.outcomes, cancelled), callbacks := lane.callbacks - {head});
      ServeBalances(lane, next, queue[0], cancelled);
      FlushBalances(next, queue[1..]);
      var rest := Flush(next, queue[1..]);
      ComposeBalances(lane, Deliver(head, WaitingAt(lane.callbacks, head), cancelled), next, rest.deliveries, rest.lane);
    }
  }

  lemma CancelBalances(lane: Lane, request: Request, now: nat)
    requires Legal(request)
    requires forall i :: 0 <= i < |PendingOf(lane, request.intent.provider)| ==>
      Legal(PendingOf(lane, request.intent.provider)[i])
    ensures
      var cancelled := Cancel(lane, request, now);
      StepBalances(lane, [], cancelled.deliveries, cancelled.lane) && Truthful(cancelled.deliveries)
  {
    var outcome, provider := BareOutcome(Cancelled, request.intent), request.intent.provider;
    var settled := Settle(lane, request, outcome, now);
    var emptied := settled.(pending := settled.pending - {provider});
    var first := Deliver(request.taskKey, WaitingAt(lane.callbacks, request.taskKey), outcome);
    var flushed := Flush(emptied, PendingOf(settled, provider));
    assert PendingOf(settled, provider) == PendingOf(lane, provider);
    ServeBalances(lane, emptied, request, outcome);
    FlushBalances(emptied, PendingOf(settled, provider));
    ComposeBalances(lane, first, emptied, flushed.deliveries, flushed.lane);
  }

  // ----- runs --------------------------------------------------------------

  /** The lane with the history of accepted and invoked callbacks. */
  datatype World = World(lane: Lane, accepted: seq<(RepairKey, Callback)>, delivered: seq<Delivery>)

  datatype Event =
    | Ask(request: Request, callback: Option<Callback>, now: nat)
    | Done(key: RepairKey, outcome: Outcome, now: nat)
    | Stopped(key: RepairKey, now: nat)

  const START := World(EMPTY_LANE, [], [])

  predicate Enabled(world: World, event: Event) {
    match event
    case Ask(request, _, _) => Legal(request)
    case Done(key, outcome, _) => key in world.lane.tasks && outcome.intent == world.lane.tasks[key].intent
    case Stopped(key, _) => key in world.lane.tasks
  }

  function Next(world: World, event: Event): World
    requires Enabled(world, event)
  {
    match event
    case Ask(request, callback, now) =>
      var step := Schedule(world.lane, request, callback, now);
      World(step.lane, world.accepted + Accepted(request, callback, step.admission), world.delivered + step.deliveries)
    case Done(key, outcome, now) =>
      var finished := Finish(world.lane, world.lane.tasks[key], outcome, now);
      World(finished.lane, world.accepted, world.delivered + finished.deliveries)
    case Stopped(key, now) =>
      var cancelled := Cancel(world.lane, world.lane.tasks[key], now);
      World(cancelled.lane, world.accepted, world.delivered + cancelled.deliveries)
  }

  /** `worlds[i + 1]` is `worlds[i]` after `events[i]`, from the empty lane on. */
  ghost predicate IsRun(worlds: seq<World>, events: seq<Event>) {
    && |worlds| == |events| + 1
    && worlds[0] == START
    && forall i :: 0 <= i < |events| ==> Enabled(worlds[i], events[i]) && worlds[i + 1] == Next(worlds[i], events[i])
  }

  /** Accepted callbacks of a key are those already invoked, then those waiting. */
  ghost predicate Balanced(world: World) {
    && (forall k :: Subs(world.accepted, k) == Served(world.delivered, k) + WaitingAt(world.lane.callbacks, k))
    && Truthful(world.delivered)
  }

  lemma BooksAdd(world: World, added: seq<(RepairKey, Callback)>, deliveries: seq<Delivery>, after: Lane)
    requires Balanced(world) && StepBalances(world.lane, added, deliveries, after) && Truthful(deliveries)
    ensures Balanced(World(after, world.accepted + added, world.delivered + deliveries))
  {
    forall k
      ensures Subs(world.accepted + added, k)
           == Served(world.delivered + deliveries, k) + WaitingAt(after.callbacks, k)
    {
      SubsAppend(world.accepted, added, k);
      ServedAppend(world.delivered, deliveries, k);
      var waiting, before := WaitingAt(world.lane.callbacks, k), Served(world.delivered, k);
      assert Subs(world.accepted, k) == before + waiting;
      Regroup(before, waiting, Subs(added, k));
      Regroup(before, Served(deliveries, k), WaitingAt(after.callbacks, k));
    }
  }

  lemma QueuedAreLegal(lane: Lane, provider: string)
    requires PendingOk(lane)
    ensures forall i :: 0 <= i < |PendingOf(lane, provider)| ==> Legal(PendingOf(lane, provider)[i])
  {
    assert provider in lane.pending ==> QueueOk(provider, lane.pending[provider]);
  }

  lemma NextKeeps(world: World, event: Event)
    requires Inv(world.lane) && Balanced(world) && Enabled(world, event)
    ensures Inv(Next(world, event).lane) && Balanced(Next(world, event))
  {
    match event
    case Ask(request, callback, now) =>
      var step := Schedule(world.lane, request, callback, now);
      ScheduleKeeps(world.lane, request, callback, now);
      ScheduleBalances(world.lane, request, callback, now);
      BooksAdd(world, Accepted(request, callback, step.admission), step.deliveries, step.lane);
    case Done(key, outcome, now) =>
      var request := world.lane.tasks[key];
      FinishKeeps(world.lane, request, outcome, now);
      FinishBalances(world.lane, request, outcome, now);
      var finished := Finish(world.lane, request, outcome, now);
      BooksAdd(world, [], finished.deliveries, finished.lane);
      assert world.accepted + [] == world.accepted;
    case Stopped(key, now) =>
      var request := world.lane.tasks[key];
      CancelKeeps(world.lane, request, now);
      QueuedAreLegal(world.lane, request.intent.provider);
      CancelBalances(world.lane, request, now);
      var cancelled := Cancel(world.lane, request, now);
      BooksAdd(world, [], cancelled.deliveries, cancelled.lane);
      assert world.accepted + [] == world.accepted;
  }

  /** Every reachable lane satisfies the invariant, and its books balance: each
      accepted callback is waiting or was invoked exactly once, in order, with an
      outcome of its own request. */
  lemma {:induction false} EveryReachableLane(worlds: seq<World>, events: seq<Event>, i: nat)
    requires IsRun(worlds, events) && i < |worlds|
    ensures Inv(worlds[i].lane) && Balanced(worlds[i])
  {
    if i > 0 {
      EveryReachableLane(worlds, events, i - 1);
      NextKeeps(worlds[i - 1], events[i - 1]);
    }
  }

  /** A key that is neither running nor queued owes nothing: every callback ever
      accepted for it has been invoked exactly once. */
  lemma SettledKeysAreServed(worlds: seq<World>, events: seq<Event>, i: nat, key: RepairKey)
    requires IsRun(worlds, events) && i < |worlds|
    requires !Present(worlds[i].lane, key)
    ensures Served(worlds[i].delivered, key) == Subs(worlds[i].accepted, key)
  {
    EveryReachableLane(worlds, events, i);
    assert key !in worlds[i].lane.callbacks;
    assert Subs(worlds[i].accepted, key)
        == Served(worlds[i].delivered, key) + WaitingAt(worlds[i].lane.callbacks, key);
  }
}
