/** What every step of the repair lane keeps. At most one request runs per provider;
    at most the allowed number is queued, under distinct keys, foreground before
    background, and only behind a running request; callbacks wait only for keys that
    are running or queued, never more than the allowed number; and the remembered
    outcomes stay a bounded map. */
module RepairLaneInvariant {
  import opened Wrappers
  import opened Sorting
  import opened HistoryContract
  import opened HistoryChunks
  import opened RepairLane

  /** A request filed under the key its own intent gives. */
  predicate Legal(request: Request) {
    && request.taskKey == KeyOf(request.intent)
    && request.intent.Nested()
  }

  ghost predicate DistinctKeys(queue: seq<Request>) {
    forall i, j :: 0 <= i < j < |queue| ==> queue[i].taskKey != queue[j].taskKey
  }

  ghost predicate ForegroundFirst(queue: seq<Request>) {
    forall i, j :: 0 <= i < j < |queue| && IsForeground(queue[j]) ==> IsForeground(queue[i])
  }

  ghost predicate QueueOk(provider: string, queue: seq<Request>) {
    && |queue| <= MAX_PENDING
    && DistinctKeys(queue)
    && ForegroundFirst(queue)
    && forall i :: 0 <= i < |queue| ==> Legal(queue[i]) && queue[i].intent.provider == provider
  }

  /** At most one running request per provider. */
  ghost predicate TasksOk(tasks: map<RepairKey, Request>) {
    && (forall k :: k in tasks ==> Legal(tasks[k]) && tasks[k].taskKey == k)
    && (forall j, k :: j in tasks && k in tasks && j.Provider() == k.Provider() ==> j == k)
  }

  /** A queue is never empty, never too long, and waits behind a running request. */
  ghost predicate PendingOk(lane: Lane) {
    forall p :: p in lane.pending ==> lane.pending[p] != [] && QueueOk(p, lane.pending[p]) && Active(lane, p)
  }

  predicate Present(lane: Lane, key: RepairKey) {
    key in lane.tasks || Queues(PendingOf(lane, key.Provider()), key)
  }

  /** Whoever waits, waits for something that is running or queued. */
  ghost predicate CallbacksOk(lane: Lane) {
    forall k :: k in lane.callbacks ==> 0 < |lane.callbacks[k]| <= MAX_CALLBACKS && Present(lane, k)
  }

  ghost predicate OutcomesOk(outcomes: seq<Outcome>) {
    && |outcomes| <= MAX_OUTCOMES
    && forall i, j :: 0 <= i < j < |outcomes| ==> KeyOf(outcomes[i].intent) != KeyOf(outcomes[j].intent)
  }

  ghost predicate Inv(lane: Lane) {
    TasksOk(lane.tasks) && PendingOk(lane) && CallbacksOk(lane) && OutcomesOk(lane.outcomes)
  }

  const EMPTY_LANE := Lane(map[], map[], map[], [], map[], map[])

  // ----- queues ------------------------------------------------------------

  predicate IsForeground(request: Request) {
    request.intent.priority.Foreground?
  }

  /** The requests of one priority, in queue order. */
  function Class(queue: seq<Request>, foreground: bool): seq<Request> {
    if queue == [] then []
    else (if IsForeground(queue[0]) == foreground then [queue[0]] else []) + Class(queue[1..], foreground)
  }

  lemma {:induction false} ClassAppends(a: seq<Request>, b: seq<Request>, foreground: bool)
    ensures Class(a + b, foreground) == Class(a, foreground) + Class(b, foreground)
  {
    if a == [] {
      assert a + b == b;
    } else {
      assert (a + b)[1..] == a[1..] + b;
      ClassAppends(a[1..], b, foreground);
    }
  }

  lemma {:induction false} ClassOfUniform(queue: seq<Request>, foreground: bool)
    requires forall i :: 0 <= i < |queue| ==> IsForeground(queue[i]) == foreground
    ensures Class(queue, foreground) == queue && Class(queue, !foreground) == []
  {
    if queue != [] {
      ClassOfUniform(queue[1..], foreground);
      assert queue == [queue[0]] + queue[1..];
    }
  }

  lemma {:induction false} ClassIsUniform(queue: seq<Request>, foreground: bool)
    ensures forall i :: 0 <= i < |Class(queue, foreground)| ==> IsForeground(Class(queue, foreground)[i]) == foreground
    ensures forall r :: r in Class(queue, foreground) ==> r in queue
  {
    if queue != [] {
      ClassIsUniform(queue[1..], foreground);
    }
  }

  lemma {:induction false} InsertIntoClasses(x: Request, fg: seq<Request>, bg: seq<Request>)
    requires forall i :: 0 <= i < |fg| ==> IsForeground(fg[i])
    requires forall i :: 0 <= i < |bg| ==> !IsForeground(bg[i])
    ensures Insert(x, fg + bg, RANK_KEY) == if IsForeground(x) then [x] + fg + bg else fg + [x] + bg
    decreases |fg|
  {
    if fg == [] {
      assert fg + bg == bg;
    } else if !IsForeground(x) {
      assert (fg + bg)[0] == fg[0] && (fg + bg)[1..] == fg[1..] + bg;
      InsertIntoClasses(x, fg[1..], bg);
      assert fg == [fg[0]] + fg[1..];
      assert Insert(x, fg + bg, RANK_KEY) == [fg[0]] + (fg[1..] + [x] + bg);
    }
  }

  /** Sorting by priority is a stable partition: foreground first, and within
      each priority the old order. */
  lemma {:induction false} PrioritizeIsPartition(queue: seq<Request>)
    ensures Prioritize(queue) == Class(queue, true) + Class(queue, false)
  {
    if queue != [] {
      var rest := queue[1..];
      PrioritizeIsPartition(rest);
      ClassIsUniform(rest, true);
      ClassIsUniform(rest, false);
      InsertIntoClasses(queue[0], Class(rest, true), Class(rest, false));
    }
  }

  lemma PrioritizeClasses(queue: seq<Request>, foreground: bool)
    ensures Class(Prioritize(queue), foreground) == Class(queue, foreground)
  {
    PrioritizeIsPartition(queue);
    ClassIsUniform(queue, true);
    ClassIsUniform(queue, false);
    ClassAppends(Class(queue, true), Class(queue, false), foreground);
    ClassOfUniform(Class(queue, true), true);
    ClassOfUniform(Class(queue, false), false);
  }

  lemma {:induction false} InsertDistinct(x: Request, queue: seq<Request>)
    requires DistinctKeys([x] + queue)
    ensures DistinctKeys(Insert(x, queue, RANK_KEY))
  {
    if queue == [] || KeyLeq(RANK_KEY(x), RANK_KEY(queue[0])) {
    } else {
      var rest := queue[1..];
      forall i, j | 0 <= i < j < |[x] + rest| ensures ([x] + rest)[i].taskKey != ([x] + rest)[j].taskKey {
        assert ([x] + rest)[j] == ([x] + queue)[j + 1];
        assert ([x] + rest)[i] == ([x] + queue)[if i == 0 then 0 else i + 1];
      }
      InsertDistinct(x, rest);
      InsertKeeps(x, rest, RANK_KEY);
      var inner := Insert(x, rest, RANK_KEY);
      forall j | 0 <= j < |inner| ensures inner[j].taskKey != queue[0].taskKey {
        assert inner[j] in multiset(inner);
        assert inner[j] == x || inner[j] in rest;
        assert ([x] + queue)[0] == x && ([x] + queue)[1] == queue[0];
        if inner[j] in rest {
          var k :| 0 <= k < |rest| && rest[k] == inner[j];
          assert ([x] + queue)[k + 2] == inner[j];
        }
      }
    }
  }

  lemma {:induction false} PrioritizeDistinct(queue: seq<Request>)
    requires DistinctKeys(queue)
    ensures DistinctKeys(Prioritize(queue))
  {
    if queue != [] {
      var rest := queue[1..];
      PrioritizeDistinct(rest);
      SortKeeps(rest, RANK_KEY);
      var sorted := Prioritize(rest);
      forall i, j | 0 <= i < j < |[queue[0]] + sorted|
        ensures ([queue[0]] + sorted)[i].taskKey != ([queue[0]] + sorted)[j].taskKey
      {
        if i == 0 {
          assert sorted[j - 1] in multiset(sorted);
          assert sorted[j - 1] in rest;
          var k :| 0 <= k < |rest| && rest[k] == sorted[j - 1];
          assert queue[k + 1] == sorted[j - 1];
        }
      }
      InsertDistinct(queue[0], sorted);
    }
  }

  /** Sorting a legal set of requests gives a legal queue with the same keys. */
  lemma PrioritizeOk(provider: string, queue: seq<Request>)
    requires |queue| <= MAX_PENDING && DistinctKeys(queue)
    requires forall i :: 0 <= i < |queue| ==> Legal(queue[i]) && queue[i].intent.provider == provider
    ensures QueueOk(provider, Prioritize(queue)) && |Prioritize(queue)| == |queue|
    ensures forall key :: Queues(Prioritize(queue), key) <==> Queues(queue, key)
  {
    var sorted := Prioritize(queue);
    PrioritizeDistinct(queue);
    PrioritizeForegroundFirst(queue);
    forall i | 0 <= i < |sorted| ensures Legal(sorted[i]) && sorted[i].intent.provider == provider {
      SameMembers(queue, RANK_KEY, sorted[i]);
    }
    forall key ensures Queues(sorted, key) <==> Queues(queue, key) {
      PrioritizeQueues(queue, key);
    }
  }

  lemma PrioritizeForegroundFirst(queue: seq<Request>)
    ensures ForegroundFirst(Prioritize(queue)) && |Prioritize(queue)| == |queue|
  {
    PrioritizeIsPartition(queue);
    ClassIsUniform(queue, true);
    ClassIsUniform(queue, false);
    SortKeeps(queue, RANK_KEY);
    assert |Prioritize(queue)| == |multiset(Prioritize(queue))|;
  }

  lemma PrioritizeQueues(queue: seq<Request>, key: RepairKey)
    ensures Queues(Prioritize(queue), key) <==> Queues(queue, key)
  {
    var sorted := Prioritize(queue);
    if i :| 0 <= i < |sorted| && sorted[i].taskKey == key {
      SameMembers(queue, RANK_KEY, sorted[i]);
    }
    if i :| 0 <= i < |queue| && queue[i].taskKey == key {
      SameMembers(queue, RANK_KEY, queue[i]);
      var j :| 0 <= j < |sorted| && sorted[j] == queue[i];
    }
  }

  // ----- outcomes ----------------------------------------------------------

  lemma {:induction false} WithoutFacts(outcomes: seq<Outcome>, key: RepairKey)
    ensures |Without(outcomes, key)| <= |outcomes|
    ensures forall o :: o in Without(outcomes, key) <==> o in outcomes && KeyOf(o.intent) != key
    ensures OutcomesOk(outcomes) ==> OutcomesOk(Without(outcomes, key))
  {
    if outcomes != [] {
      var rest := outcomes[1..];
      WithoutFacts(rest, key);
      if OutcomesOk(outcomes) {
        assert OutcomesOk(rest);
        forall o | o in Without(rest, key) ensures KeyOf(o.intent) != KeyOf(outcomes[0].intent) {
          var i :| 0 <= i < |rest| && rest[i] == o;
          assert outcomes[i + 1] == o;
        }
      }
    }
  }

  /** The outcome list stays a bounded map with the newest entry last. */
  lemma RememberOk(outcomes: seq<Outcome>, outcome: Outcome)
    requires OutcomesOk(outcomes)
    ensures OutcomesOk(Remember(outcomes, outcome))
    ensures Remember(outcomes, outcome)[|Remember(outcomes, outcome)| - 1] == outcome
  {
    var kept := Without(outcomes, KeyOf(outcome.intent));
    WithoutFacts(outcomes, KeyOf(outcome.intent));
    forall i | 0 <= i < |kept| ensures KeyOf(kept[i].intent) != KeyOf(outcome.intent) {
      assert kept[i] in kept;
    }
  }

  // ----- schedule keeps the invariant --------------------------------------

  lemma SubscribeFacts(callbacks: map<RepairKey, seq<Callback>>, key: RepairKey, callback: Option<Callback>)
    ensures
      var (after, subscribed) := Subscribe(callbacks, key, callback);
      && (subscribed <==> callback.Some? && |WaitingAt(callbacks, key)| < MAX_CALLBACKS)
      && (forall k :: WaitingAt(after, k) ==
            WaitingAt(callbacks, k) + if k == key && subscribed then [callback.value] else [])
      && (forall k :: k in after ==> k in callbacks || (k == key && subscribed))
      && (forall k :: k in callbacks ==> k in after)
  {
  }

  /** A lane whose callbacks only grew at one present key. */
  lemma CallbacksGrow(lane: Lane, after: Lane, key: RepairKey, callback: Option<Callback>)
    requires CallbacksOk(lane)
    requires after.callbacks == Subscribe(lane.callbacks, key, callback).0
    requires Present(after, key)
    requires forall k :: k in lane.callbacks && Present(lane, k) ==> Present(after, k)
    ensures CallbacksOk(after)
  {
    SubscribeFacts(lane.callbacks, key, callback);
  }

  lemma JoinOk(provider: string, queue: seq<Request>, request: Request)
    requires QueueOk(provider, queue) && Legal(request) && request.intent.provider == provider
    requires Queues(queue, request.taskKey)
    ensures QueueOk(provider, Join(queue, request)) && |Join(queue, request)| == |queue|
    ensures forall k :: Queues(Join(queue, request), k) <==> Queues(queue, k)
  {
    var i := IndexOf(queue, request.taskKey);
    var changed := queue[i := Upgraded(queue[i], request)];
    assert forall j :: 0 <= j < |queue| ==> changed[j].taskKey == queue[j].taskKey;
    PrioritizeOk(provider, changed);
    forall k ensures Queues(changed, k) <==> Queues(queue, k) {
      if j :| 0 <= j < |queue| && queue[j].taskKey == k {
        assert changed[j].taskKey == k;
      }
      if j :| 0 <= j < |queue| && changed[j].taskKey == k {
        assert queue[j].taskKey == k;
      }
    }
  }

  lemma QueuesAppends(queue: seq<Request>, request: Request, key: RepairKey)
    ensures Queues(queue + [request], key) <==> Queues(queue, key) || request.taskKey == key
  {
    if i :| 0 <= i < |queue| && queue[i].taskKey == key {
      assert (queue + [request])[i].taskKey == key;
    }
    if request.taskKey == key {
      assert (queue + [request])[|queue|].taskKey == key;
    }
    if i :| 0 <= i < |queue + [request]| && (queue + [request])[i].taskKey == key {
      assert i < |queue| ==> queue[i].taskKey == key;
    }
  }

  lemma RemovedFacts(queue: seq<Request>, i: nat, key: RepairKey)
    requires i < |queue| && DistinctKeys(queue)
    ensures DistinctKeys(Removed(queue, i))
    ensures Queues(Removed(queue, i), key) <==> Queues(queue, key) && key != queue[i].taskKey
  {
    var removed := Removed(queue, i);
    assert forall j :: 0 <= j < |removed| ==> removed[j] == queue[if j < i then j else j + 1];
    if j :| 0 <= j < |queue| && queue[j].taskKey == key && j != i {
      assert removed[if j < i then j else j - 1].taskKey == key;
    }
    if j :| 0 <= j < |removed| && removed[j].taskKey == key {
      assert queue[if j < i then j else j + 1].taskKey == key;
    }
  }

  /** Appending one new legal request to a queue with room. */
  lemma AppendOk(provider: string, queue: seq<Request>, request: Request)
    requires |queue| < MAX_PENDING && DistinctKeys(queue)
    requires forall i :: 0 <= i < |queue| ==> Legal(queue[i]) && queue[i].intent.provider == provider
    requires Legal(request) && request.intent.provider == provider && !Queues(queue, request.taskKey)
    ensures QueueOk(provider, Prioritize(queue + [request])) && Prioritize(queue + [request]) != []
    ensures forall k :: Queues(Prioritize(queue + [request]), k) <==> Queues(queue, k) || k == request.taskKey
  {
    PrioritizeOk(provider, queue + [request]);
    forall k ensures Queues(queue + [request], k) <==> Queues(queue, k) || k == request.taskKey {
      QueuesAppends(queue, request, k);
    }
  }

  /** Replacing one provider's queue keeps the other providers' queues. */
  lemma ReplaceQueue(lane: Lane, after: Lane, provider: string, queue: seq<Request>)
    requires PendingOk(lane) && after.tasks == lane.tasks
    requires after.pending == lane.pending[provider := queue]
    requires queue != [] && QueueOk(provider, queue) && Active(lane, provider)
    ensures PendingOk(after)
  {
    forall p | p in after.pending
      ensures after.pending[p] != [] && QueueOk(p, after.pending[p]) && Active(after, p)
    {
      assert Active(lane, p);
      var k :| k in lane.tasks && k.Provider() == p;
      assert k in after.tasks;
    }
  }

  /** Presence when one provider's queue is taken to be `queue`. */
  predicate PresentWith(lane: Lane, provider: string, queue: seq<Request>, key: RepairKey) {
    || key in lane.tasks
    || Queues(if key.Provider() == provider then queue else PendingOf(lane, key.Provider()), key)
  }

  lemma AdmitKeeps(lane: Lane, queue: seq<Request>, request: Request, callback: Option<Callback>,
                   deliveries: seq<Delivery>)
    requires TasksOk(lane.tasks) && PendingOk(lane) && OutcomesOk(lane.outcomes)
    requires Legal(request) && Active(lane, request.intent.provider)
    requires |queue| < MAX_PENDING && DistinctKeys(queue) && !Queues(queue, request.taskKey)
    requires forall i :: 0 <= i < |queue| ==> Legal(queue[i]) && queue[i].intent.provider == request.intent.provider
    requires forall k :: k in lane.callbacks ==>
      0 < |lane.callbacks[k]| <= MAX_CALLBACKS && PresentWith(lane, request.intent.provider, queue, k)
    ensures Inv(Admit(lane, queue, request, callback, deliveries).lane)
  {
    var provider, key := request.intent.provider, request.taskKey;
    var after := Admit(lane, queue, request, callback, deliveries).lane;
    AppendOk(provider, queue, request);
    ReplaceQueue(lane, after, provider, Prioritize(queue + [request]));
    WithoutFacts(lane.outcomes, key);
    SubscribeFacts(lane.callbacks, key, callback);
    forall k | k in after.callbacks ensures 0 < |after.callbacks[k]| <= MAX_CALLBACKS && Present(after, k) {
      assert WaitingAt(after.callbacks, k) == after.callbacks[k];
      assert k in lane.callbacks ==> PresentWith(lane, provider, queue, k);
      AdmittedQueues(lane, queue, request, callback, deliveries, k.Provider());
    }
  }

  lemma AdmittedQueues(lane: Lane, queue: seq<Request>, request: Request, callback: Option<Callback>,
                       deliveries: seq<Delivery>, p: string)
    ensures PendingOf(Admit(lane, queue, request, callback, deliveries).lane, p) ==
      if p == request.intent.provider then Prioritize(queue + [request]) else PendingOf(lane, p)
  {
  }

  lemma EnqueueKeeps(lane: Lane, request: Request, callback: Option<Callback>)
    requires Inv(lane) && Legal(request)
    requires Active(lane, request.intent.provider) && !Present(lane, request.taskKey)
    ensures Inv(Enqueue(lane, request, callback).lane)
  {
    var queue := PendingOf(lane, request.intent.provider);
    assert QueueOk(request.intent.provider, queue);
    if |queue| < MAX_PENDING {
      forall k | k in lane.callbacks ensures PresentWith(lane, request.intent.provider, queue, k) {
        assert Present(lane, k);
      }
      AdmitKeeps(lane, queue, request, callback, []);
    } else if request.intent.priority.Foreground? && LastBackground(queue).Some? {
      EvictKeeps(lane, request, callback, LastBackground(queue).value);
    }
  }

  lemma EvictKeeps(lane: Lane, request: Request, callback: Option<Callback>, i: nat)
    requires Inv(lane) && Legal(request)
    requires Active(lane, request.intent.provider) && !Present(lane, request.taskKey)
    requires i < |PendingOf(lane, request.intent.provider)| == MAX_PENDING
    ensures
      var queue := PendingOf(lane, request.intent.provider);
      var superseded := BareOutcome(Superseded, queue[i].intent);
      var left := lane.(outcomes := Remember(lane.outcomes, superseded), callbacks := lane.callbacks - {queue[i].taskKey});
      forall deliveries :: Inv(Admit(left, Removed(queue, i), request, callback, deliveries).lane)
  {
    var provider := request.intent.provider;
    var queue := PendingOf(lane, provider);
    var superseded := BareOutcome(Superseded, queue[i].intent);
    var left := lane.(outcomes := Remember(lane.outcomes, superseded), callbacks := lane.callbacks - {queue[i].taskKey});
    var rest := Removed(queue, i);
    assert QueueOk(provider, queue);
    RemovedFacts(queue, i, request.taskKey);
    assert forall j :: 0 <= j < |rest| ==> rest[j] == queue[if j < i then j else j + 1];
    RememberOk(lane.outcomes, superseded);
    forall p | p in left.pending ensures Active(left, p) {
      assert Active(lane, p);
    }
    forall k | k in left.callbacks ensures PresentWith(left, provider, rest, k) {
      assert Present(lane, k);
      RemovedFacts(queue, i, k);
    }
    forall deliveries ensures Inv(Admit(left, rest, request, callback, deliveries).lane) {
      AdmitKeeps(left, rest, request, callback, deliveries);
    }
  }

  lemma JoinRunningKeeps(lane: Lane, request: Request, callback: Option<Callback>)
    requires Inv(lane) && request.taskKey in lane.tasks
    ensures Inv(JoinRunning(lane, request, callback).lane)
  {
    var after := JoinRunning(lane, request, callback).lane;
    SameQueues(lane, after.(callbacks := lane.callbacks));
    CallbacksGrow(lane, after, request.taskKey, callback);
  }

  lemma JoinQueuedKeeps(lane: Lane, request: Request, callback: Option<Callback>)
    requires Inv(lane) && Legal(request)
    requires Queues(PendingOf(lane, request.intent.provider), request.taskKey)
    ensures Inv(JoinQueued(lane, request, callback).lane)
  {
    var provider := request.intent.provider;
    var queue := PendingOf(lane, provider);
    var after := JoinQueued(lane, request, callback).lane;
    assert QueueOk(provider, queue) && Active(lane, provider);
    JoinOk(provider, queue, request);
    ReplaceQueue(lane, after, provider, Join(queue, request));
    CallbacksGrow(lane, after, request.taskKey, callback);
  }

  lemma StartKeeps(lane: Lane, request: Request, callback: Option<Callback>)
    requires Inv(lane) && Legal(request) && !Active(lane, request.intent.provider)
    ensures Inv(Start(lane, request, callback).lane)
  {
    var after := Start(lane, request, callback).lane;
    WithoutFacts(lane.outcomes, request.taskKey);
    forall p | p in after.pending ensures Active(after, p) {
      assert Active(lane, p);
      var k :| k in lane.tasks && k.Provider() == p;
      assert k in after.tasks;
    }
    CallbacksGrow(lane, after, request.taskKey, callback);
  }

  /** A lane that differs only in its cooldowns and generation blocks. */
  lemma SameQueues(lane: Lane, after: Lane)
    requires Inv(lane)
    requires after.tasks == lane.tasks && after.pending == lane.pending
    requires after.callbacks == lane.callbacks && after.outcomes == lane.outcomes
    ensures Inv(after)
  {
    forall p | p in after.pending ensures Active(after, p) {
      assert Active(lane, p);
    }
    forall k | k in after.callbacks ensures Present(after, k) {
      assert Present(lane, k);
    }
  }

  lemma ScheduleKeeps(lane: Lane, request: Request, callback: Option<Callback>, now: nat)
    requires Inv(lane) && Legal(request)
    ensures Inv(Schedule(lane, request, callback, now).lane)
  {
    var intent, key := request.intent, request.taskKey;
    var lifted := lane.(awaiting := LiftBlocks(lane.awaiting, intent));
    SameQueues(lane, lifted);
    if !Blocked(lifted.awaiting, intent) {
      var open := lifted.(nextAllowed := LiveCooldowns(lane.nextAllowed, lane.tasks, now));
      SameQueues(lane, open);
      if key in open.tasks {
        JoinRunningKeeps(open, request, callback);
      } else if Queues(PendingOf(open, intent.provider), key) {
        JoinQueuedKeeps(open, request, callback);
      } else if key in open.nextAllowed && now < open.nextAllowed[key] {
      } else if Active(open, intent.provider) {
        EnqueueKeeps(open, request, callback);
      } else {
        StartKeeps(open, request, callback);
      }
    }
  }

  // ----- finish and cancel keep the invariant ------------------------------

  lemma StaysActive(lane: Lane, after: Lane, provider: string)
    requires Active(lane, provider)
    requires forall k :: k in lane.tasks && k.Provider() == provider ==> k in after.tasks
    ensures Active(after, provider)
  {
    var k :| k in lane.tasks && k.Provider() == provider;
    assert k in after.tasks;
  }

  /** After the running request settles its provider is idle. */
  lemma SettleTasks(lane: Lane, request: Request, outcome: Outcome, now: nat)
    requires Inv(lane) && request.taskKey in lane.tasks && lane.tasks[request.taskKey] == request
    ensures
      var settled := Settle(lane, request, outcome, now);
      TasksOk(settled.tasks) && !Active(settled, request.intent.provider)
  {
    var settled := Settle(lane, request, outcome, now);
    assert request.taskKey.Provider() == request.intent.provider;
    forall k | k in settled.tasks ensures k.Provider() != request.intent.provider {
      assert k in lane.tasks && k != request.taskKey;
    }
  }

  lemma SettleOthers(lane: Lane, request: Request, outcome: Outcome, now: nat, provider: string)
    requires Inv(lane) && request.taskKey in lane.tasks && lane.tasks[request.taskKey] == request
    requires provider in lane.pending && provider != request.intent.provider
    ensures Active(Settle(lane, request, outcome, now), provider)
  {
    assert Active(lane, provider);
    assert request.taskKey.Provider() == request.intent.provider;
    StaysActive(lane, Settle(lane, request, outcome, now), provider);
  }

  lemma SettleCallbacks(lane: Lane, request: Request, outcome: Outcome, now: nat)
    requires Inv(lane)
    ensures CallbacksOk(Settle(lane, request, outcome, now))
  {
    var settled := Settle(lane, request, outcome, now);
    forall k | k in settled.callbacks ensures 0 < |settled.callbacks[k]| <= MAX_CALLBACKS && Present(settled, k) {
      assert Present(lane, k);
      assert PendingOf(settled, k.Provider()) == PendingOf(lane, k.Provider());
    }
  }

  lemma AdvanceActive(lane: Lane, provider: string, continuation: Option<Request>, p: string)
    requires p in Advance(lane, provider, continuation).pending && lane.pending[p] != []
    requires p != provider ==> Active(lane, p)
    requires p == provider ==> Legal(lane.pending[p][0]) && lane.pending[p][0].intent.provider == provider
    requires continuation.Some? ==> Legal(continuation.value) && continuation.value.intent.provider == provider
    ensures Active(Advance(lane, provider, continuation), p)
  {
    var after := Advance(lane, provider, continuation);
    if p == provider {
      var started := if continuation.Some? then continuation.value else lane.pending[p][0];
      assert started.taskKey in after.tasks && started.taskKey.Provider() == provider;
    } else {
      StaysActive(lane, after, p);
    }
  }

  /** Starting one request for an idle provider: queues. */
  lemma AdvancePending(lane: Lane, provider: string, continuation: Option<Request>)
    requires forall p :: p in lane.pending ==>
      lane.pending[p] != [] && QueueOk(p, lane.pending[p]) && (p != provider ==> Active(lane, p))
    requires continuation.Some? ==> Legal(continuation.value) && continuation.value.intent.provider == provider
    ensures PendingOk(Advance(lane, provider, continuation))
  {
    var after := Advance(lane, provider, continuation);
    forall p | p in after.pending ensures after.pending[p] != [] && QueueOk(p, after.pending[p]) && Active(after, p) {
      AdvanceActive(lane, provider, continuation, p);
      AdvanceQueue(lane, provider, continuation, p);
    }
  }

  lemma AdvanceQueue(lane: Lane, provider: string, continuation: Option<Request>, p: string)
    requires p in lane.pending && lane.pending[p] != [] && QueueOk(p, lane.pending[p])
    requires p in Advance(lane, provider, continuation).pending
    ensures
      var queue := Advance(lane, provider, continuation).pending[p];
      queue != [] && QueueOk(p, queue)
  {
    TailOk(p, lane.pending[p]);
  }

  lemma AdvanceTasks(lane: Lane, provider: string, continuation: Option<Request>)
    requires TasksOk(lane.tasks) && !Active(lane, provider)
    requires provider in lane.pending ==> QueueOk(provider, lane.pending[provider])
    requires continuation.Some? ==> Legal(continuation.value) && continuation.value.intent.provider == provider
    ensures TasksOk(Advance(lane, provider, continuation).tasks)
  {
    var queue := PendingOf(lane, provider);
    if continuation.Some? {
      StartedTasks(lane, provider, continuation.value);
    } else if queue != [] {
      StartedTasks(lane, provider, queue[0]);
    }
  }

  lemma StartedTasks(lane: Lane, provider: string, request: Request)
    requires TasksOk(lane.tasks) && !Active(lane, provider)
    requires Legal(request) && request.intent.provider == provider
    ensures TasksOk(lane.tasks[request.taskKey := request])
  {
    assert request.taskKey.Provider() == provider;
    forall k | k in lane.tasks ensures k.Provider() != provider {
    }
  }

  lemma AdvanceCallbacks(lane: Lane, provider: string, continuation: Option<Request>)
    requires CallbacksOk(lane)
    ensures CallbacksOk(Advance(lane, provider, continuation))
  {
    var after := Advance(lane, provider, continuation);
    var queue := PendingOf(lane, provider);
    forall k | k in after.callbacks ensures 0 < |after.callbacks[k]| <= MAX_CALLBACKS && Present(after, k) {
      assert Present(lane, k);
      if k !in lane.tasks && k.Provider() == provider && continuation.None? {
        HeadOrTail(queue, k);
        assert |queue| == 1 ==> queue[1..] == [];
        assert |queue| > 1 ==> PendingOf(after, provider) == queue[1..];
      } else if k !in lane.tasks {
        assert PendingOf(after, k.Provider()) == PendingOf(lane, k.Provider());
      }
    }
  }

  lemma TailOk(provider: string, queue: seq<Request>)
    requires queue != [] && QueueOk(provider, queue)
    ensures QueueOk(provider, queue[1..])
  {
  }

  lemma HeadOrTail(queue: seq<Request>, key: RepairKey)
    requires Queues(queue, key)
    ensures queue[0].taskKey == key || Queues(queue[1..], key)
  {
    var i :| 0 <= i < |queue| && queue[i].taskKey == key;
    assert i > 0 ==> queue[1..][i - 1].taskKey == key;
  }

  lemma NextRequestLegal(request: Request, outcome: Outcome)
    requires Legal(request) && NextRequest(request, outcome).Some?
    ensures Legal(NextRequest(request, outcome).value)
    ensures NextRequest(request, outcome).value.intent.provider == request.intent.provider
  {
    ContinuationShape(request.intent, outcome);
  }

  lemma FinishKeeps(lane: Lane, request: Request, outcome: Outcome, now: nat)
    requires Inv(lane) && request.taskKey in lane.tasks && lane.tasks[request.taskKey] == request
    ensures Inv(Finish(lane, request, outcome, now).lane)
  {
    var settled, provider := Settle(lane, request, outcome, now), request.intent.provider;
    var continuation := NextRequest(request, outcome);
    SettleTasks(lane, request, outcome, now);
    SettleCallbacks(lane, request, outcome, now);
    RememberOk(lane.outcomes, outcome);
    forall p | p in lane.pending && p != provider ensures Active(settled, p) {
      SettleOthers(lane, request, outcome, now, p);
    }
    if continuation.Some? {
      NextRequestLegal(request, outcome);
    }
    AdvancePending(settled, provider, continuation);
    AdvanceTasks(settled, provider, continuation);
    AdvanceCallbacks(settled, provider, continuation);
  }

  /** Flushing serves exactly the queued keys and touches nothing else. */
  lemma {:induction false} FlushFacts(lane: Lane, queue: seq<Request>)
    requires OutcomesOk(lane.outcomes)
    ensures
      var flushed := Flush(lane, queue).lane;
      && OutcomesOk(flushed.outcomes)
      && flushed == lane.(outcomes := flushed.outcomes, callbacks := flushed.callbacks)
      && (forall k :: k in flushed.callbacks <==> k in lane.callbacks && !Queues(queue, k))
      && (forall k :: k in flushed.callbacks ==> flushed.callbacks[k] == lane.callbacks[k])
    decreases |queue|
  {
    if queue != [] {
      var cancelled := BareOutcome(Cancelled, queue[0].intent);
      RememberOk(lane.outcomes, cancelled);
      var next := lane.(outcomes := Remember(lane.outcomes, cancelled), callbacks := lane.callbacks - {queue[0].taskKey});
      FlushFacts(next, queue[1..]);
      forall k ensures Queues(queue, k) <==> queue[0].taskKey == k || Queues(queue[1..], k) {
        if Queues(queue, k) {
          HeadOrTail(queue, k);
        }
        if i :| 0 <= i < |queue[1..]| && queue[1..][i].taskKey == k {
          assert queue[i + 1].taskKey == k;
        }
      }
    }
  }

  /** The other queues are untouched, so they stay as they were. */
  lemma DropQueue(lane: Lane, after: Lane, provider: string)
    requires forall p :: p in lane.pending ==>
      lane.pending[p] != [] && QueueOk(p, lane.pending[p]) && (p != provider ==> Active(lane, p))
    requires after.tasks == lane.tasks && after.pending == lane.pending - {provider}
    ensures PendingOk(after)
  {
    forall p | p in after.pending ensures after.pending[p] != [] && QueueOk(p, after.pending[p]) && Active(after, p) {
      assert p in lane.pending && p != provider;
      StaysActive(lane, after, p);
    }
  }

  lemma DropCallbacks(lane: Lane, after: Lane, provider: string, key: RepairKey)
    requires CallbacksOk(lane) && key in lane.callbacks
    requires after.tasks == lane.tasks && after.pending == lane.pending - {provider}
    requires !Queues(PendingOf(lane, provider), key)
    ensures Present(after, key)
  {
    assert Present(lane, key);
    assert key.Provider() != provider ==> PendingOf(after, key.Provider()) == PendingOf(lane, key.Provider());
  }

  /** Emptying a provider's queue together with its subscribers. */
  lemma FlushKeeps(settled: Lane, provider: string)
    requires CallbacksOk(settled) && OutcomesOk(settled.outcomes)
    ensures
      var after := Flush(settled.(pending := settled.pending - {provider}), PendingOf(settled, provider)).lane;
      && after.tasks == settled.tasks && after.pending == settled.pending - {provider}
      && CallbacksOk(after) && OutcomesOk(after.outcomes)
  {
    var queue, emptied := PendingOf(settled, provider), settled.(pending := settled.pending - {provider});
    var after := Flush(emptied, queue).lane;
    FlushFacts(emptied, queue);
    forall k | k in after.callbacks ensures 0 < |after.callbacks[k]| <= MAX_CALLBACKS && Present(after, k) {
      DropCallbacks(settled, after, provider, k);
    }
  }

  lemma CancelKeeps(lane: Lane, request: Request, now: nat)
    requires Inv(lane) && request.taskKey in lane.tasks && lane.tasks[request.taskKey] == request
    ensures Inv(Cancel(lane, request, now).lane)
    ensures !Active(Cancel(lane, request, now).lane, request.intent.provider)
    ensures PendingOf(Cancel(lane, request, now).lane, request.intent.provider) == []
  {
    var cancelled, provider := BareOutcome(Cancelled, request.intent), request.intent.provider;
    var settled := Settle(lane, request, cancelled, now);
    SettleTasks(lane, request, cancelled, now);
    SettleCallbacks(lane, request, cancelled, now);
    RememberOk(lane.outcomes, cancelled);
    forall p | p in lane.pending && p != provider ensures Active(settled, p) {
      SettleOthers(lane, request, cancelled, now, p);
    }
    FlushKeeps(settled, provider);
    DropQueue(settled, Cancel(lane, request, now).lane, provider);
  }

  /** Nobody waits on a provider with nothing running and nothing queued. */
  lemma IdleMeansServed(lane: Lane, provider: string, key: RepairKey)
    requires Inv(lane) && !Active(lane, provider) && key.Provider() == provider
    ensures key !in lane.callbacks && PendingOf(lane, provider) == []
  {
    assert provider !in lane.pending;
    assert key in lane.callbacks ==> Present(lane, key);
  }
}
