/** The history-repair lane as a state machine: one atomic step per locked region.
    `Schedule` and `Finish` are the specification the orchestrator class refines. */
module RepairLane {
  import opened Wrappers
  import opened Sorting
  import opened Timeframes
  import opened HistoryContract
  import opened HistoryChunks

  const MAX_PENDING := 32
  const MAX_CALLBACKS := 32
  const MAX_OUTCOMES := 256
  const FAILURE_BACKOFF := 300 * MICROS_PER_SECOND

  datatype CursorKey = CursorKey(
    provider: string,
    instrumentId: string,
    routeFingerprint: string,
    timeframe: Timeframe,
    startsAt: int,
    endsAt: int,
    targetStartsAt: int,
    targetEndsAt: int,
    identity: RequestIdentity
  )

  datatype RepairKey = RepairKey(cursor: CursorKey, canonicalGeneration: nat) {
    function Provider(): string {
      cursor.provider
    }
  }

  function CursorOf(intent: Intent): CursorKey {
    CursorKey(intent.provider, intent.instrumentId, intent.routeFingerprint, intent.timeframe, intent.startsAt,
      intent.endsAt, intent.targetStartsAt, intent.targetEndsAt, intent.identity)
  }

  function KeyOf(intent: Intent): RepairKey {
    RepairKey(CursorOf(intent), intent.canonicalGeneration)
  }

  /** A subscriber, identified by an opaque token. */
  type Callback = nat

  /** A request waiting or running; instrument, fetch, commit and store are opaque handles. */
  datatype Request = Request(
    taskKey: RepairKey,
    exactAuthority: bool,
    instrument: nat,
    intent: Intent,
    timeout: nat,
    fetch: nat,
    commit: nat,
    store: nat
  )

  datatype AdmissionStatus = Scheduled | Running | Queued | AwaitingGenerationAdvance | Throttled | QueueFull

  datatype Admission = Admission(
    status: AdmissionStatus,
    intent: Intent,
    newlyAdmitted: bool,
    subscribed: bool,
    retryAfter: nat
  )

  /** One callback invocation. */
  datatype Delivery = Delivery(key: RepairKey, callback: Callback, outcome: Outcome)

  datatype Lane = Lane(
    tasks: map<RepairKey, Request>,
    pending: map<string, seq<Request>>,
    callbacks: map<RepairKey, seq<Callback>>,
    outcomes: seq<Outcome>,
    nextAllowed: map<RepairKey, nat>,
    awaiting: map<CursorKey, nat>
  )

  datatype Step = Step(lane: Lane, admission: Admission, deliveries: seq<Delivery>)

  // ----- pieces ------------------------------------------------------------

  function PendingOf(lane: Lane, provider: string): seq<Request> {
    if provider in lane.pending then lane.pending[provider] else []
  }

  function WaitingAt(callbacks: map<RepairKey, seq<Callback>>, key: RepairKey): seq<Callback> {
    if key in callbacks then callbacks[key] else []
  }

  predicate Active(lane: Lane, provider: string) {
    exists k :: k in lane.tasks && k.Provider() == provider
  }

  predicate Queues(queue: seq<Request>, key: RepairKey) {
    exists i :: 0 <= i < |queue| && queue[i].taskKey == key
  }

  function IndexOf(queue: seq<Request>, key: RepairKey): (i: nat)
    requires Queues(queue, key)
    ensures i < |queue| && queue[i].taskKey == key
    ensures forall j :: 0 <= j < i ==> queue[j].taskKey != key
  {
    if queue[0].taskKey == key then 0
    else
      assert Queues(queue[1..], key) by {
        var i :| 0 <= i < |queue| && queue[i].taskKey == key;
        assert queue[1..][i - 1].taskKey == key;
      }
      1 + IndexOf(queue[1..], key)
  }

  const RANK_KEY: Request -> Key := (r: Request) => Key(r.intent.priority.Rank(), 0)

  /** `sorted` by priority; Python's sort is stable, and so is this one. */
  function Prioritize(queue: seq<Request>): seq<Request> {
    Sort(queue, RANK_KEY)
  }

  function Subscribe(callbacks: map<RepairKey, seq<Callback>>, key: RepairKey, callback: Option<Callback>)
    : (map<RepairKey, seq<Callback>>, bool)
  {
    if callback.None? || |WaitingAt(callbacks, key)| >= MAX_CALLBACKS then (callbacks, false)
    else (callbacks[key := WaitingAt(callbacks, key) + [callback.value]], true)
  }

  function Without(outcomes: seq<Outcome>, key: RepairKey): seq<Outcome> {
    if outcomes == [] then []
    else if KeyOf(outcomes[0].intent) == key then Without(outcomes[1..], key)
    else [outcomes[0]] + Without(outcomes[1..], key)
  }

  /** Keeps the newest outcomes, the latest one last. */
  function Remember(outcomes: seq<Outcome>, outcome: Outcome): seq<Outcome> {
    var all := Without(outcomes, KeyOf(outcome.intent)) + [outcome];
    if |all| > MAX_OUTCOMES then all[|all| - MAX_OUTCOMES..] else all
  }

  function Deliver(key: RepairKey, callbacks: seq<Callback>, outcome: Outcome): seq<Delivery> {
    seq(|callbacks|, i requires 0 <= i < |callbacks| => Delivery(key, callbacks[i], outcome))
  }

  /** The blocks a newer canonical generation of the same chart lifts. */
  predicate Outdated(blocked: CursorKey, generation: nat, intent: Intent) {
    && blocked.provider == intent.provider
    && blocked.instrumentId == intent.instrumentId
    && blocked.routeFingerprint == intent.routeFingerprint
    && blocked.timeframe == intent.timeframe
    && generation < intent.canonicalGeneration
  }

  function LiftBlocks(awaiting: map<CursorKey, nat>, intent: Intent): map<CursorKey, nat> {
    map k | k in awaiting && !Outdated(k, awaiting[k], intent) :: awaiting[k]
  }

  function LiveCooldowns(nextAllowed: map<RepairKey, nat>, tasks: map<RepairKey, Request>, now: nat)
    : map<RepairKey, nat>
  {
    map k | k in nextAllowed && !(nextAllowed[k] <= now && k !in tasks) :: nextAllowed[k]
  }

  /** The last background request of a queue, counting from its end. */
  function LastBackground(queue: seq<Request>): (r: Option<nat>)
    ensures r.None? ==> forall i :: 0 <= i < |queue| ==> queue[i].intent.priority.Foreground?
    ensures r.Some? ==> r.value < |queue| && queue[r.value].intent.priority.Background?
    ensures r.Some? ==> forall i :: r.value < i < |queue| ==> queue[i].intent.priority.Foreground?
    decreases |queue|
  {
    if queue == [] then None
    else if queue[|queue| - 1].intent.priority.Background? then Some(|queue| - 1)
    else LastBackground(queue[..|queue| - 1])
  }

  function Removed(queue: seq<Request>, i: nat): seq<Request>
    requires i < |queue|
  {
    queue[..i] + queue[i + 1..]
  }

  // ----- schedule ----------------------------------------------------------

  function Refused(lane: Lane, status: AdmissionStatus, intent: Intent, retryAfter: nat): Step {
    Step(lane, Admission(status, intent, false, false, retryAfter), [])
  }

  /** The existing pending entry, refreshed by a more urgent request. */
  function Upgraded(existing: Request, request: Request): Request {
    existing.(intent := request.intent,
              timeout := if existing.timeout < request.timeout then existing.timeout else request.timeout,
              fetch := request.fetch, commit := request.commit, store := request.store)
  }

  function Join(queue: seq<Request>, request: Request): seq<Request>
    requires Queues(queue, request.taskKey)
  {
    var i := IndexOf(queue, request.taskKey);
    if request.intent.priority.Rank() < queue[i].intent.priority.Rank() then
      Prioritize(queue[i := Upgraded(queue[i], request)])
    else queue
  }

  function Admit(lane: Lane, queue: seq<Request>, request: Request, callback: Option<Callback>,
                 deliveries: seq<Delivery>): Step
  {
    var (callbacks, subscribed) := Subscribe(lane.callbacks, request.taskKey, callback);
    Step(lane.(pending := lane.pending[request.intent.provider := Prioritize(queue + [request])],
               outcomes := Without(lane.outcomes, request.taskKey),
               callbacks := callbacks),
         Admission(Queued, request.intent, true, subscribed, 0), deliveries)
  }

  /** Joins a busy lane: a full queue gives way only to foreground work, and then
      by dropping its last background request. */
  function Enqueue(lane: Lane, request: Request, callback: Option<Callback>): Step {
    var queue := PendingOf(lane, request.intent.provider);
    if |queue| < MAX_PENDING then Admit(lane, queue, request, callback, [])
    else if request.intent.priority.Background? || LastBackground(queue).None? then
      Refused(lane, QueueFull, request.intent, 0)
    else
      var i := LastBackground(queue).value;
      var evicted := queue[i];
      var superseded := BareOutcome(Superseded, evicted.intent);
      Admit(lane.(outcomes := Remember(lane.outcomes, superseded), callbacks := lane.callbacks - {evicted.taskKey}),
            Removed(queue, i), request, callback,
            Deliver(evicted.taskKey, WaitingAt(lane.callbacks, evicted.taskKey), superseded))
  }

  /** The same request is already running: only the subscriber is added. */
  function JoinRunning(lane: Lane, request: Request, callback: Option<Callback>): Step {
    var (callbacks, subscribed) := Subscribe(lane.callbacks, request.taskKey, callback);
    Step(lane.(callbacks := callbacks), Admission(Running, request.intent, false, subscribed, 0), [])
  }

  /** The same request is already queued: it may become more urgent. */
  function JoinQueued(lane: Lane, request: Request, callback: Option<Callback>): Step
    requires Queues(PendingOf(lane, request.intent.provider), request.taskKey)
  {
    var (callbacks, subscribed) := Subscribe(lane.callbacks, request.taskKey, callback);
    var provider := request.intent.provider;
    Step(lane.(pending := lane.pending[provider := Join(PendingOf(lane, provider), request)], callbacks := callbacks),
         Admission(Queued, request.intent, false, subscribed, 0), [])
  }

  function Start(lane: Lane, request: Request, callback: Option<Callback>): Step {
    var (callbacks, subscribed) := Subscribe(lane.callbacks, request.taskKey, callback);
    Step(lane.(callbacks := callbacks, outcomes := Without(lane.outcomes, request.taskKey),
               tasks := lane.tasks[request.taskKey := request]),
         Admission(Scheduled, request.intent, true, subscribed, 0), [])
  }

  predicate Blocked(awaiting: map<CursorKey, nat>, intent: Intent) {
    CursorOf(intent) in awaiting && intent.canonicalGeneration <= awaiting[CursorOf(intent)]
  }

  /** Admission once no generation blocks the request. */
  function Proceed(open: Lane, request: Request, callback: Option<Callback>, now: nat): Step {
    var intent, key := request.intent, request.taskKey;
    if key in open.tasks then JoinRunning(open, request, callback)
    else if Queues(PendingOf(open, intent.provider), key) then JoinQueued(open, request, callback)
    else if key in open.nextAllowed && now < open.nextAllowed[key] then
      Refused(open, Throttled, intent, open.nextAllowed[key] - now)
    else if Active(open, intent.provider) then Enqueue(open, request, callback)
    else Start(open, request, callback)
  }

  function Schedule(lane: Lane, request: Request, callback: Option<Callback>, now: nat): Step {
    var lifted := lane.(awaiting := LiftBlocks(lane.awaiting, request.intent));
    if Blocked(lifted.awaiting, request.intent) then Refused(lifted, AwaitingGenerationAdvance, request.intent, 0)
    else Proceed(lifted.(nextAllowed := LiveCooldowns(lane.nextAllowed, lane.tasks, now)), request, callback, now)
  }

  // ----- finish ------------------------------------------------------------

  predicate TerminalNoProgress(outcome: Outcome) {
    && (outcome.status.NoChange? || outcome.status.Incomplete? || outcome.status.Malformed?)
    && outcome.writtenBars == 0 && outcome.deletedBars == 0 && !outcome.coverageExpanded
  }

  function Cooldown(intent: Intent, outcome: Outcome): nat {
    if (outcome.status.FetchFailed? || outcome.status.StorageFailed? || outcome.status.CommitFailed?
        || outcome.status.CommitQueueFull? || outcome.status.Malformed?) && intent.cooldown < FAILURE_BACKOFF
    then FAILURE_BACKOFF else intent.cooldown
  }

  function NextRequest(request: Request, outcome: Outcome): Option<Request> {
    match Continuation(request.intent, outcome)
    case None => None
    case Some(next) => Some(request.(taskKey := KeyOf(next), intent := next))
  }

  /** What every way of finishing does before the lane moves on. */
  function Settle(lane: Lane, request: Request, outcome: Outcome, now: nat): Lane {
    lane.(
      outcomes := Remember(lane.outcomes, outcome),
      awaiting := if TerminalNoProgress(outcome)
                  then lane.awaiting[CursorOf(request.intent) := request.intent.canonicalGeneration]
                  else lane.awaiting,
      nextAllowed := lane.nextAllowed[request.taskKey := now + Cooldown(request.intent, outcome)],
      tasks := lane.tasks - {request.taskKey},
      callbacks := lane.callbacks - {request.taskKey})
  }

  /** Starts the older chunk if there is one, else the head of the queue. */
  function Advance(lane: Lane, provider: string, continuation: Option<Request>): Lane {
    var queue := PendingOf(lane, provider);
    if continuation.Some? then lane.(tasks := lane.tasks[continuation.value.taskKey := continuation.value])
    else if queue == [] then lane.(pending := lane.pending - {provider})
    else
      lane.(tasks := lane.tasks[queue[0].taskKey := queue[0]],
            pending := if |queue| == 1 then lane.pending - {provider} else lane.pending[provider := queue[1..]])
  }

  datatype Finished = Finished(lane: Lane, deliveries: seq<Delivery>)

  function Finish(lane: Lane, request: Request, outcome: Outcome, now: nat): Finished {
    Finished(
      Advance(Settle(lane, request, outcome, now), request.intent.provider, NextRequest(request, outcome)),
      Deliver(request.taskKey, WaitingAt(lane.callbacks, request.taskKey), outcome))
  }

  /** Cancels queued requests in order. */
  function Flush(lane: Lane, queue: seq<Request>): Finished
    decreases |queue|
  {
    if queue == [] then Finished(lane, [])
    else
      var cancelled := BareOutcome(Cancelled, queue[0].intent);
      var rest := Flush(
        lane.(outcomes := Remember(lane.outcomes, cancelled), callbacks := lane.callbacks - {queue[0].taskKey}),
        queue[1..]);
      Finished(rest.lane,
        Deliver(queue[0].taskKey, WaitingAt(lane.callbacks, queue[0].taskKey), cancelled) + rest.deliveries)
  }

  /** Cancelling the running request empties the whole provider lane. */
  function Cancel(lane: Lane, request: Request, now: nat): Finished {
    var cancelled := BareOutcome(Cancelled, request.intent);
    var provider := request.intent.provider;
    var settled := Settle(lane, request, cancelled, now);
    var flushed := Flush(settled.(pending := settled.pending - {provider}), PendingOf(settled, provider));
    Finished(flushed.lane,
      Deliver(request.taskKey, WaitingAt(lane.callbacks, request.taskKey), cancelled) + flushed.deliveries)
  }
}
