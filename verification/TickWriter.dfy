/** The tick micro-batch writer as a state machine. */
module TickWriter {
  import opened Wrappers
  import opened LossLedger
  import opened Subsequences

  const MAX_ERRORS := 30

  datatype Config = Config(maxBatch: nat, maxBuffer: nat, retention: nat) {
    predicate Valid() {
      1 <= maxBatch <= maxBuffer
    }
  }

  /** The constructor's clamping of its arguments. */
  function MakeConfig(maxBatch: int, maxBuffer: int, retention: nat): (c: Config)
    ensures c.Valid()
  {
    var batch := Max(maxBatch, 1);
    Config(batch, Max(maxBuffer, batch), retention)
  }

  /** How the store's write ended. */
  datatype Reply =
    | NotCommitted(retryable: bool)
    | CommitUnknown(retryable: bool)
    | UntypedError
    | Acknowledged(count: Option<int>)

  datatype Writer = Writer(
    buffer: seq<Tick>,
    inFlight: seq<Tick>,
    closed: bool,
    accepted: nat,
    written: nat,
    dropped: nat,
    errors: nat,
    lastDropAt: Option<int>,
    events: seq<DropEvent>,
    published: Snapshot
  )

  const NEW_WRITER := Writer([], [], false, 0, 0, 0, 0, None, [], Snapshot([], 0))

  /** The writer after a step, and the ticks the step dropped. */
  datatype Effect = Effect(writer: Writer, lost: seq<Tick>)

  function RecordDrop(c: Config, w: Writer, ticks: seq<Tick>, reason: string, now: int): Writer {
    if ticks == [] then w
    else
      var events := Recorded(w.events, ticks, reason, now, c.retention);
      w.(dropped := w.dropped + |ticks|, lastDropAt := Some(now), events := events,
         published := Snapshot(events, w.errors))
  }

  lemma RecordDropIs(c: Config, w: Writer, ticks: seq<Tick>, reason: string, now: int, events: seq<DropEvent>)
    requires ticks != [] && events == Recorded(w.events, ticks, reason, now, c.retention)
    ensures RecordDrop(c, w, ticks, reason, now) == w.(dropped := w.dropped + |ticks|, lastDropAt := Some(now),
      events := events, published := Snapshot(events, w.errors))
  {
  }

  function Drop(c: Config, w: Writer, ticks: seq<Tick>, reason: string, now: int): Effect {
    Effect(RecordDrop(c, w, ticks, reason, now), ticks)
  }

  function AddTick(c: Config, w: Writer, tick: Tick, now: int): Effect {
    if w.closed then Drop(c, w, [tick], "writer_stopped", now)
    else if |w.buffer| >= c.maxBuffer then Drop(c, w, [tick], "buffer_full", now)
    else Effect(w.(buffer := w.buffer + [tick], accepted := w.accepted + 1), [])
  }

  function Take(c: Config, w: Writer): Writer {
    var n := if |w.buffer| < c.maxBatch then |w.buffer| else c.maxBatch;
    w.(buffer := w.buffer[n..], inFlight := w.buffer[..n])
  }

  /** How many ticks of a batch fit back in front of the buffer. */
  function Fits(c: Config, buffer: seq<Tick>, batch: seq<Tick>): (n: nat)
    ensures n <= |batch|
    ensures |buffer| <= c.maxBuffer ==> n + |buffer| <= c.maxBuffer
    ensures n < |batch| && |buffer| <= c.maxBuffer ==> n + |buffer| == c.maxBuffer
  {
    var room := if |buffer| < c.maxBuffer then c.maxBuffer - |buffer| else 0;
    if |batch| < room then |batch| else room
  }

  /** Puts a batch back in front; what no longer fits is dropped. */
  function Restore(c: Config, w: Writer, batch: seq<Tick>, now: int): Effect {
    var n := Fits(c, w.buffer, batch);
    Drop(c, w.(buffer := batch[..n] + w.buffer), batch[n..], "restore_overflow", now)
  }

  /** Only a typed "nothing was committed, try again" may be retried. */
  predicate RetrySafe(reply: Reply) {
    reply.NotCommitted? && reply.retryable
  }

  function FailedReason(reply: Reply): string {
    if reply.Acknowledged? then "db_ack_mismatch"
    else if RetrySafe(reply) then "db_error_circuit_open"
    else if reply.NotCommitted? then "db_write_rejected"
    else "db_commit_unknown"
  }

  predicate Confirms(reply: Reply, batch: seq<Tick>) {
    reply.Acknowledged? && reply.count == Some(|batch|)
  }

  predicate Restores(w: Writer, reply: Reply) {
    RetrySafe(reply) && w.errors + 1 < MAX_ERRORS
  }

  /** The writer as a failed write leaves it, before the batch is dealt with. */
  function Failed(w: Writer): Writer {
    w.(inFlight := [], errors := w.errors + 1, published := Snapshot(w.events, w.errors + 1))
  }

  function Confirmed(w: Writer): Writer {
    w.(inFlight := [], written := w.written + |w.inFlight|, errors := 0, published := Snapshot(w.events, 0))
  }

  function Settle(c: Config, w: Writer, reply: Reply, now: int): Effect {
    if Confirms(reply, w.inFlight) then Effect(Confirmed(w), [])
    else if Restores(w, reply) then Restore(c, Failed(w), w.inFlight, now)
    else Drop(c, Failed(w), w.inFlight, FailedReason(reply), now)
  }

  /** What settling leaves alone. */
  lemma SettleFrame(c: Config, w: Writer, reply: Reply, now: int)
    ensures
      var after := Settle(c, w, reply, now).writer;
      && after.inFlight == [] && after.closed == w.closed && after.accepted == w.accepted
      && (!Restores(w, reply) || Confirms(reply, w.inFlight) ==> after.buffer == w.buffer)
  {
  }

  function DropBuffered(c: Config, w: Writer, reason: string, now: int): Effect {
    Drop(c, w.(buffer := []), w.buffer, reason, now)
  }

  // ----- histories ---------------------------------------------------------

  /** Producers offer ticks while at most one batch is being written. A world adds
      the history the source does not keep: what was offered, what reached the
      store, what was lost, how often writing failed since it last succeeded. */
  datatype World = World(
    writer: Writer,
    offered: seq<Tick>,
    accepted: seq<Tick>,
    written: seq<Tick>,
    durable: seq<Tick>,
    lost: seq<Tick>,
    restored: nat,
    unconfirmed: nat,
    pruned: nat,
    clock: int,
    honest: bool
  )

  /** `stored` is what the store really did with the batch, whatever it replied. */
  datatype Event =
    | Offer(tick: Tick, now: int)
    | Begin
    | End(reply: Reply, stored: bool, now: int)
    | Open
    | Close
    | Discard(reason: string, now: int)

  function Start(clock: int): World {
    World(NEW_WRITER, [], [], [], [], [], 0, 0, 0, clock, true)
  }

  predicate Enabled(world: World, event: Event) {
    match event
    case Offer(_, now) => world.clock <= now
    case Begin => world.writer.inFlight == [] && world.writer.buffer != []
    case End(_, _, now) => world.writer.inFlight != [] && world.clock <= now
    case Open => true
    case Close => true
    case Discard(_, now) => world.clock <= now
  }

  /** The store never claims "not committed" about a batch it kept. */
  predicate HonestEvent(event: Event) {
    event.End? && event.reply.NotCommitted? ==> !event.stored
  }

  function After(c: Config, world: World, effect: Effect, now: int): World {
    world.(writer := effect.writer, lost := world.lost + effect.lost, clock := now,
           pruned := if effect.lost == [] then world.pruned
                     else world.pruned + Forgotten(world.writer.events, now - c.retention))
  }

  function Next(c: Config, world: World, event: Event): World
    requires Enabled(world, event)
  {
    var w := world.writer;
    match event
    case Offer(tick, now) =>
      var effect := AddTick(c, w, tick, now);
      After(c, world, effect, now).(offered := world.offered + [tick],
        accepted := if effect.lost == [] then world.accepted + [tick] else world.accepted)
    case Begin => world.(writer := Take(c, w))
    case End(reply, stored, now) =>
      var confirmed := reply == Acknowledged(Some(|w.inFlight|));
      After(c, world, Settle(c, w, reply, now), now).(
        written := if confirmed then world.written + w.inFlight else world.written,
        durable := if stored then world.durable + w.inFlight else world.durable,
        restored := if confirmed then 0 else if Restores(w, reply) then world.restored + 1 else world.restored,
        unconfirmed := if confirmed then 0 else world.unconfirmed + 1,
        honest := world.honest && HonestEvent(event))
    case Open => world.(writer := w.(closed := false))
    case Close => world.(writer := w.(closed := true))
    case Discard(reason, now) => After(c, world, DropBuffered(c, w, reason, now), now)
  }

  // ----- soundness ---------------------------------------------------------

  /** Every offered tick is in exactly one place. */
  ghost predicate Conserved(world: World) {
    && multiset(world.offered)
         == multiset(world.written) + multiset(world.lost) + multiset(world.writer.inFlight) + multiset(world.writer.buffer)
    && |world.accepted| == world.writer.accepted
    && |world.written| == world.writer.written
    && |world.lost| == world.writer.dropped
  }

  /** What was written, then what is being written, then what waits: in acceptance order. */
  ghost predicate InOrder(world: World) {
    && Subsequence(world.written + (world.writer.inFlight + world.writer.buffer), world.accepted)
    && (world.honest ==> Subsequence(world.durable + (world.writer.inFlight + world.writer.buffer), world.accepted))
  }

  ghost predicate Bounded(c: Config, world: World) {
    && |world.writer.buffer| <= c.maxBuffer && |world.writer.inFlight| <= c.maxBatch
    && world.restored <= world.writer.errors && world.restored < MAX_ERRORS
    && world.writer.errors == world.unconfirmed
  }

  /** Every loss no older than the last drop less the retention is still reported. */
  ghost predicate StillReported(c: Config, w: Writer, lost: seq<Tick>) {
    && (lost != [] ==> w.lastDropAt.Some?)
    && forall t :: t in lost && t.ts >= w.lastDropAt.value - c.retention ==> Reports(w.events, t)
  }

  /** The ledger reports recent losses, and what it no longer counts was pruned. */
  ghost predicate Accounted(c: Config, world: World) {
    && Shaped(world.writer.events)
    && (world.writer.lastDropAt.Some? ==> world.writer.lastDropAt.value <= world.clock)
    && StillReported(c, world.writer, world.lost)
    && world.pruned + TotalCount(world.writer.events) == world.writer.dropped
    && world.writer.published == Snapshot(world.writer.events, world.writer.errors)
  }

  ghost predicate Sound(c: Config, world: World) {
    c.Valid() && Conserved(world) && InOrder(world) && Bounded(c, world) && Accounted(c, world)
  }

  /** One drop: the ledger part of soundness. */
  lemma DropAccounts(c: Config, world: World, w: Writer, ticks: seq<Tick>, reason: string, now: int)
    requires Accounted(c, world) && world.clock <= now
    requires w.events == world.writer.events && w.lastDropAt == world.writer.lastDropAt
    requires w.dropped == world.writer.dropped && w.published == Snapshot(w.events, w.errors)
    ensures Accounted(c, After(c, world, Drop(c, w, ticks, reason, now), now))
  {
    if ticks == [] {
      assert world.lost + ticks == world.lost;
    } else {
      DropSomeAccounts(c, world, w, ticks, reason, now);
    }
  }

  lemma DropSomeAccounts(c: Config, world: World, w: Writer, ticks: seq<Tick>, reason: string, now: int)
    requires StillReported(c, world.writer, world.lost) && Shaped(world.writer.events) && ticks != []
    requires world.pruned + TotalCount(world.writer.events) == world.writer.dropped
    requires world.writer.lastDropAt.Some? ==> world.writer.lastDropAt.value <= now
    requires w.events == world.writer.events && w.dropped == world.writer.dropped
    ensures Accounted(c, After(c, world, Drop(c, w, ticks, reason, now), now))
  {
    DropStillReported(c, world, w, ticks, reason, now);
    var events := NewLedger(c, w, ticks, reason, now, world.pruned);
    AccountedAfter(c, world, Drop(c, w, ticks, reason, now), events, now);
  }

  /** The ledger a drop leaves behind. */
  lemma NewLedger(c: Config, w: Writer, ticks: seq<Tick>, reason: string, now: int, pruned: nat) returns (events: seq<DropEvent>)
    requires Shaped(w.events) && ticks != [] && pruned + TotalCount(w.events) == w.dropped
    ensures Shaped(events)
    ensures RecordDrop(c, w, ticks, reason, now) == w.(dropped := w.dropped + |ticks|, lastDropAt := Some(now),
      events := events, published := Snapshot(events, w.errors))
    ensures pruned + Forgotten(w.events, now - c.retention) + TotalCount(events) == w.dropped + |ticks|
  {
    events := RecordDrop(c, w, ticks, reason, now).events;
    DropKeepsShape(c, w, ticks, reason, now);
    DropCounts(c, w, ticks, reason, now, pruned);
    DropFields(c, w, ticks, reason, now);
  }

  lemma DropKeepsShape(c: Config, w: Writer, ticks: seq<Tick>, reason: string, now: int)
    requires Shaped(w.events)
    ensures Shaped(RecordDrop(c, w, ticks, reason, now).events)
  {
    RecordedKeepsShape(w.events, ticks, reason, now, c.retention);
  }

  lemma DropCounts(c: Config, w: Writer, ticks: seq<Tick>, reason: string, now: int, pruned: nat)
    requires ticks != [] && pruned + TotalCount(w.events) == w.dropped
    ensures pruned + Forgotten(w.events, now - c.retention) + TotalCount(RecordDrop(c, w, ticks, reason, now).events)
         == w.dropped + |ticks|
  {
    CountsAdd(w.events, ticks, reason, now, c.retention, pruned, w.dropped);
  }

  lemma DropFields(c: Config, w: Writer, ticks: seq<Tick>, reason: string, now: int)
    requires ticks != []
    ensures
      var after := RecordDrop(c, w, ticks, reason, now);
      after == w.(dropped := w.dropped + |ticks|, lastDropAt := Some(now),
        events := after.events, published := Snapshot(after.events, w.errors))
  {
  }

  lemma AccountedAfter(c: Config, world: World, effect: Effect, events: seq<DropEvent>, now: int)
    requires effect.lost != [] && Shaped(events) && StillReported(c, effect.writer, world.lost + effect.lost)
    requires effect.writer.events == events && effect.writer.lastDropAt == Some(now)
    requires effect.writer.published == Snapshot(events, effect.writer.errors)
    requires world.pruned + Forgotten(world.writer.events, now - c.retention) + TotalCount(events) == effect.writer.dropped
    ensures Accounted(c, After(c, world, effect, now))
  {
  }

  lemma CountsAdd(events: seq<DropEvent>, ticks: seq<Tick>, reason: string, now: int, retention: nat, pruned: nat, dropped: nat)
    requires pruned + TotalCount(events) == dropped
    ensures pruned + Forgotten(events, now - retention) + TotalCount(Recorded(events, ticks, reason, now, retention))
         == dropped + |ticks|
  {
    RecordedCounts(events, ticks, reason, now, retention);
  }

  lemma DropStillReported(c: Config, world: World, w: Writer, ticks: seq<Tick>, reason: string, now: int)
    requires StillReported(c, world.writer, world.lost) && ticks != []
    requires world.writer.lastDropAt.Some? ==> world.writer.lastDropAt.value <= now
    requires w.events == world.writer.events
    ensures StillReported(c, RecordDrop(c, w, ticks, reason, now), world.lost + ticks)
  {
    forall t | t in world.lost + ticks && t.ts >= now - c.retention
      ensures Reports(Recorded(w.events, ticks, reason, now, c.retention), t)
    {
      DropReports(c, world, ticks, reason, now, t);
    }
  }

  lemma DropReports(c: Config, world: World, ticks: seq<Tick>, reason: string, now: int, t: Tick)
    requires StillReported(c, world.writer, world.lost)
    requires world.writer.lastDropAt.Some? ==> world.writer.lastDropAt.value <= now
    requires t in world.lost + ticks && t.ts >= now - c.retention
    ensures Reports(Recorded(world.writer.events, ticks, reason, now, c.retention), t)
  {
    if t !in ticks {
      assert t in world.lost;
    }
    RecordedReports(world.writer.events, ticks, reason, now, c.retention, t);
  }

  /** A tick appended to the buffer extends both orders at the end. */
  lemma AppendInOrder(done: seq<Tick>, flying: seq<Tick>, buffer: seq<Tick>, accepted: seq<Tick>, tick: Tick)
    requires Subsequence(done + (flying + buffer), accepted)
    ensures Subsequence(done + (flying + (buffer + [tick])), accepted + [tick])
  {
    BothGrow(done + (flying + buffer), accepted, tick);
    assert done + (flying + buffer) + [tick] == done + (flying + (buffer + [tick]));
  }

  lemma AcceptKeeps(c: Config, world: World, tick: Tick, now: int)
    requires Sound(c, world) && world.clock <= now
    requires !world.writer.closed && |world.writer.buffer| < c.maxBuffer
    ensures Sound(c, Next(c, world, Offer(tick, now)))
  {
    var w, after := world.writer, Next(c, world, Offer(tick, now));
    assert after.lost == world.lost;
    assert multiset(after.offered) == multiset(world.offered) + multiset{tick};
    assert multiset(after.writer.buffer) == multiset(w.buffer) + multiset{tick};
    AppendInOrder(world.written, w.inFlight, w.buffer, world.accepted, tick);
    if world.honest {
      AppendInOrder(world.durable, w.inFlight, w.buffer, world.accepted, tick);
    }
  }

  lemma RefuseKeeps(c: Config, world: World, tick: Tick, now: int)
    requires Sound(c, world) && world.clock <= now
    requires world.writer.closed || |world.writer.buffer| >= c.maxBuffer
    ensures Sound(c, Next(c, world, Offer(tick, now)))
  {
    var w, after := world.writer, Next(c, world, Offer(tick, now));
    assert multiset(after.offered) == multiset(world.offered) + multiset{tick};
    assert multiset(after.lost) == multiset(world.lost) + multiset{tick};
    DropAccounts(c, world, w, [tick], if w.closed then "writer_stopped" else "buffer_full", now);
  }

  lemma BeginKeeps(c: Config, world: World)
    requires Sound(c, world) && Enabled(world, Begin)
    ensures Sound(c, Next(c, world, Begin))
  {
    var w, after := world.writer, Take(c, world.writer);
    assert w.buffer == after.inFlight + after.buffer;
    assert w.inFlight + w.buffer == after.inFlight + after.buffer;
    assert multiset(w.buffer) == multiset(after.inFlight) + multiset(after.buffer);
  }

  lemma ConfirmKeeps(c: Config, world: World, reply: Reply, stored: bool, now: int)
    requires Sound(c, world) && Enabled(world, End(reply, stored, now))
    requires Confirms(reply, world.writer.inFlight)
    ensures Sound(c, Next(c, world, End(reply, stored, now)))
  {
    var w, after := world.writer, Next(c, world, End(reply, stored, now));
    assert after.lost == world.lost;
    assert multiset(after.written) == multiset(world.written) + multiset(w.inFlight);
    StoredInOrder(world.written, w.inFlight, w.buffer, world.accepted, true);
    if world.honest {
      StoredInOrder(world.durable, w.inFlight, w.buffer, world.accepted, stored);
    }
  }

  /** The batch leaves flight: either it joins what is done, or it is left out. */
  lemma StoredInOrder(done: seq<Tick>, batch: seq<Tick>, buffer: seq<Tick>, accepted: seq<Tick>, stored: bool)
    requires Subsequence(done + (batch + buffer), accepted)
    ensures Subsequence((if stored then done + batch else done) + ([] + buffer), accepted)
  {
    assert [] + buffer == buffer;
    if stored {
      assert (done + batch) + buffer == done + (batch + buffer);
    } else {
      CutOut(done, batch, buffer, accepted);
    }
  }

  lemma LoseKeeps(c: Config, world: World, reply: Reply, stored: bool, now: int)
    requires Sound(c, world) && Enabled(world, End(reply, stored, now))
    requires !Confirms(reply, world.writer.inFlight) && !Restores(world.writer, reply)
    ensures Sound(c, Next(c, world, End(reply, stored, now)))
  {
    var w, after := world.writer, Next(c, world, End(reply, stored, now));
    DropAccounts(c, world, Failed(w), w.inFlight, FailedReason(reply), now);
    assert Accounted(c, after);
    assert after.writer.buffer == w.buffer && after.writer.inFlight == [] && after.lost == world.lost + w.inFlight;
    assert Conserved(after) by {
      assert multiset(after.lost) == multiset(world.lost) + multiset(w.inFlight);
    }
    assert InOrder(after) by {
      StoredInOrder(world.written, w.inFlight, w.buffer, world.accepted, false);
      if after.honest {
        StoredInOrder(world.durable, w.inFlight, w.buffer, world.accepted, stored);
      }
    }
  }

  /** A retried batch goes back in front of what arrived meanwhile. */
  lemma RestoreKeeps(c: Config, world: World, reply: Reply, stored: bool, now: int)
    requires Sound(c, world) && Enabled(world, End(reply, stored, now))
    requires Restores(world.writer, reply)
    ensures Sound(c, Next(c, world, End(reply, stored, now)))
  {
    var w, after := world.writer, Next(c, world, End(reply, stored, now));
    var batch, n := w.inFlight, Fits(c, w.buffer, w.inFlight);
    RestoredFields(c, world, reply, stored, now);
    assert Accounted(c, after) by {
      DropAccounts(c, world, Failed(w).(buffer := batch[..n] + w.buffer), batch[n..], "restore_overflow", now);
    }
    assert Conserved(after) by {
      RestoredMultiset(world.written, world.lost, batch, w.buffer, n);
    }
    assert InOrder(after) by {
      RestoredInOrder(world.written, batch, w.buffer, world.accepted, n);
      if after.honest {
        RestoredInOrder(world.durable, batch, w.buffer, world.accepted, n);
      }
    }
  }

  lemma RestoredFields(c: Config, world: World, reply: Reply, stored: bool, now: int)
    requires Enabled(world, End(reply, stored, now)) && Restores(world.writer, reply)
    ensures
      var w, after := world.writer, Next(c, world, End(reply, stored, now));
      var batch, n := w.inFlight, Fits(c, w.buffer, w.inFlight);
      && Settle(c, w, reply, now) == Restore(c, Failed(w), batch, now)
      && after.writer.buffer == batch[..n] + w.buffer && after.writer.inFlight == []
      && after.lost == world.lost + batch[n..]
  {
  }

  lemma RestoredMultiset(written: seq<Tick>, lost: seq<Tick>, batch: seq<Tick>, buffer: seq<Tick>, n: nat)
    requires n <= |batch|
    ensures multiset(written) + multiset(lost + batch[n..]) + multiset([]) + multiset(batch[..n] + buffer)
         == multiset(written) + multiset(lost) + multiset(batch) + multiset(buffer)
  {
    assert batch == batch[..n] + batch[n..];
    assert multiset(batch) == multiset(batch[..n]) + multiset(batch[n..]);
    assert multiset(lost + batch[n..]) == multiset(lost) + multiset(batch[n..]);
    assert multiset(batch[..n] + buffer) == multiset(batch[..n]) + multiset(buffer);
  }

  lemma RestoredInOrder(done: seq<Tick>, batch: seq<Tick>, buffer: seq<Tick>, accepted: seq<Tick>, n: nat)
    requires n <= |batch| && Subsequence(done + (batch + buffer), accepted)
    ensures Subsequence(done + ([] + (batch[..n] + buffer)), accepted)
  {
    var a := done + batch[..n];
    assert done + (batch + buffer) == a + (batch[n..] + buffer);
    CutOut(a, batch[n..], buffer, accepted);
    assert a + buffer == done + ([] + (batch[..n] + buffer));
  }

  lemma DiscardKeeps(c: Config, world: World, reason: string, now: int)
    requires Sound(c, world) && world.clock <= now
    ensures Sound(c, Next(c, world, Discard(reason, now)))
  {
    var w, after := world.writer, Next(c, world, Discard(reason, now));
    DropAccounts(c, world, w.(buffer := []), w.buffer, reason, now);
    assert multiset(after.lost) == multiset(world.lost) + multiset(w.buffer);
    DiscardedInOrder(world.written, w.inFlight, w.buffer, world.accepted);
    if world.honest {
      DiscardedInOrder(world.durable, w.inFlight, w.buffer, world.accepted);
    }
  }

  lemma DiscardedInOrder(done: seq<Tick>, batch: seq<Tick>, buffer: seq<Tick>, accepted: seq<Tick>)
    requires Subsequence(done + (batch + buffer), accepted)
    ensures Subsequence(done + (batch + []), accepted)
  {
    assert done + (batch + buffer) == (done + batch) + (buffer + []);
    CutOut(done + batch, buffer, [], accepted);
    assert (done + batch) + [] == done + (batch + []);
  }

  lemma NextKeeps(c: Config, world: World, event: Event)
    requires Sound(c, world) && Enabled(world, event)
    ensures Sound(c, Next(c, world, event))
  {
    match event
    case Offer(tick, now) =>
      if world.writer.closed || |world.writer.buffer| >= c.maxBuffer {
        RefuseKeeps(c, world, tick, now);
      } else {
        AcceptKeeps(c, world, tick, now);
      }
    case Begin => BeginKeeps(c, world);
    case End(reply, stored, now) =>
      if Confirms(reply, world.writer.inFlight) {
        ConfirmKeeps(c, world, reply, stored, now);
      } else if Restores(world.writer, reply) {
        RestoreKeeps(c, world, reply, stored, now);
      } else {
        LoseKeeps(c, world, reply, stored, now);
      }
    case Open =>
    case Close =>
    case Discard(reason, now) => DiscardKeeps(c, world, reason, now);
  }

  // ----- runs --------------------------------------------------------------

  ghost predicate IsRun(c: Config, worlds: seq<World>, events: seq<Event>, clock: int) {
    && |worlds| == |events| + 1
    && worlds[0] == Start(clock)
    && forall i :: 0 <= i < |events| ==> Steps(c, worlds[i], events[i], worlds[i + 1])
  }

  ghost predicate Steps(c: Config, before: World, event: Event, after: World) {
    Enabled(before, event) && after == Next(c, before, event)
  }

  /** Every interleaving of producers and flusher keeps the writer sound. */
  lemma {:induction false} EveryReachableWriter(c: Config, worlds: seq<World>, events: seq<Event>, clock: int, i: nat)
    requires c.Valid() && IsRun(c, worlds, events, clock) && i < |worlds|
    ensures Sound(c, worlds[i])
  {
    if i > 0 {
      EveryReachableWriter(c, worlds, events, clock, i - 1);
      assert Steps(c, worlds[i - 1], events[i - 1], worlds[i]);
      NextKeeps(c, worlds[i - 1], events[i - 1]);
    } else {
      EmptySubsequence<Tick>([]);
      var s := Start(clock);
      assert s.written + (s.writer.inFlight + s.writer.buffer) == [];
    }
  }

  ghost predicate RunsTo(c: Config, worlds: seq<World>, events: seq<Event>, clock: int, world: World) {
    IsRun(c, worlds, events, clock) && worlds[|events|] == world
  }

  ghost predicate Reachable(c: Config, world: World) {
    exists worlds, events, clock :: RunsTo(c, worlds, events, clock, world)
  }

  lemma StartIsReachable(c: Config, clock: int)
    ensures Reachable(c, Start(clock))
  {
    assert RunsTo(c, [Start(clock)], [], clock, Start(clock));
  }

  lemma NextIsReachable(c: Config, world: World, event: Event)
    requires Reachable(c, world) && Enabled(world, event)
    ensures Reachable(c, Next(c, world, event))
  {
    var worlds, events, clock :| RunsTo(c, worlds, events, clock, world);
    ExtendRun(c, worlds, events, clock, event, Next(c, world, event));
  }

  lemma ExtendRun(c: Config, worlds: seq<World>, events: seq<Event>, clock: int, event: Event, next: World)
    requires IsRun(c, worlds, events, clock) && Steps(c, worlds[|events|], event, next)
    ensures RunsTo(c, worlds + [next], events + [event], clock, next)
  {
    var longer, more := worlds + [next], events + [event];
    forall i | 0 <= i < |more| ensures Steps(c, longer[i], more[i], longer[i + 1]) {
      assert i < |events| ==> Steps(c, worlds[i], events[i], worlds[i + 1]);
    }
  }

  lemma ReachableIsSound(c: Config, world: World)
    requires c.Valid() && Reachable(c, world)
    ensures Sound(c, world)
  {
    var worlds, events, clock :| RunsTo(c, worlds, events, clock, world);
    EveryReachableWriter(c, worlds, events, clock, |events|);
  }

  /** The two facts about a reachable ledger that merging into it relies on. */
  lemma ReachableLedger(c: Config, world: World)
    requires c.Valid() && Reachable(c, world)
    ensures Shaped(world.writer.events)
  {
    ReachableIsSound(c, world);
  }

  /** With nothing buffered or in flight, every offered tick was written or dropped. */
  lemma QuietMeansSettled(c: Config, world: World)
    requires c.Valid() && Reachable(c, world) && world.writer.buffer == [] && world.writer.inFlight == []
    ensures multiset(world.offered) == multiset(world.written) + multiset(world.lost)
    ensures |world.offered| == world.writer.written + world.writer.dropped
  {
    ReachableIsSound(c, world);
    assert |multiset(world.offered)| == |multiset(world.written)| + |multiset(world.lost)|;
  }

  lemma HonestStep(c: Config, worlds: seq<World>, events: seq<Event>, clock: int, k: nat)
    requires IsRun(c, worlds, events, clock) && k < |events| && HonestEvent(events[k])
    ensures worlds[k].honest ==> worlds[k + 1].honest
  {
    assert Steps(c, worlds[k], events[k], worlds[k + 1]);
  }

  lemma {:induction false} HonestRun(c: Config, worlds: seq<World>, events: seq<Event>, clock: int, i: nat)
    requires IsRun(c, worlds, events, clock) && i < |worlds|
    requires forall k :: 0 <= k < |events| ==> HonestEvent(events[k])
    ensures worlds[i].honest
  {
    if i > 0 {
      HonestRun(c, worlds, events, clock, i - 1);
      HonestStep(c, worlds, events, clock, i - 1);
    }
  }

  /** At most once: if the store never calls a kept batch "not committed", what it
      holds is a sub-sequence of what was accepted, in order, and no tick is there
      more often than it was accepted. */
  lemma DurableAtMostOnce(c: Config, worlds: seq<World>, events: seq<Event>, clock: int, i: nat)
    requires c.Valid() && IsRun(c, worlds, events, clock) && i < |worlds|
    requires forall k :: 0 <= k < |events| ==> HonestEvent(events[k])
    ensures Subsequence(worlds[i].durable, worlds[i].accepted)
    ensures multiset(worlds[i].durable) <= multiset(worlds[i].accepted)
  {
    var world := worlds[i];
    EveryReachableWriter(c, worlds, events, clock, i);
    HonestRun(c, worlds, events, clock, i);
    var rest := world.writer.inFlight + world.writer.buffer;
    assert world.durable + rest == world.durable + (rest + []);
    CutOut(world.durable, rest, [], world.accepted);
    assert world.durable + [] == world.durable;
    SubsequenceCounts(world.durable, world.accepted);
  }

  /** The promise rests on that honesty: a store that keeps a batch it reports as
      not committed ends up with the tick twice. */
  lemma DishonestStoreDuplicates(c: Config, tick: Tick) returns (worlds: seq<World>, events: seq<Event>)
    requires c.Valid()
    ensures IsRun(c, worlds, events, 0)
    ensures worlds[|events|].durable == [tick, tick] && worlds[|events|].accepted == [tick]
  {
    events := [Offer(tick, 0), Begin, End(NotCommitted(true), true, 0), Begin, End(Acknowledged(Some(1)), true, 0)];
    var w0 := Start(0);
    var w1 := Next(c, w0, events[0]);
    assert w1.writer.buffer == [tick] && w1.accepted == [tick];
    var w2 := Next(c, w1, events[1]);
    assert w2.writer.inFlight == [tick] && w2.writer.buffer == [];
    var w3 := Next(c, w2, events[2]);
    assert w3.writer.buffer == [tick] && w3.durable == [tick];
    var w4 := Next(c, w3, events[3]);
    assert w4.writer.inFlight == [tick];
    var w5 := Next(c, w4, events[4]);
    assert w5.durable == [tick, tick] && w5.accepted == [tick];
    worlds := [w0, w1, w2, w3, w4, w5];
    assert worlds[|events|] == w5;
  }

  /** No window around a loss the ledger should still know reads complete. */
  lemma LossIsNeverHidden(c: Config, world: World, tick: Tick, start: Option<int>, end: Option<int>)
    requires c.Valid() && Reachable(c, world) && tick in world.lost
    requires world.writer.lastDropAt.Some? ==> tick.ts >= world.writer.lastDropAt.value - c.retention
    requires (start.Some? ==> start.value <= tick.ts) && (end.Some? ==> tick.ts <= end.value)
    ensures !QualityOf(world.writer.published, tick.instrumentId, tick.routeFingerprint, start, end).complete
  {
    ReachableIsSound(c, world);
    ReportedMeansIncomplete(world.writer.published, tick, start, end);
  }
}
