/** What one flush does to its batch, in terms of the store's reply and of how often
    writing has failed, and what the ledger says about the ticks it lost. */
module TickOutcomes {
  import opened Wrappers
  import opened LossLedger
  import opened TickWriter

  // ----- the batch ---------------------------------------------------------

  /** A fully acknowledged batch is written, and clears what failed before it; a batch
      that was not committed and may be retried goes back in front, as much of it as
      fits, unless thirty writes in a row have failed; any other batch is lost. */
  lemma EndMeaning(c: Config, world: World, reply: Reply, stored: bool, now: int)
    requires Sound(c, world) && Enabled(world, End(reply, stored, now))
    ensures
      var w, after := world.writer, Next(c, world, End(reply, stored, now));
      var batch, room := w.inFlight, c.maxBuffer - |w.buffer|;
      var n := if |batch| < room then |batch| else room;
      && after.writer.inFlight == [] && after.writer.accepted == w.accepted && after.writer.closed == w.closed
      && if reply == Acknowledged(Some(|batch|)) then
           && after.written == world.written + batch && after.writer.written == w.written + |batch|
           && after.writer.buffer == w.buffer && after.lost == world.lost && after.writer.events == w.events
           && after.writer.errors == 0 && after.writer.published == Snapshot(w.events, 0)
         else
           && after.written == world.written && after.writer.written == w.written
           && after.writer.errors == world.unconfirmed + 1
           && after.writer.published == Snapshot(after.writer.events, after.writer.errors)
           && if reply == NotCommitted(true) && world.unconfirmed < 29 then
                after.writer.buffer == batch[..n] + w.buffer && after.lost == world.lost + batch[n..]
              else
                after.writer.buffer == w.buffer && after.lost == world.lost + batch
  {
    var w := world.writer;
    SoundFacts(c, world);
    EndFields(c, world, reply, stored, now);
    if reply != Acknowledged(Some(|w.inFlight|)) {
      if reply == NotCommitted(true) && world.unconfirmed < 29 {
        RestoredBatch(c, w, reply, now);
      } else {
        LostBatch(c, w, reply, now);
      }
      RetryOrNot(c, w, reply, now);
    }
  }

  lemma SoundFacts(c: Config, world: World)
    requires Sound(c, world)
    ensures world.writer.errors == world.unconfirmed && |world.writer.buffer| <= c.maxBuffer
    ensures world.writer.published == Snapshot(world.writer.events, world.writer.errors)
  {
  }

  lemma EndFields(c: Config, world: World, reply: Reply, stored: bool, now: int)
    requires Enabled(world, End(reply, stored, now))
    ensures
      var effect, after := Settle(c, world.writer, reply, now), Next(c, world, End(reply, stored, now));
      && after.writer == effect.writer && after.lost == world.lost + effect.lost
      && after.written == if reply == Acknowledged(Some(|world.writer.inFlight|)) then world.written + world.writer.inFlight
                          else world.written
  {
  }

  /** Everything of a settled batch but the ledger. */
  lemma RestoredBatch(c: Config, w: Writer, reply: Reply, now: int)
    requires reply == NotCommitted(true) && w.errors < 29 && |w.buffer| <= c.maxBuffer
    ensures
      var effect, batch, room := Settle(c, w, reply, now), w.inFlight, c.maxBuffer - |w.buffer|;
      var n := if |batch| < room then |batch| else room;
      effect.writer.buffer == batch[..n] + w.buffer && effect.lost == batch[n..]
  {
  }

  lemma LostBatch(c: Config, w: Writer, reply: Reply, now: int)
    requires reply != Acknowledged(Some(|w.inFlight|)) && (reply == NotCommitted(true) ==> w.errors >= 29)
    ensures Settle(c, w, reply, now).writer.buffer == w.buffer && Settle(c, w, reply, now).lost == w.inFlight
  {
  }

  lemma RetryOrNot(c: Config, w: Writer, reply: Reply, now: int)
    requires reply != Acknowledged(Some(|w.inFlight|))
    ensures
      var after := Settle(c, w, reply, now).writer;
      && after.inFlight == [] && after.accepted == w.accepted && after.closed == w.closed
      && after.written == w.written && after.errors == w.errors + 1
      && (w.published == Snapshot(w.events, w.errors) ==> after.published == Snapshot(after.events, w.errors + 1))
  {
  }

  /** How often writing has failed since it last succeeded: counted over the run. */
  ghost function FailedWrites(worlds: seq<World>, events: seq<Event>, n: nat): nat
    requires n <= |events| < |worlds|
  {
    if n == 0 then 0
    else if !events[n - 1].End? then FailedWrites(worlds, events, n - 1)
    else if events[n - 1].reply == Acknowledged(Some(|worlds[n - 1].writer.inFlight|)) then 0
    else FailedWrites(worlds, events, n - 1) + 1
  }

  lemma {:induction false} ErrorsAreFailedWrites(c: Config, worlds: seq<World>, events: seq<Event>, clock: int, n: nat)
    requires c.Valid() && IsRun(c, worlds, events, clock) && n <= |events|
    ensures worlds[n].writer.errors == FailedWrites(worlds, events, n)
    ensures worlds[n].writer.published.errors == FailedWrites(worlds, events, n)
  {
    EveryReachableWriter(c, worlds, events, clock, n);
    ErrorsAreUnconfirmed(c, worlds[n]);
    forall k | 0 <= k < |events| ensures CountsUp(worlds, events, k) {
      OneMoreStep(c, worlds, events, clock, k);
    }
    UnconfirmedAreFailedWrites(worlds, events, n);
  }

  lemma ErrorsAreUnconfirmed(c: Config, world: World)
    requires Sound(c, world)
    ensures world.writer.errors == world.writer.published.errors == world.unconfirmed
  {
  }

  ghost predicate CountsUp(worlds: seq<World>, events: seq<Event>, k: nat)
    requires k < |events| && |events| < |worlds|
  {
    var confirmed := events[k].End? && events[k].reply == Acknowledged(Some(|worlds[k].writer.inFlight|));
    worlds[k + 1].unconfirmed == if confirmed then 0 else worlds[k].unconfirmed + if events[k].End? then 1 else 0
  }

  lemma {:induction false} UnconfirmedAreFailedWrites(worlds: seq<World>, events: seq<Event>, n: nat)
    requires n <= |events| < |worlds| && worlds[0].unconfirmed == 0
    requires forall k :: 0 <= k < |events| ==> CountsUp(worlds, events, k)
    ensures worlds[n].unconfirmed == FailedWrites(worlds, events, n)
  {
    if n > 0 {
      UnconfirmedAreFailedWrites(worlds, events, n - 1);
      assert CountsUp(worlds, events, n - 1);
    }
  }

  lemma OneMoreStep(c: Config, worlds: seq<World>, events: seq<Event>, clock: int, k: nat)
    requires IsRun(c, worlds, events, clock) && k < |events|
    ensures CountsUp(worlds, events, k)
  {
    assert Steps(c, worlds[k], events[k], worlds[k + 1]);
  }

  // ----- what a reader is told ---------------------------------------------

  /** A window is complete exactly when the last write succeeded, or none failed, and
      no event of its route overlaps it: a success makes up for every failure before. */
  lemma CompleteIff(
      c: Config, worlds: seq<World>, events: seq<Event>, clock: int, n: nat,
      instrumentId: string, routeFingerprint: string, start: Option<int>, end: Option<int>)
    requires c.Valid() && IsRun(c, worlds, events, clock) && n <= |events|
    ensures
      var w := worlds[n].writer;
      QualityOf(w.published, instrumentId, routeFingerprint, start, end).complete <==>
        && FailedWrites(worlds, events, n) == 0
        && forall e :: e in w.events ==>
             || e.instrumentId != instrumentId || e.routeFingerprint != routeFingerprint
             || (start.Some? && e.endAt < start.value) || (end.Some? && end.value < e.startAt)
  {
    var w := worlds[n].writer;
    EveryReachableWriter(c, worlds, events, clock, n);
    ErrorsAreFailedWrites(c, worlds, events, clock, n);
    QualityMeaning(w.published, instrumentId, routeFingerprint, start, end);
    assert forall e :: Overlaps(e, instrumentId, routeFingerprint, start, end) <==>
      !(|| e.instrumentId != instrumentId || e.routeFingerprint != routeFingerprint
        || (start.Some? && e.endAt < start.value) || (end.Some? && end.value < e.startAt));
  }

  // ----- what the ledger holds ---------------------------------------------

  /** From one lost tick of its route to another. */
  ghost predicate EndsAtLosses(e: DropEvent, lost: seq<Tick>) {
    && (exists t :: t in lost && t.instrumentId == e.instrumentId && t.routeFingerprint == e.routeFingerprint && t.ts == e.startAt)
    && (exists t :: t in lost && t.instrumentId == e.instrumentId && t.routeFingerprint == e.routeFingerprint && t.ts == e.endAt)
  }

  ghost predicate Tight(events: seq<DropEvent>, lost: seq<Tick>) {
    forall e :: e in events ==> EndsAtLosses(e, lost)
  }

  lemma TightMore(events: seq<DropEvent>, lost: seq<Tick>, more: seq<Tick>)
    requires Tight(events, lost) && forall t :: t in lost ==> t in more
    ensures Tight(events, more)
  {
  }

  lemma HullEnds(a: DropEvent, b: DropEvent, lost: seq<Tick>)
    requires EndsAtLosses(a, lost) && EndsAtLosses(b, lost)
    requires a.instrumentId == b.instrumentId && a.routeFingerprint == b.routeFingerprint
    ensures EndsAtLosses(Hull(a, b), lost)
  {
  }

  lemma {:induction false} GroupedTight(ticks: seq<Tick>, reason: string)
    ensures Tight(Grouped(ticks, reason), ticks)
  {
    if ticks != [] {
      var n := |ticks| - 1;
      var t := ticks[n];
      var losses := Grouped(ticks[..n], reason);
      GroupedTight(ticks[..n], reason);
      TightMore(losses, ticks[..n], ticks);
      var one := DropEvent(t.ts, t.ts, t.instrumentId, t.routeFingerprint, reason, 1);
      assert t in ticks;
      assert EndsAtLosses(one, ticks);
      var place := PlaceOf(losses, t);
      if place.Some? {
        assert losses[place.value] in losses;
        HullEnds(losses[place.value], one, ticks);
      }
    }
  }

  lemma MergeLossTight(events: seq<DropEvent>, loss: DropEvent, lost: seq<Tick>)
    requires Tight(events, lost) && EndsAtLosses(loss, lost)
    ensures Tight(MergeLoss(events, loss), lost)
  {
    var found := LastTouching(events, loss);
    if found.Some? {
      assert events[found.value] in events;
      HullEnds(events[found.value], loss, lost);
    }
  }

  lemma {:induction false} MergeAllTight(events: seq<DropEvent>, losses: seq<DropEvent>, lost: seq<Tick>)
    requires Tight(events, lost) && Tight(losses, lost)
    ensures Tight(MergeAll(events, losses), lost)
  {
    if losses != [] {
      var n := |losses| - 1;
      assert losses[n] in losses;
      MergeAllTight(events, losses[..n], lost);
      MergeLossTight(MergeAll(events, losses[..n]), losses[n], lost);
    }
  }

  lemma DropTight(c: Config, w: Writer, ticks: seq<Tick>, reason: string, now: int, lost: seq<Tick>)
    requires Tight(w.events, lost)
    ensures Tight(RecordDrop(c, w, ticks, reason, now).events, lost + ticks)
  {
    if ticks == [] {
      assert lost + ticks == lost;
    } else {
      RecordedTight(w.events, ticks, reason, now, c.retention, lost);
    }
  }

  lemma RecordedTight(events: seq<DropEvent>, ticks: seq<Tick>, reason: string, now: int, retention: nat, lost: seq<Tick>)
    requires Tight(events, lost)
    ensures Tight(Recorded(events, ticks, reason, now, retention), lost + ticks)
  {
    var kept, losses := Recent(events, now - retention), Grouped(ticks, reason);
    RecentFacts(events, now - retention);
    GroupedTight(ticks, reason);
    TightMore(losses, ticks, lost + ticks);
    TightMore(kept, lost, lost + ticks);
    MergeAllTight(kept, losses, lost + ticks);
  }

  lemma NextTight(c: Config, world: World, event: Event)
    requires Enabled(world, event) && Tight(world.writer.events, world.lost)
    ensures Tight(Next(c, world, event).writer.events, Next(c, world, event).lost)
  {
    var w := world.writer;
    assert world.lost + [] == world.lost;
    match event
    case Offer(tick, now) =>
      DropTight(c, w, [tick], if w.closed then "writer_stopped" else "buffer_full", now, world.lost);
    case Begin =>
    case End(reply, _, now) =>
      var batch, n := w.inFlight, Fits(c, w.buffer, w.inFlight);
      DropTight(c, Failed(w).(buffer := batch[..n] + w.buffer), batch[n..], "restore_overflow", now, world.lost);
      DropTight(c, Failed(w), batch, FailedReason(reply), now, world.lost);
    case Open =>
    case Close =>
    case Discard(reason, now) =>
      DropTight(c, w.(buffer := []), w.buffer, reason, now, world.lost);
  }

  /** In every run each event of the ledger reaches from one lost tick of its route to
      another, so a window is never called incomplete for instants no loss bounds. */
  lemma {:induction false} EveryEventEndsAtLosses(c: Config, worlds: seq<World>, events: seq<Event>, clock: int, n: nat)
    requires IsRun(c, worlds, events, clock) && n <= |events|
    ensures Tight(worlds[n].writer.events, worlds[n].lost)
  {
    if n > 0 {
      EveryEventEndsAtLosses(c, worlds, events, clock, n - 1);
      OneMoreTight(c, worlds, events, clock, n - 1);
    }
  }

  lemma OneMoreTight(c: Config, worlds: seq<World>, events: seq<Event>, clock: int, k: nat)
    requires IsRun(c, worlds, events, clock) && k < |events| && Tight(worlds[k].writer.events, worlds[k].lost)
    ensures Tight(worlds[k + 1].writer.events, worlds[k + 1].lost)
  {
    assert Steps(c, worlds[k], events[k], worlds[k + 1]);
    StepTight(c, worlds[k], events[k], worlds[k + 1]);
  }

  lemma StepTight(c: Config, before: World, event: Event, after: World)
    requires Steps(c, before, event, after) && Tight(before.writer.events, before.lost)
    ensures Tight(after.writer.events, after.lost)
  {
    NextTight(c, before, event);
  }

  /** A loss joins an event of its instrument, route and reason exactly when one comes
      within a minute of it, and then the newest such; otherwise it stands alone. */
  lemma MergesWithinAMinute(events: seq<DropEvent>, loss: DropEvent) returns (i: nat)
    ensures (exists e :: e in events && WithinAMinute(e, loss)) <==> i < |events|
    ensures i < |events| ==>
      && WithinAMinute(events[i], loss) && (forall j :: i < j < |events| ==> !WithinAMinute(events[j], loss))
      && MergeLoss(events, loss) == events[..i] + events[i + 1..] + [events[i].(
           startAt := if loss.startAt < events[i].startAt then loss.startAt else events[i].startAt,
           endAt := if loss.endAt > events[i].endAt then loss.endAt else events[i].endAt,
           count := events[i].count + loss.count)]
    ensures i >= |events| ==> MergeLoss(events, loss) == events + [loss]
  {
    var found := LastTouching(events, loss);
    i := if found.Some? then found.value else |events|;
    forall j | 0 <= j < |events| ensures WithinAMinute(events[j], loss) == events[j].Touches(loss) {
    }
  }

  predicate WithinAMinute(e: DropEvent, loss: DropEvent) {
    && e.instrumentId == loss.instrumentId && e.routeFingerprint == loss.routeFingerprint && e.reason == loss.reason
    && loss.startAt <= e.endAt + 60_000_000 && e.startAt - 60_000_000 <= loss.endAt
  }

  // ----- why ---------------------------------------------------------------

  ghost predicate ReportedAs(events: seq<DropEvent>, tick: Tick, reason: string) {
    exists e :: e in events && e.Holds(tick) && e.reason == reason
  }

  lemma MergeLossReportedAs(events: seq<DropEvent>, loss: DropEvent, tick: Tick, reason: string)
    requires ReportedAs(events, tick, reason) || (loss.Holds(tick) && loss.reason == reason)
    ensures ReportedAs(MergeLoss(events, loss), tick, reason)
  {
    var after := MergeLoss(events, loss);
    var found := LastTouching(events, loss);
    if loss.Holds(tick) && loss.reason == reason {
      assert after[|after| - 1] in after && after[|after| - 1].Holds(tick);
    } else {
      var e :| e in events && e.Holds(tick) && e.reason == reason;
      var i :| 0 <= i < |events| && events[i] == e;
      if found.Some? && i == found.value {
        assert after[|after| - 1] in after && after[|after| - 1].Holds(tick);
      } else {
        assert after[if found.Some? && i > found.value then i - 1 else i] == e;
      }
    }
  }

  lemma {:induction false} MergeAllReportedAs(events: seq<DropEvent>, losses: seq<DropEvent>, tick: Tick, reason: string)
    requires ReportedAs(losses, tick, reason)
    ensures ReportedAs(MergeAll(events, losses), tick, reason)
  {
    var n := |losses| - 1;
    assert losses == losses[..n] + [losses[n]];
    var front := MergeAll(events, losses[..n]);
    if !(losses[n].Holds(tick) && losses[n].reason == reason) {
      assert ReportedAs(losses[..n], tick, reason);
      MergeAllReportedAs(events, losses[..n], tick, reason);
    }
    MergeLossReportedAs(front, losses[n], tick, reason);
  }

  /** A dropped tick is reported under the reason it was dropped for. */
  lemma DroppedIsReportedAs(c: Config, w: Writer, ticks: seq<Tick>, reason: string, now: int, tick: Tick)
    requires tick in ticks
    ensures ReportedAs(RecordDrop(c, w, ticks, reason, now).events, tick, reason)
  {
    GroupedReportedAs(ticks, reason, tick);
    MergeAllReportedAs(Recent(w.events, now - c.retention), Grouped(ticks, reason), tick, reason);
  }

  lemma GroupedReportedAs(ticks: seq<Tick>, reason: string, tick: Tick)
    requires tick in ticks
    ensures ReportedAs(Grouped(ticks, reason), tick, reason)
  {
    var losses := Grouped(ticks, reason);
    GroupedFacts(ticks, reason);
    var i :| 0 <= i < |losses| && losses[i].Holds(tick);
    assert losses[i] in losses;
  }

  /** The reasons a reader sees for ticks lost by a flush. */
  lemma LostForAReason(c: Config, world: World, reply: Reply, stored: bool, now: int, tick: Tick)
    requires Sound(c, world) && Enabled(world, End(reply, stored, now)) && tick in world.writer.inFlight
    requires reply != Acknowledged(Some(|world.writer.inFlight|))
    requires reply == NotCommitted(true) ==> world.unconfirmed >= 29
    ensures
      var reason := match reply
        case NotCommitted(retryable) => if retryable then "db_error_circuit_open" else "db_write_rejected"
        case CommitUnknown(_) => "db_commit_unknown"
        case UntypedError => "db_commit_unknown"
        case Acknowledged(_) => "db_ack_mismatch";
      ReportedAs(Next(c, world, End(reply, stored, now)).writer.events, tick, reason)
  {
    DroppedIsReportedAs(c, Failed(world.writer), world.writer.inFlight, FailedReason(reply), now, tick);
  }

  /** What does not fit back, and what a closed or a full writer refuses. */
  lemma RefusedForAReason(c: Config, world: World, tick: Tick, now: int)
    requires Enabled(world, Offer(tick, now)) && (world.writer.closed || |world.writer.buffer| >= c.maxBuffer)
    ensures ReportedAs(Next(c, world, Offer(tick, now)).writer.events, tick,
      if world.writer.closed then "writer_stopped" else "buffer_full")
  {
    DroppedIsReportedAs(c, world.writer, [tick], if world.writer.closed then "writer_stopped" else "buffer_full", now, tick);
  }
}
