/** The aggregator object: a deque and counters updated in place, with the history
    of `TickWriter.World` kept as a ghost field. */
module TickAggregator {
  import opened Wrappers
  import opened LossLedger
  import TW = TickWriter

  /** Everything that happens while one batch is being written: what the store
      replies and really does, when, which ticks producers offer meanwhile, and
      whether the flusher itself is cancelled. */
  datatype Flush = Flush(reply: TW.Reply, stored: bool, arrivals: seq<Tick>, now: int, cancelled: bool)

  /** Flush times that do not go back, between two clock readings. */
  predicate Timed(flushes: seq<Flush>, from: int, to: int) {
    && from <= to
    && (forall i :: 0 <= i < |flushes| ==> from <= flushes[i].now <= to)
    && (forall i, j :: 0 <= i < j < |flushes| ==> flushes[i].now <= flushes[j].now)
  }

  lemma OfferGrows(c: TW.Config, world: TW.World, tick: Tick, now: int)
    requires world.clock <= now
    ensures
      var next := TW.Next(c, world, TW.Offer(tick, now));
      next.offered == world.offered + [tick] && next.clock == now
  {
  }

  lemma OneMoreOffered(offered: seq<Tick>, ticks: seq<Tick>, i: nat)
    requires i < |ticks|
    ensures offered + ticks[..i] + [ticks[i]] == offered + ticks[..i + 1]
  {
  }

  class TickBulkAggregator {
    const config: TW.Config
    var buffer: seq<Tick>
    var inFlight: seq<Tick>
    var closed: bool
    var accepted: nat
    var written: nat
    var dropped: nat
    var dbConsecutiveErrors: nat
    var lastDropAt: Option<int>
    var dropEvents: seq<DropEvent>
    var published: Snapshot
    ghost var world: TW.World

    function State(): TW.Writer
      reads this
    {
      TW.Writer(buffer, inFlight, closed, accepted, written, dropped, dbConsecutiveErrors, lastDropAt, dropEvents, published)
    }

    ghost predicate Valid()
      reads this
    {
      world.writer == State() && config.Valid() && TW.Reachable(config, world)
    }

    constructor (maxBatch: int, maxBuffer: int, retention: nat, clock: nat)
      ensures Valid() && config == TW.MakeConfig(maxBatch, maxBuffer, retention)
      ensures config.maxBatch >= 1 && (maxBatch >= 1 ==> config.maxBatch == maxBatch) && (maxBatch < 1 ==> config.maxBatch == 1)
      ensures config.maxBuffer == if maxBuffer < config.maxBatch then config.maxBatch else maxBuffer
      ensures config.retention == retention
      ensures world == TW.Start(clock)
    {
      config := TW.MakeConfig(maxBatch, maxBuffer, retention);
      buffer, inFlight, closed := [], [], false;
      accepted, written, dropped, dbConsecutiveErrors := 0, 0, 0, 0;
      lastDropAt, dropEvents, published := None, [], Snapshot([], 0);
      world := TW.Start(clock);
      new;
      TW.StartIsReachable(config, clock);
    }

    /** Groups the ticks of one drop by instrument and route. */
    method GroupLosses(ticks: seq<Tick>, reason: string) returns (losses: seq<DropEvent>)
      ensures losses == Grouped(ticks, reason)
    {
      losses := [];
      for i := 0 to |ticks|
        invariant losses == Grouped(ticks[..i], reason)
      {
        assert ticks[..i + 1][..i] == ticks[..i];
        losses := AddLoss(losses, ticks[i], reason);
      }
      assert ticks[..|ticks|] == ticks;
    }

    /** The newest event a loss touches, searching from the end. */
    method FindTouching(loss: DropEvent) returns (r: Option<nat>)
      ensures r == LastTouching(dropEvents, loss)
    {
      var i := |dropEvents|;
      assert dropEvents[..i] == dropEvents;
      while i > 0
        invariant 0 <= i <= |dropEvents|
        invariant LastTouching(dropEvents, loss) == LastTouching(dropEvents[..i], loss)
      {
        assert dropEvents[..i][i - 1] == dropEvents[i - 1];
        if dropEvents[i - 1].Touches(loss) {
          return Some(i - 1);
        }
        assert dropEvents[..i][..i - 1] == dropEvents[..i - 1];
        i := i - 1;
      }
      r := None;
    }

    /** Merges one route's loss into the newest event it touches, which the source
        takes out of its list by equality. */
    method MergeLossLocked(loss: DropEvent)
      requires Shaped(dropEvents)
      requires loss.startAt <= loss.endAt && loss.count > 0
      modifies this`dropEvents
      ensures dropEvents == MergeLoss(old(dropEvents), loss)
      ensures Shaped(dropEvents)
    {
      MergeKeepsShaped(dropEvents, loss);
      var found := FindTouching(loss);
      if found.Some? {
        var previous := dropEvents[found.value];
        dropEvents := RemoveFirst(dropEvents, previous);
        dropEvents := dropEvents + [Hull(previous, loss)];
      } else {
        dropEvents := dropEvents + [loss];
      }
    }

    method RecordDropLocked(ticks: seq<Tick>, reason: string, now: int)
      requires Shaped(dropEvents)
      modifies this`dropped, this`lastDropAt, this`dropEvents, this`published
      ensures State() == TW.RecordDrop(config, old(State()), ticks, reason, now)
    {
      if ticks == [] {
        return;
      }
      dropped := dropped + |ticks|;
      lastDropAt := Some(now);
      UpdateEventsLocked(ticks, reason, now);
      published := Snapshot(dropEvents, dbConsecutiveErrors);
      TW.RecordDropIs(config, old(State()), ticks, reason, now, dropEvents);
    }

    /** Prunes old events, then merges the new losses in. */
    method UpdateEventsLocked(ticks: seq<Tick>, reason: string, now: int)
      requires Shaped(dropEvents)
      modifies this`dropEvents
      ensures dropEvents == Recorded(old(dropEvents), ticks, reason, now, config.retention)
    {
      var losses := GroupLosses(ticks, reason);
      PruneLocked(now - config.retention);
      GroupedShape(ticks, reason);
      MergeLossesLocked(losses);
    }

    method PruneLocked(cutoff: int)
      requires Shaped(dropEvents)
      modifies this`dropEvents
      ensures dropEvents == Recent(old(dropEvents), cutoff) && Shaped(dropEvents)
    {
      RecentKeepsShaped(dropEvents, cutoff);
      dropEvents := Recent(dropEvents, cutoff);
    }

    method MergeLossesLocked(losses: seq<DropEvent>)
      requires Shaped(dropEvents) && WellOrdered(losses)
      modifies this`dropEvents
      ensures dropEvents == MergeAll(old(dropEvents), losses)
    {
      for i := 0 to |losses|
        invariant Shaped(dropEvents)
        invariant dropEvents == MergeAll(old(dropEvents), losses[..i])
      {
        ghost var merged := dropEvents;
        MergeLossLocked(losses[i]);
        assert dropEvents == MergeAll(old(dropEvents), losses[..i + 1]) by {
          MergeOneMore(old(dropEvents), losses, i, merged);
        }
      }
      assert losses[..|losses|] == losses;
    }

    method AddTick(tick: Tick, now: int) returns (ok: bool)
      requires Valid() && world.clock <= now
      modifies this
      ensures Valid() && world == TW.Next(config, old(world), TW.Offer(tick, now))
      ensures ok <==> old(!closed && |buffer| < config.maxBuffer)
      ensures closed == old(closed) && inFlight == old(inFlight)
      ensures buffer == if ok then old(buffer) + [tick] else old(buffer)
    {
      TW.NextIsReachable(config, world, TW.Offer(tick, now));
      TW.ReachableLedger(config, world);
      world := TW.Next(config, world, TW.Offer(tick, now));
      if closed {
        RecordDropLocked([tick], "writer_stopped", now);
        return false;
      }
      if |buffer| >= config.maxBuffer {
        RecordDropLocked([tick], "buffer_full", now);
        return false;
      }
      buffer := buffer + [tick];
      accepted := accepted + 1;
      ok := true;
    }

    /** Moves the oldest ticks into flight. */
    method TakeBatch() returns (batch: seq<Tick>)
      requires Valid() && inFlight == []
      modifies this
      ensures Valid() && batch == inFlight && closed == old(closed)
      ensures |batch| == Min(|old(buffer)|, config.maxBatch) && batch + buffer == old(buffer)
      ensures world == if batch == [] then old(world) else TW.Next(config, old(world), TW.Begin)
    {
      if buffer == [] {
        return [];
      }
      TW.NextIsReachable(config, world, TW.Begin);
      world := TW.Next(config, world, TW.Begin);
      var count := if |buffer| < config.maxBatch then |buffer| else config.maxBatch;
      batch := [];
      ghost var all := buffer;
      while |batch| < count
        invariant |batch| <= count <= |all| && batch == all[..|batch|] && buffer == all[|batch|..]
        decreases count - |batch|
        modifies this`buffer
      {
        batch := batch + [buffer[0]];
        buffer := buffer[1..];
      }
      inFlight := batch;
    }

    method RestoreBatch(batch: seq<Tick>, now: int)
      requires Shaped(dropEvents)
      modifies this`buffer, this`dropped, this`lastDropAt, this`dropEvents, this`published
      ensures State() == TW.Restore(config, old(State()), batch, now).writer
    {
      var room := if |buffer| < config.maxBuffer then config.maxBuffer - |buffer| else 0;
      var restored := batch[..if |batch| < room then |batch| else room];
      var notRestored := batch[|restored|..];
      buffer := restored + buffer;
      ghost var n := TW.Fits(config, old(buffer), batch);
      assert restored == batch[..n] && notRestored == batch[n..];
      assert State() == old(State()).(buffer := batch[..n] + old(buffer));
      RecordDropLocked(notRestored, "restore_overflow", now);
    }

    /** A batch the store did not acknowledge goes back, or is dropped. */
    method RejectLocked(batch: seq<Tick>, reply: TW.Reply, now: int)
      requires Shaped(dropEvents) && !reply.Acknowledged?
      modifies this`buffer, this`dropped, this`lastDropAt, this`dropEvents, this`published
      ensures TW.RetrySafe(reply) && dbConsecutiveErrors < TW.MAX_ERRORS ==>
        State() == TW.Restore(config, old(State()), batch, now).writer
      ensures !(TW.RetrySafe(reply) && dbConsecutiveErrors < TW.MAX_ERRORS) ==>
        State() == TW.RecordDrop(config, old(State()), batch, TW.FailedReason(reply), now)
    {
      var retrySafe := reply.NotCommitted? && reply.retryable;
      if retrySafe && dbConsecutiveErrors < TW.MAX_ERRORS {
        RestoreBatch(batch, now);
      } else {
        var reason := if retrySafe then "db_error_circuit_open"
                      else if reply.NotCommitted? then "db_write_rejected" else "db_commit_unknown";
        RecordDropLocked(batch, reason, now);
      }
    }

    /** The part of a flush after the store answered. */
    method SettleLocked(reply: TW.Reply, now: int) returns (count: nat)
      requires Shaped(dropEvents)
      modifies this`buffer, this`inFlight, this`written, this`dbConsecutiveErrors, this`dropped, this`lastDropAt,
        this`dropEvents, this`published
      ensures State() == TW.Settle(config, old(State()), reply, now).writer
      ensures count == if TW.Confirms(reply, old(inFlight)) then |old(inFlight)| else 0
    {
      var batch := inFlight;
      inFlight := [];
      if reply.Acknowledged? && reply.count == Some(|batch|) {
        written := written + |batch|;
        dbConsecutiveErrors := 0;
        published := Snapshot(dropEvents, 0);
        return |batch|;
      }
      dbConsecutiveErrors := dbConsecutiveErrors + 1;
      published := Snapshot(dropEvents, dbConsecutiveErrors);
      assert State() == TW.Failed(old(State()));
      if reply.Acknowledged? {
        RecordDropLocked(batch, "db_ack_mismatch", now);
      } else {
        RejectLocked(batch, reply, now);
      }
      count := 0;
    }

    method SettleBatch(reply: TW.Reply, ghost stored: bool, now: int) returns (count: nat)
      requires Valid() && inFlight != [] && world.clock <= now
      modifies this
      ensures Valid() && world == TW.Next(config, old(world), TW.End(reply, stored, now))
      ensures inFlight == [] && closed == old(closed)
      ensures count == if TW.Confirms(reply, old(inFlight)) then |old(inFlight)| else 0
      ensures count > 0 ==> buffer == old(buffer)
    {
      ghost var event := TW.End(reply, stored, now);
      TW.NextIsReachable(config, world, event);
      TW.ReachableLedger(config, world);
      TW.SettleFrame(config, world.writer, reply, now);
      world := TW.Next(config, world, event);
      count := SettleLocked(reply, now);
    }

    method DropBuffered(reason: string, now: int)
      requires Valid() && world.clock <= now
      modifies this
      ensures Valid() && world == TW.Next(config, old(world), TW.Discard(reason, now))
      ensures buffer == [] && inFlight == old(inFlight) && closed == old(closed)
    {
      TW.NextIsReachable(config, world, TW.Discard(reason, now));
      TW.ReachableLedger(config, world);
      world := TW.Next(config, world, TW.Discard(reason, now));
      var ticks := buffer;
      buffer := [];
      RecordDropLocked(ticks, reason, now);
    }

    /** Producers keep offering while the store is busy. */
    method OfferAll(ticks: seq<Tick>, now: int)
      requires Valid() && world.clock <= now
      modifies this
      ensures Valid() && world.clock <= now && world.offered == old(world.offered) + ticks
      ensures inFlight == old(inFlight) && closed == old(closed)
      ensures closed ==> buffer == old(buffer)
    {
      for i := 0 to |ticks|
        invariant Valid() && world.clock <= now
        invariant world.offered == old(world.offered) + ticks[..i]
        invariant inFlight == old(inFlight) && closed == old(closed)
        invariant closed ==> buffer == old(buffer)
      {
        ghost var before := world;
        var _ := AddTick(ticks[i], now);
        OfferGrows(config, before, ticks[i], now);
        OneMoreOffered(old(world.offered), ticks, i);
      }
      assert ticks[..|ticks|] == ticks;
    }

    /** One whole flush: take, write while producers go on, settle. */
    method FlushOnce(flush: Flush) returns (count: nat, raised: bool)
      requires Valid() && inFlight == [] && world.clock <= flush.now
      modifies this
      ensures Valid() && inFlight == [] && closed == old(closed) && world.clock <= flush.now
      ensures world.offered == old(world.offered) + if old(buffer) == [] then [] else flush.arrivals
      ensures old(buffer) == [] ==> count == 0 && !raised && world == old(world)
      ensures old(buffer) != [] ==> raised == flush.cancelled
      ensures count > 0 ==> count == Min(|old(buffer)|, config.maxBatch)
      ensures closed && count > 0 ==> buffer == old(buffer)[count..]
    {
      var batch := TakeBatch();
      if batch == [] {
        return 0, false;
      }
      OfferAll(flush.arrivals, flush.now);
      count := SettleBatch(flush.reply, flush.stored, flush.now);
      raised := flush.cancelled;
    }

    /** Writes out what is left, one batch at a time, until a flush brings nothing. */
    method DrainForShutdown(flushes: seq<Flush>, now: int) returns (raised: bool)
      requires Valid() && closed && inFlight == []
      requires |flushes| >= |buffer| && Timed(flushes, world.clock, now)
      modifies this
      ensures Valid() && closed && inFlight == [] && world.clock <= now
      ensures !raised ==> buffer == []
    {
      var k := 0;
      while |buffer| > 0
        invariant Valid() && closed && inFlight == [] && world.clock <= now
        invariant 0 <= k && k + |buffer| <= |flushes|
        invariant forall i :: k <= i < |flushes| ==> world.clock <= flushes[i].now
        decreases |buffer|
      {
        var count, cancelled := FlushOnce(flushes[k]);
        if cancelled {
          return true;
        }
        if count == 0 {
          DropBuffered("shutdown_flush_failed", flushes[k].now);
          return false;
        }
        k := k + 1;
      }
      raised := false;
    }

    /** After stopping, every tick ever offered was written or counted as dropped,
        even when the drain is cancelled half way. */
    method Stop(flushes: seq<Flush>, now: int) returns (raised: bool)
      requires Valid() && inFlight == []
      requires |flushes| >= |buffer| && Timed(flushes, world.clock, now)
      modifies this
      ensures Valid() && closed && buffer == [] && inFlight == []
      ensures |world.offered| == written + dropped
      ensures multiset(world.offered) == multiset(world.written) + multiset(world.lost)
    {
      TW.NextIsReachable(config, world, TW.Close);
      world := TW.Next(config, world, TW.Close);
      closed := true;
      raised := DrainForShutdown(flushes, now);
      if |buffer| > 0 {
        DropBuffered("shutdown_incomplete", now);
      }
      TW.QuietMeansSettled(config, world);
    }
  }
}
