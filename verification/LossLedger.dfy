/** The drop ledger of the tick writer: what was lost, merged per instrument, route
    and reason, and what a reader may conclude from it. */
module LossLedger {
  import opened Wrappers
  import opened Sorting
  import opened Timeframes

  const MERGE_SLACK := 60 * MICROS_PER_SECOND

  /** A tick; everything the writer never looks at is one opaque payload. */
  datatype Tick = Tick(ts: int, instrumentId: string, routeFingerprint: string, payload: nat)

  datatype DropEvent = DropEvent(
    startAt: int,
    endAt: int,
    instrumentId: string,
    routeFingerprint: string,
    reason: string,
    count: nat
  ) {
    predicate Holds(tick: Tick) {
      && instrumentId == tick.instrumentId && routeFingerprint == tick.routeFingerprint
      && startAt <= tick.ts <= endAt
    }

    /** Same instrument, route and reason. */
    predicate SameKind(other: DropEvent) {
      instrumentId == other.instrumentId && routeFingerprint == other.routeFingerprint && reason == other.reason
    }

    predicate Within(other: DropEvent) {
      SameKind(other) && other.startAt <= startAt && endAt <= other.endAt
    }

    /** Close enough to be merged. */
    predicate Touches(loss: DropEvent) {
      SameKind(loss) && loss.startAt <= endAt + MERGE_SLACK && loss.endAt >= startAt - MERGE_SLACK
    }
  }

  function Min(a: int, b: int): int {
    if a < b then a else b
  }

  function Max(a: int, b: int): int {
    if a < b then b else a
  }

  function Hull(event: DropEvent, loss: DropEvent): DropEvent {
    event.(startAt := Min(event.startAt, loss.startAt), endAt := Max(event.endAt, loss.endAt),
           count := event.count + loss.count)
  }

  // ----- one loss per identity ---------------------------------------------

  /** The place of a tick's instrument and route among the losses, if any. */
  function PlaceOf(losses: seq<DropEvent>, tick: Tick): (r: Option<nat>)
    ensures r.Some? ==> r.value < |losses|
    ensures r.Some? ==> losses[r.value].instrumentId == tick.instrumentId
    ensures r.Some? ==> losses[r.value].routeFingerprint == tick.routeFingerprint
  {
    if losses == [] then None
    else if losses[|losses| - 1].instrumentId == tick.instrumentId
         && losses[|losses| - 1].routeFingerprint == tick.routeFingerprint then Some(|losses| - 1)
    else PlaceOf(losses[..|losses| - 1], tick)
  }

  function AddLoss(losses: seq<DropEvent>, tick: Tick, reason: string): seq<DropEvent> {
    var one := DropEvent(tick.ts, tick.ts, tick.instrumentId, tick.routeFingerprint, reason, 1);
    match PlaceOf(losses, tick)
    case None => losses + [one]
    case Some(i) => losses[i := Hull(losses[i], one)]
  }

  /** The per-route losses of a batch of dropped ticks, in first-seen order. */
  function Grouped(ticks: seq<Tick>, reason: string): seq<DropEvent> {
    if ticks == [] then [] else AddLoss(Grouped(ticks[..|ticks| - 1], reason), ticks[|ticks| - 1], reason)
  }

  function TotalCount(events: seq<DropEvent>): nat {
    if events == [] then 0 else TotalCount(events[..|events| - 1]) + events[|events| - 1].count
  }

  ghost predicate Reports(events: seq<DropEvent>, tick: Tick) {
    exists i :: 0 <= i < |events| && events[i].Holds(tick)
  }

  lemma {:induction false} TotalCountAppend(a: seq<DropEvent>, b: seq<DropEvent>)
    ensures TotalCount(a + b) == TotalCount(a) + TotalCount(b)
  {
    if b == [] {
      assert a + b == a;
    } else {
      assert (a + b)[..|a + b| - 1] == a + b[..|b| - 1];
      TotalCountAppend(a, b[..|b| - 1]);
    }
  }

  lemma TotalCountUpdate(events: seq<DropEvent>, i: nat, event: DropEvent)
    requires i < |events|
    ensures TotalCount(events[i := event]) == TotalCount(events) - events[i].count + event.count
    ensures TotalCount(events[..i] + events[i + 1..]) == TotalCount(events) - events[i].count
  {
    var a, b := events[..i], events[i + 1..];
    assert events == (a + [events[i]]) + b;
    assert events[i := event] == (a + [event]) + b;
    TotalCountAppend(a + [events[i]], b);
    TotalCountAppend(a + [event], b);
    TotalCountAppend(a, b);
  }

  lemma AddLossFacts(losses: seq<DropEvent>, tick: Tick, reason: string)
    ensures TotalCount(AddLoss(losses, tick, reason)) == TotalCount(losses) + 1
    ensures Reports(AddLoss(losses, tick, reason), tick)
    ensures forall t :: Reports(losses, t) ==> Reports(AddLoss(losses, tick, reason), t)
    ensures (forall e :: e in losses ==> e.reason == reason) ==>
      forall e :: e in AddLoss(losses, tick, reason) ==> e.reason == reason
  {
    var after := AddLoss(losses, tick, reason);
    var one := DropEvent(tick.ts, tick.ts, tick.instrumentId, tick.routeFingerprint, reason, 1);
    match PlaceOf(losses, tick) {
      case None =>
        assert after[|losses|].Holds(tick);
        forall t | Reports(losses, t) ensures Reports(after, t) {
          var i :| 0 <= i < |losses| && losses[i].Holds(t);
          assert after[i].Holds(t);
        }
      case Some(k) =>
        TotalCountUpdate(losses, k, Hull(losses[k], one));
        assert after[k].Holds(tick);
        forall t | Reports(losses, t) ensures Reports(after, t) {
          var i :| 0 <= i < |losses| && losses[i].Holds(t);
          assert after[i].Holds(t);
        }
    }
  }

  /** Grouping reports every dropped tick and counts each exactly once. */
  lemma {:induction false} GroupedFacts(ticks: seq<Tick>, reason: string)
    ensures forall t :: t in ticks ==> Reports(Grouped(ticks, reason), t)
    ensures TotalCount(Grouped(ticks, reason)) == |ticks|
    ensures forall e :: e in Grouped(ticks, reason) ==> e.reason == reason
    decreases |ticks|
  {
    if ticks != [] {
      var n := |ticks| - 1;
      GroupedFacts(ticks[..n], reason);
      AddLossFacts(Grouped(ticks[..n], reason), ticks[n], reason);
      assert ticks == ticks[..n] + [ticks[n]];
    }
  }

  // ----- merging into the ledger -------------------------------------------

  /** The newest event the loss touches. */
  function LastTouching(events: seq<DropEvent>, loss: DropEvent): (r: Option<nat>)
    ensures r.None? ==> forall i :: 0 <= i < |events| ==> !events[i].Touches(loss)
    ensures r.Some? ==> r.value < |events| && events[r.value].Touches(loss)
    ensures r.Some? ==> forall i :: r.value < i < |events| ==> !events[i].Touches(loss)
    decreases |events|
  {
    if events == [] then None
    else if events[|events| - 1].Touches(loss) then Some(|events| - 1)
    else LastTouching(events[..|events| - 1], loss)
  }

  function MergeLoss(events: seq<DropEvent>, loss: DropEvent): seq<DropEvent> {
    match LastTouching(events, loss)
    case None => events + [loss]
    case Some(i) => events[..i] + events[i + 1..] + [Hull(events[i], loss)]
  }

  function MergeAll(events: seq<DropEvent>, losses: seq<DropEvent>): seq<DropEvent> {
    if losses == [] then events
    else MergeLoss(MergeAll(events, losses[..|losses| - 1]), losses[|losses| - 1])
  }

  lemma MergeOneMore(events: seq<DropEvent>, losses: seq<DropEvent>, i: nat, merged: seq<DropEvent>)
    requires i < |losses| && merged == MergeAll(events, losses[..i])
    ensures MergeAll(events, losses[..i + 1]) == MergeLoss(merged, losses[i])
  {
    assert losses[..i + 1][..i] == losses[..i];
  }

  function Recent(events: seq<DropEvent>, cutoff: int): seq<DropEvent> {
    if events == [] then []
    else
      var earlier, last := Recent(events[..|events| - 1], cutoff), events[|events| - 1];
      if last.endAt >= cutoff then earlier + [last] else earlier
  }

  /** The ledger after dropping `ticks` at `now`. */
  function Recorded(events: seq<DropEvent>, ticks: seq<Tick>, reason: string, now: int, retention: nat): seq<DropEvent> {
    MergeAll(Recent(events, now - retention), Grouped(ticks, reason))
  }

  lemma MergeLossFacts(events: seq<DropEvent>, loss: DropEvent)
    ensures TotalCount(MergeLoss(events, loss)) == TotalCount(events) + loss.count
    ensures forall t :: Reports(events, t) || loss.Holds(t) ==> Reports(MergeLoss(events, loss), t)
  {
    var after := MergeLoss(events, loss);
    match LastTouching(events, loss) {
      case None =>
        TotalCountAppend(events, [loss]);
        assert [loss][..0] == [];
        forall t | Reports(events, t) || loss.Holds(t) ensures Reports(after, t) {
          if i :| 0 <= i < |events| && events[i].Holds(t) {
            assert after[i].Holds(t);
          } else {
            assert after[|events|].Holds(t);
          }
        }
      case Some(k) =>
        var merged := Hull(events[k], loss);
        TotalCountUpdate(events, k, merged);
        TotalCountAppend(events[..k] + events[k + 1..], [merged]);
        assert [merged][..0] == [];
        forall t | Reports(events, t) || loss.Holds(t) ensures Reports(after, t) {
          assert after[|after| - 1] == merged;
          if i :| 0 <= i < |events| && events[i].Holds(t) {
            assert after[if i < k then i else if i == k then |after| - 1 else i - 1].Holds(t);
          } else {
            assert after[|after| - 1].Holds(t);
          }
        }
    }
  }

  lemma {:induction false} MergeAllCounts(events: seq<DropEvent>, losses: seq<DropEvent>)
    ensures TotalCount(MergeAll(events, losses)) == TotalCount(events) + TotalCount(losses)
    decreases |losses|
  {
    if losses != [] {
      var n := |losses| - 1;
      MergeAllCounts(events, losses[..n]);
      MergeLossFacts(MergeAll(events, losses[..n]), losses[n]);
    }
  }

  lemma {:induction false} MergeAllReports(events: seq<DropEvent>, losses: seq<DropEvent>, t: Tick)
    requires Reports(events, t) || Reports(losses, t)
    ensures Reports(MergeAll(events, losses), t)
    decreases |losses|
  {
    if losses != [] {
      var n := |losses| - 1;
      assert losses == losses[..n] + [losses[n]];
      ReportsAppend(losses[..n], [losses[n]], t);
      MergeLossFacts(MergeAll(events, losses[..n]), losses[n]);
      if Reports(events, t) || Reports(losses[..n], t) {
        MergeAllReports(events, losses[..n], t);
      }
    }
  }

  lemma ReportsAppend(a: seq<DropEvent>, b: seq<DropEvent>, t: Tick)
    ensures Reports(a + b, t) <==> Reports(a, t) || Reports(b, t)
  {
    if i :| 0 <= i < |a| && a[i].Holds(t) {
      assert (a + b)[i].Holds(t);
    }
    if i :| 0 <= i < |b| && b[i].Holds(t) {
      assert (a + b)[|a| + i].Holds(t);
    }
    if i :| 0 <= i < |a + b| && (a + b)[i].Holds(t) {
      assert if i < |a| then a[i].Holds(t) else b[i - |a|].Holds(t);
    }
  }

  /** Forgetting old events keeps every report of a recent tick. */
  lemma {:induction false} RecentReports(events: seq<DropEvent>, cutoff: int, t: Tick)
    requires Reports(events, t) && t.ts >= cutoff
    ensures Reports(Recent(events, cutoff), t)
    decreases |events|
  {
    var n := |events| - 1;
    assert events == events[..n] + [events[n]];
    ReportsAppend(events[..n], [events[n]], t);
    ReportsAppend(Recent(events[..n], cutoff), [events[n]], t);
    if Reports(events[..n], t) {
      RecentReports(events[..n], cutoff, t);
    }
  }

  lemma {:induction false} RecentFacts(events: seq<DropEvent>, cutoff: int)
    ensures TotalCount(Recent(events, cutoff)) <= TotalCount(events)
    ensures forall e :: e in Recent(events, cutoff) ==> e in events
    decreases |events|
  {
    if events != [] {
      var n := |events| - 1;
      RecentFacts(events[..n], cutoff);
      TotalCountAppend(Recent(events[..n], cutoff), [events[n]]);
      assert [events[n]][..0] == [];
    }
  }

  /** Forgetting takes out exactly the events that end before the cutoff. */
  lemma {:induction false} RecentMembers(events: seq<DropEvent>, cutoff: int, e: DropEvent)
    ensures e in Recent(events, cutoff) <==> e in events && cutoff <= e.endAt
  {
    if events != [] {
      var n := |events| - 1;
      RecentMembers(events[..n], cutoff, e);
      assert events == events[..n] + [events[n]];
    }
  }

  /** Recording a drop reports every tick just dropped, and keeps every earlier
      report of a tick inside the retention window. */
  lemma RecordedReports(events: seq<DropEvent>, ticks: seq<Tick>, reason: string, now: int, retention: nat, t: Tick)
    requires t in ticks || (Reports(events, t) && t.ts >= now - retention)
    ensures Reports(Recorded(events, ticks, reason, now, retention), t)
  {
    if t in ticks {
      GroupedFacts(ticks, reason);
    } else {
      RecentReports(events, now - retention, t);
    }
    MergeAllReports(Recent(events, now - retention), Grouped(ticks, reason), t);
  }

  /** Ticks counted by the events a cutoff prunes. */
  function Forgotten(events: seq<DropEvent>, cutoff: int): nat {
    RecentFacts(events, cutoff);
    TotalCount(events) - TotalCount(Recent(events, cutoff))
  }

  /** Counts leave the ledger only by being pruned. */
  lemma RecordedCounts(events: seq<DropEvent>, ticks: seq<Tick>, reason: string, now: int, retention: nat)
    ensures Forgotten(events, now - retention) + TotalCount(Recorded(events, ticks, reason, now, retention))
         == TotalCount(events) + |ticks|
  {
    GroupedFacts(ticks, reason);
    MergeAllCounts(Recent(events, now - retention), Grouped(ticks, reason));
  }

  // ----- removing by value -------------------------------------------------

  /** No event lies inside an earlier event of its kind. The source removes a
      merged event by equality; this is why that removes the event it found. */
  ghost predicate NoneShadowed(events: seq<DropEvent>) {
    forall i, j :: 0 <= i < j < |events| ==> !events[j].Within(events[i])
  }

  function RemoveFirst(events: seq<DropEvent>, event: DropEvent): seq<DropEvent>
    requires event in events
  {
    if events[0] == event then events[1..] else [events[0]] + RemoveFirst(events[1..], event)
  }

  lemma {:induction false} RemoveFirstIsPlace(events: seq<DropEvent>, i: nat)
    requires NoneShadowed(events) && i < |events| && events[i].startAt <= events[i].endAt
    ensures RemoveFirst(events, events[i]) == events[..i] + events[i + 1..]
    decreases i
  {
    if i > 0 {
      assert !events[i].Within(events[0]);
      RemoveFirstIsPlace(events[1..], i - 1);
      assert events[..i] + events[i + 1..] == [events[0]] + (events[1..][..i - 1] + events[1..][i..]);
    }
  }

  ghost predicate WellOrdered(events: seq<DropEvent>) {
    forall i :: 0 <= i < |events| ==> events[i].startAt <= events[i].endAt && events[i].count > 0
  }

  lemma HullWithin(event: DropEvent, loss: DropEvent, other: DropEvent)
    requires event.SameKind(loss) && loss.startAt <= loss.endAt
    ensures Hull(event, loss).Within(other) ==> event.Within(other) && other.Touches(loss)
  {
  }

  lemma MergeKeepsShape(events: seq<DropEvent>, loss: DropEvent)
    requires NoneShadowed(events) && WellOrdered(events) && loss.startAt <= loss.endAt && loss.count > 0
    ensures NoneShadowed(MergeLoss(events, loss)) && WellOrdered(MergeLoss(events, loss))
  {
    var after := MergeLoss(events, loss);
    match LastTouching(events, loss) {
      case None =>
      case Some(k) =>
        var n := |after| - 1;
        assert forall i :: 0 <= i < n ==> after[i] == events[if i < k then i else i + 1];
        forall i, j | 0 <= i < j < |after| ensures !after[j].Within(after[i]) {
          if j == n {
            var source := if i < k then i else i + 1;
            assert after[n] == Hull(events[k], loss) && after[i] == events[source];
            HullWithin(events[k], loss, events[source]);
          }
        }
    }
  }

  lemma ShapePrefix(events: seq<DropEvent>, n: nat)
    requires NoneShadowed(events) && WellOrdered(events) && |events| == n + 1
    ensures NoneShadowed(events[..n]) && WellOrdered(events[..n])
    ensures forall e :: e in events[..n] ==> !events[n].Within(e)
  {
    forall e | e in events[..n] ensures !events[n].Within(e) {
      var k :| 0 <= k < n && events[..n][k] == e;
      assert events[k] == e;
    }
  }

  lemma {:induction false} RecentKeepsShape(events: seq<DropEvent>, cutoff: int)
    requires NoneShadowed(events) && WellOrdered(events)
    ensures NoneShadowed(Recent(events, cutoff)) && WellOrdered(Recent(events, cutoff))
    decreases |events|
  {
    if events != [] {
      var n := |events| - 1;
      ShapePrefix(events, n);
      RecentKeepsShape(events[..n], cutoff);
      RecentFacts(events[..n], cutoff);
      if events[n].endAt >= cutoff {
        var front := Recent(events[..n], cutoff);
        assert forall i :: 0 <= i < |front| ==> front[i] in front;
        ShapeAppends(front, events[n]);
      }
    }
  }

  lemma ShapeAppends(front: seq<DropEvent>, last: DropEvent)
    requires NoneShadowed(front) && WellOrdered(front)
    requires last.startAt <= last.endAt && last.count > 0
    requires forall i :: 0 <= i < |front| ==> !last.Within(front[i])
    ensures NoneShadowed(front + [last]) && WellOrdered(front + [last])
  {
  }

  lemma {:induction false} GroupedShape(ticks: seq<Tick>, reason: string)
    ensures WellOrdered(Grouped(ticks, reason))
    decreases |ticks|
  {
    if ticks != [] {
      GroupedShape(ticks[..|ticks| - 1], reason);
    }
  }

  lemma {:induction false} MergeAllKeepsShape(events: seq<DropEvent>, losses: seq<DropEvent>)
    requires NoneShadowed(events) && WellOrdered(events) && WellOrdered(losses)
    ensures NoneShadowed(MergeAll(events, losses)) && WellOrdered(MergeAll(events, losses))
    decreases |losses|
  {
    if losses != [] {
      var n := |losses| - 1;
      MergeAllKeepsShape(events, losses[..n]);
      MergeKeepsShape(MergeAll(events, losses[..n]), losses[n]);
    }
  }

  /** Both shape conditions, built up event by event. */
  ghost predicate Shaped(events: seq<DropEvent>)
    decreases |events|
  {
    events == []
    || (var n := |events| - 1;
        Shaped(events[..n]) && events[n].startAt <= events[n].endAt && events[n].count > 0
        && forall i :: 0 <= i < n ==> !events[n].Within(events[i]))
  }

  lemma {:induction false} ShapedMeans(events: seq<DropEvent>)
    ensures Shaped(events) <==> NoneShadowed(events) && WellOrdered(events)
    decreases |events|
  {
    if events != [] {
      var n := |events| - 1;
      ShapedMeans(events[..n]);
      if Shaped(events) {
        assert events == events[..n] + [events[n]];
        ShapeAppends(events[..n], events[n]);
      }
    }
  }

  lemma RecordedKeepsShape(events: seq<DropEvent>, ticks: seq<Tick>, reason: string, now: int, retention: nat)
    requires Shaped(events)
    ensures Shaped(Recorded(events, ticks, reason, now, retention))
  {
    ShapedMeans(events);
    RecentKeepsShape(events, now - retention);
    GroupedShape(ticks, reason);
    MergeAllKeepsShape(Recent(events, now - retention), Grouped(ticks, reason));
    ShapedMeans(Recorded(events, ticks, reason, now, retention));
  }

  lemma RecentKeepsShaped(events: seq<DropEvent>, cutoff: int)
    requires Shaped(events)
    ensures Shaped(Recent(events, cutoff))
  {
    ShapedMeans(events);
    RecentKeepsShape(events, cutoff);
    ShapedMeans(Recent(events, cutoff));
  }

  /** Merging keeps the shape, and removing the merged event by equality removes
      exactly the event that was found. */
  lemma {:induction false} MergeKeepsShaped(events: seq<DropEvent>, loss: DropEvent)
    requires Shaped(events) && loss.startAt <= loss.endAt && loss.count > 0
    ensures Shaped(MergeLoss(events, loss))
    ensures forall i :: 0 <= i < |events| ==> events[i] in events && RemoveFirst(events, events[i]) == events[..i] + events[i + 1..]
  {
    ShapedMeans(events);
    MergeKeepsShape(events, loss);
    ShapedMeans(MergeLoss(events, loss));
    forall i | 0 <= i < |events| ensures RemoveFirst(events, events[i]) == events[..i] + events[i + 1..] {
      RemoveFirstIsPlace(events, i);
    }
  }

  // ----- the published view ------------------------------------------------

  datatype Snapshot = Snapshot(events: seq<DropEvent>, errors: nat)

  datatype Quality = Quality(complete: bool, dropped: nat, dropInWindow: bool, lastDropAt: Option<int>, lastReason: string)

  predicate Overlaps(event: DropEvent, instrumentId: string, routeFingerprint: string, start: Option<int>, end: Option<int>) {
    && event.instrumentId == instrumentId && event.routeFingerprint == routeFingerprint
    && (start.None? || event.endAt >= start.value)
    && (end.None? || event.startAt <= end.value)
  }

  function Selected(events: seq<DropEvent>, instrumentId: string, routeFingerprint: string, start: Option<int>,
                    end: Option<int>): seq<DropEvent>
  {
    if events == [] then []
    else
      var rest := Selected(events[1..], instrumentId, routeFingerprint, start, end);
      if Overlaps(events[0], instrumentId, routeFingerprint, start, end) then [events[0]] + rest else rest
  }

  lemma {:induction false} SelectedMembers(events: seq<DropEvent>, instrumentId: string, routeFingerprint: string,
                                           start: Option<int>, end: Option<int>, e: DropEvent)
    ensures e in Selected(events, instrumentId, routeFingerprint, start, end)
       <==> e in events && Overlaps(e, instrumentId, routeFingerprint, start, end)
  {
    if events != [] {
      SelectedMembers(events[1..], instrumentId, routeFingerprint, start, end, e);
    }
  }

  const END_KEY: DropEvent -> Key := (e: DropEvent) => Key(e.endAt, 0)

  /** What the published snapshot says about one instrument, route and window. */
  function QualityOf(snapshot: Snapshot, instrumentId: string, routeFingerprint: string, start: Option<int>,
                     end: Option<int>): Quality
  {
    var selected := Sort(Selected(snapshot.events, instrumentId, routeFingerprint, start, end), END_KEY);
    if selected == [] then Quality(snapshot.errors == 0, 0, false, None, "")
    else
      var last := selected[|selected| - 1];
      Quality(false, TotalCount(selected), true, Some(last.endAt), last.reason)
  }

  function Dropping(events: seq<DropEvent>, i: nat): seq<DropEvent>
    requires i < |events|
  {
    events[..i] + events[i + 1..]
  }

  lemma DroppingMultiset(events: seq<DropEvent>, i: nat)
    requires i < |events|
    ensures multiset(Dropping(events, i)) == multiset(events) - multiset{events[i]}
  {
    var a, e, b := events[..i], events[i], events[i + 1..];
    assert events == a + ([e] + b);
    assert multiset(events) == multiset(a) + multiset([e] + b);
    assert multiset([e] + b) == multiset{e} + multiset(b);
    assert multiset(a + b) == multiset(a) + multiset(b);
  }

  lemma DroppingOne(events: seq<DropEvent>, i: nat)
    requires i < |events|
    ensures multiset(Dropping(events, i)) == multiset(events) - multiset{events[i]}
    ensures TotalCount(Dropping(events, i)) == TotalCount(events) - events[i].count
  {
    DroppingMultiset(events, i);
    TotalCountUpdate(events, i, events[i]);
  }

  lemma {:induction false} TotalIsOrderFree(a: seq<DropEvent>, b: seq<DropEvent>)
    requires multiset(a) == multiset(b)
    ensures TotalCount(a) == TotalCount(b)
    decreases |a|
  {
    if a == [] {
      assert |multiset(b)| == 0;
    } else {
      assert a[0] in multiset(b);
      var i :| 0 <= i < |b| && b[i] == a[0];
      DroppingOne(a, 0);
      DroppingOne(b, i);
      TotalIsOrderFree(Dropping(a, 0), Dropping(b, i));
    }
  }

  /** A window reads complete exactly when no retained event of the route overlaps
      it and the writer has no open error; otherwise the report counts every
      overlapping event and names the latest loss. */
  lemma QualityMeaning(snapshot: Snapshot, instrumentId: string, routeFingerprint: string, start: Option<int>, end: Option<int>)
    ensures
      var q := QualityOf(snapshot, instrumentId, routeFingerprint, start, end);
      var selected := Selected(snapshot.events, instrumentId, routeFingerprint, start, end);
      && (q.dropInWindow <==> exists e :: e in snapshot.events && Overlaps(e, instrumentId, routeFingerprint, start, end))
      && (q.complete <==> !q.dropInWindow && snapshot.errors == 0)
      && q.dropped == TotalCount(selected)
      && (q.dropInWindow ==> forall e :: e in snapshot.events && Overlaps(e, instrumentId, routeFingerprint, start, end) ==>
            q.lastDropAt.Some? && e.endAt <= q.lastDropAt.value)
  {
    var selected := Selected(snapshot.events, instrumentId, routeFingerprint, start, end);
    var sorted := Sort(selected, END_KEY);
    SortKeeps(selected, END_KEY);
    TotalIsOrderFree(sorted, selected);
    forall e ensures e in sorted <==> e in snapshot.events && Overlaps(e, instrumentId, routeFingerprint, start, end) {
      SameMembers(selected, END_KEY, e);
      SelectedMembers(snapshot.events, instrumentId, routeFingerprint, start, end, e);
    }
    if sorted == [] {
      assert |multiset(sorted)| == |selected|;
    } else {
      assert sorted[0] in sorted;
      LastIsLatest(sorted);
    }
  }

  lemma LastIsLatest(sorted: seq<DropEvent>)
    requires Ordered(sorted, END_KEY) && sorted != []
    ensures forall e :: e in sorted ==> e.endAt <= sorted[|sorted| - 1].endAt
  {
    forall e | e in sorted ensures e.endAt <= sorted[|sorted| - 1].endAt {
      var i :| 0 <= i < |sorted| && sorted[i] == e;
      assert i < |sorted| - 1 ==> KeyLeq(END_KEY(sorted[i]), END_KEY(sorted[|sorted| - 1]));
    }
  }

  /** What a reader is told of the last drop in a window is about one overlapping
      event: that ends no earlier than any other. */
  lemma QualityNewest(snapshot: Snapshot, instrumentId: string, routeFingerprint: string, start: Option<int>, end: Option<int>)
    ensures
      var q := QualityOf(snapshot, instrumentId, routeFingerprint, start, end);
      if q.dropInWindow then NewestOverlapping(q, snapshot.events, instrumentId, routeFingerprint, start, end)
      else q.lastDropAt.None? && q.lastReason == ""
  {
    var selected := Selected(snapshot.events, instrumentId, routeFingerprint, start, end);
    var sorted := Sort(selected, END_KEY);
    if sorted != [] {
      var last := sorted[|sorted| - 1];
      assert last in sorted;
      SameMembers(selected, END_KEY, last);
      SelectedMembers(snapshot.events, instrumentId, routeFingerprint, start, end, last);
    }
  }

  ghost predicate NewestOverlapping(
      q: Quality, events: seq<DropEvent>, instrumentId: string, routeFingerprint: string, start: Option<int>, end: Option<int>) {
    exists e ::
      && e in events && Overlaps(e, instrumentId, routeFingerprint, start, end)
      && q.lastDropAt == Some(e.endAt) && q.lastReason == e.reason
  }

  /** A reported tick makes every window around it read incomplete. */
  lemma ReportedMeansIncomplete(snapshot: Snapshot, tick: Tick, start: Option<int>, end: Option<int>)
    requires Reports(snapshot.events, tick)
    requires (start.Some? ==> start.value <= tick.ts) && (end.Some? ==> tick.ts <= end.value)
    ensures
      var q := QualityOf(snapshot, tick.instrumentId, tick.routeFingerprint, start, end);
      !q.complete && q.dropInWindow
  {
    var i :| 0 <= i < |snapshot.events| && snapshot.events[i].Holds(tick);
    assert Overlaps(snapshot.events[i], tick.instrumentId, tick.routeFingerprint, start, end);
    QualityMeaning(snapshot, tick.instrumentId, tick.routeFingerprint, start, end);
  }
}
