/** What a lookup of trading hours finds, in terms of what happened before: the row
    of the last read that was admitted, while it is fresh and nothing came between. */
module TradingHoursReads {
  import opened Wrappers
  import opened OrderedEntries
  import opened TradingHours
  import RT = RecencyTables

  // ----- readers and changes -----------------------------------------------

  predicate Changes(event: Event) {
    event.Drop? || event.Mark?
  }

  function ChangeCount(events: seq<Event>): nat {
    if events == [] then 0 else ChangeCount(events[..|events| - 1]) + if Changes(events[|events| - 1]) then 1 else 0
  }

  /** Some step began the read, before any change counted since. */
  ghost predicate Began(events: seq<Event>, n: nat, reader: Reader) {
    && 1 <= reader.began <= n <= |events|
    && events[reader.began - 1] == StartRead(reader.token.route, reader.token.now)
    && reader.token.sequence == ChangeCount(events[..reader.began])
  }

  lemma StepCounts(w: World, event: Event)
    ensures Step(w, event).clock == w.clock + 1
    ensures Step(w, event).h.sequence == w.h.sequence + if Changes(event) then 1 else 0
    ensures
      var after := Step(w, event).readers;
      if event.StartRead? && BeginRead(w.h, event.route, event.now).1.Miss? then
        && |after| == |w.readers| + 1 && after[..|w.readers|] == w.readers
        && after[|w.readers|].token.route == event.route && after[|w.readers|].token.now == event.now
        && after[|w.readers|].token.sequence == w.h.sequence && after[|w.readers|].began == w.clock + 1
      else after == w.readers
  {
  }

  lemma {:induction false} ReadersBegan(worlds: seq<World>, events: seq<Event>, n: nat)
    requires IsRun(worlds, events) && n <= |events|
    ensures worlds[n].clock == n && worlds[n].h.sequence == ChangeCount(events[..n])
    ensures forall i :: 0 <= i < |worlds[n].readers| ==> Began(events, n, worlds[n].readers[i])
  {
    if n > 0 {
      ReadersBegan(worlds, events, n - 1);
      StepCounts(worlds[n - 1], events[n - 1]);
      assert events[..n][..n - 1] == events[..n - 1];
    }
  }

  lemma {:induction false} CountedChanges(events: seq<Event>, i: nat, n: nat)
    requires i <= n <= |events|
    ensures ChangeCount(events[..i]) <= ChangeCount(events[..n])
    ensures ChangeCount(events[..i]) == ChangeCount(events[..n]) <==> forall j :: i <= j < n ==> !Changes(events[j])
    decreases n
  {
    if i < n {
      CountedChanges(events, i, n - 1);
      assert events[..n][..n - 1] == events[..n - 1];
    }
  }

  // ----- what is admitted --------------------------------------------------

  /** The step is the end of a read that may end now and is cached. */
  predicate Admits(w: World, event: Event) {
    event.EndRead? && MayEnd(w, event.reader, event.row) && FinishRead(w.h, w.readers[event.reader].token, event.row).1
  }

  /** A read that ends is cached exactly when no route changed since it began. */
  lemma AdmitsIff(worlds: seq<World>, events: seq<Event>, n: nat)
    requires IsRun(worlds, events) && n < |events| && events[n].EndRead? && MayEnd(worlds[n], events[n].reader, events[n].row)
    ensures
      var reader := worlds[n].readers[events[n].reader];
      && 1 <= reader.began <= n && events[reader.began - 1] == StartRead(reader.token.route, reader.token.now)
      && (Admits(worlds[n], events[n]) <==> forall j :: reader.began <= j < n ==> !events[j].Drop? && !events[j].Mark?)
  {
    var reader := worlds[n].readers[events[n].reader];
    ReadersBegan(worlds, events, n);
    assert Began(events, n, reader);
    AdmittedIffNothingChanged(worlds, events, n, events[n].reader, events[n].row);
    CountedChanges(events, reader.began, n);
    assert forall j :: reader.began <= j < n ==> (Changes(events[j]) <==> events[j].Drop? || events[j].Mark?);
  }

  /** The row an admitting step caches. */
  function Admitted(w: World, event: Event): Entry<Route, Cached>
    requires Admits(w, event)
  {
    var token := w.readers[event.reader].token;
    Entry(token.route, Cached(token.now, event.row))
  }

  // ----- the cache, step by step -------------------------------------------

  /** Rows live five minutes, and there are at most 2048. */
  const POLICY := RT.Policy(300_000_000, 2048)

  type Trace = RT.Trace<Route, Row>

  /** What a step does to the cache: the row it admits, the route whose row it takes
      out, and when it forgets old rows, if it does. */
  function TraceOf(w: World, event: Event): Trace {
    match event
    case Drop(route, now) => RT.Trace(None, RT.One(route), Some(now))
    case Mark(route, now) => RT.Trace(None, RT.One(route), Some(now))
    case Confirm(route, expected, now) =>
      RT.Trace(None, RT.Nothing, if route in w.h.pending && w.h.pending[route] == expected then Some(now) else None)
    case Look(now) => RT.Trace(None, RT.Nothing, Some(now))
    case StartRead(_, now) => RT.Trace(None, RT.Nothing, Some(now))
    case EndRead(_, _) =>
      if Admits(w, event) then
        var entry := Admitted(w, event);
        RT.Trace(Some(Stamped(entry)), RT.One(entry.key), Some(entry.value.at))
      else RT.Trace(None, RT.Nothing, None)
  }

  function TracesOf(worlds: seq<World>, events: seq<Event>): (traces: seq<Trace>)
    requires |events| < |worlds|
    ensures |traces| == |events| && forall k :: 0 <= k < |events| ==> traces[k] == TraceOf(worlds[k], events[k])
  {
    seq(|events|, k requires 0 <= k < |events| => TraceOf(worlds[k], events[k]))
  }

  function Stamped(entry: Entry<Route, Cached>): RT.Row<Route, Row> {
    RT.Row(entry.key, entry.value.at, entry.value.row)
  }

  function Rows(cache: Cache): (rows: seq<RT.Row<Route, Row>>)
    ensures |rows| == |cache| && forall i :: 0 <= i < |cache| ==> rows[i] == Stamped(cache[i])
  {
    seq(|cache|, i requires 0 <= i < |cache| => Stamped(cache[i]))
  }

  function Remaining(cache: Cache, removes: RT.Removal<Route>): Cache {
    match removes
    case Nothing => cache
    case One(route) => Without(cache, route)
    case Everything => []
  }

  lemma {:induction false} FreshSurvive(cache: Cache, removes: RT.Removal<Route>, now: int)
    requires !removes.Everything?
    ensures Rows(Fresh(Remaining(cache, removes), now)) == RT.Surviving(POLICY, Rows(cache), removes, now)
  {
    if cache != [] {
      var n := |cache| - 1;
      FreshSurvive(cache[..n], removes, now);
      assert Rows(cache)[..n] == Rows(cache[..n]);
      RemainingStep(cache, removes, now);
    }
  }

  lemma RemainingStep(cache: Cache, removes: RT.Removal<Route>, now: int)
    requires cache != [] && !removes.Everything?
    ensures
      var n := |cache| - 1;
      Fresh(Remaining(cache, removes), now) == Fresh(Remaining(cache[..n], removes), now)
        + if RT.Survives(POLICY, Stamped(cache[n]), removes, now) then [cache[n]] else []
  {
    var n := |cache| - 1;
    var rest := Remaining(cache[..n], removes);
    assert (rest + [cache[n]])[..|rest|] == rest;
    assert cache == cache[..n] + [cache[n]];
  }

  /** The cache before the oldest row is dropped. */
  function Mid(w: World, event: Event): Cache {
    var trace := TraceOf(w, event);
    if trace.prunesAt.None? then w.h.cache
    else
      var kept := Fresh(Remaining(w.h.cache, trace.removes), trace.prunesAt.value);
      if Admits(w, event) then kept + [Admitted(w, event)] else kept
  }

  lemma StepCache(w: World, event: Event)
    ensures RT.Coherent(TraceOf(w, event)) && !TraceOf(w, event).removes.Everything?
    ensures |w.h.cache| <= 2048 ==> Step(w, event).h.cache == Newest(Mid(w, event), 2048)
  {
    if Admits(w, event) {
      var entry, rest := Admitted(w, event), Without(w.h.cache, Admitted(w, event).key);
      assert (rest + [entry])[..|rest|] == rest;
    }
  }

  lemma MidRows(w: World, event: Event)
    ensures Rows(Mid(w, event)) == RT.Mid(POLICY, Rows(w.h.cache), TraceOf(w, event))
  {
    var trace := TraceOf(w, event);
    StepCache(w, event);
    if trace.prunesAt.Some? {
      FreshSurvive(w.h.cache, trace.removes, trace.prunesAt.value);
    }
  }

  /** Every run leads through its caches. */
  lemma RunLeads(worlds: seq<World>, events: seq<Event>) returns (tables: seq<seq<RT.Row<Route, Row>>>)
    requires IsRun(worlds, events)
    ensures RT.Leads(POLICY, TracesOf(worlds, events), tables)
    ensures |tables| == |worlds| && forall n :: 0 <= n < |worlds| ==> tables[n] == Rows(worlds[n].h.cache)
  {
    tables := seq(|worlds|, n requires 0 <= n < |worlds| => Rows(worlds[n].h.cache));
    var traces := TracesOf(worlds, events);
    forall n | 0 <= n < |traces| ensures RT.LeadsOn(POLICY, traces, tables, n) {
      EveryReachableFence(worlds, events, n);
      StepRows(worlds[n], events[n]);
    }
  }

  lemma StepRows(w: World, event: Event)
    requires |w.h.cache| <= 2048
    ensures RT.Coherent(TraceOf(w, event))
    ensures Rows(Step(w, event).h.cache) == RT.After(POLICY, Rows(w.h.cache), TraceOf(w, event))
  {
    StepCache(w, event);
    MidRows(w, event);
    var mid := Mid(w, event);
    if |mid| > 2048 {
      assert Rows(mid[|mid| - 2048..]) == Rows(mid)[|mid| - 2048..];
    }
  }

  // ----- lookups -----------------------------------------------------------

  lemma {:induction false} GetIsListed(cache: Cache, route: Route, cached: Cached)
    requires Distinct(cache)
    ensures Get(cache, route) == Some(cached) <==> Entry(route, cached) in cache
  {
    if cache != [] {
      var n := |cache| - 1;
      GetIsListed(cache[..n], route, cached);
      GetSome(cache[..n], route);
      KeyOfEntry(cache[..n], Entry(route, cached));
      assert cache == cache[..n] + [cache[n]];
    }
  }

  lemma {:induction false} KeyOfEntry(cache: Cache, entry: Entry<Route, Cached>)
    ensures entry in cache ==> entry.key in Keys(cache)
  {
    if cache != [] {
      KeyOfEntry(cache[..|cache| - 1], entry);
    }
  }

  lemma {:induction false} FreshShrinks(cache: Cache, now: int)
    ensures |Fresh(cache, now)| <= |cache|
  {
    if cache != [] {
      FreshShrinks(cache[..|cache| - 1], now);
    }
  }

  lemma HitIsCached(h: Hours, route: Route, now: int, row: Row)
    requires CacheInv(h)
    ensures BeginRead(h, route, now).1 == Hit(row) <==>
      && route !in h.pending
      && exists at :: Entry(route, Cached(at, row)) in h.cache && now - at <= 300_000_000
  {
    FreshShrinks(h.cache, now);
    assert Prune(h, now).cache == Fresh(h.cache, now);
    FreshGet(h.cache, now, route);
    var was := Get(h.cache, route);
    if was.Some? {
      GetIsListed(h.cache, route, was.value);
    }
    forall at | Entry(route, Cached(at, row)) in h.cache ensures was == Some(Cached(at, row)) {
      GetIsListed(h.cache, route, Cached(at, row));
    }
  }

  /** In every run a lookup answers with a row exactly when its route is not pending
      and the row is held and still fresh: admitted by a read during which no route
      changed, of a route neither changed nor read again since, at most five minutes
      after that read began whenever old rows were forgotten and now, and always among
      the newest 2048. */
  lemma LookupHitsTheHeld(worlds: seq<World>, events: seq<Event>, n: nat, route: Route, now: int, row: Row)
    requires IsRun(worlds, events) && n <= |events|
    ensures BeginRead(worlds[n].h, route, now).1 == Hit(row) <==>
      && route !in worlds[n].h.pending
      && exists k: nat :: RT.HeldAs(POLICY, TracesOf(worlds, events), k, n, route, now, row)
  {
    EveryReachableFence(worlds, events, n);
    HitIsCached(worlds[n].h, route, now, row);
    var tables := RunLeads(worlds, events);
    RT.ListedIsHeld(POLICY, TracesOf(worlds, events), tables, n, route, now, row);
    var cache := worlds[n].h.cache;
    forall at ensures Entry(route, Cached(at, row)) in cache <==> RT.Row(route, at, row) in Rows(cache) {
      RowIsEntry(cache, Entry(route, Cached(at, row)));
    }
  }

  lemma RowIsEntry(cache: Cache, entry: Entry<Route, Cached>)
    ensures entry in cache <==> Stamped(entry) in Rows(cache)
  {
    var rows := Rows(cache);
    if entry in cache {
      var i :| 0 <= i < |cache| && cache[i] == entry;
      assert rows[i] == Stamped(entry);
    }
    if Stamped(entry) in rows {
      var i :| 0 <= i < |rows| && rows[i] == Stamped(entry);
      assert cache[i] == Entry(cache[i].key, Cached(cache[i].value.at, cache[i].value.row));
      assert cache[i] == entry;
    }
  }

  /** What a read has just cached, the next lookup of its route finds. */
  lemma AdmittedIsFound(worlds: seq<World>, events: seq<Event>, n: nat, now: int)
    requires IsRun(worlds, events) && n < |events| && Admits(worlds[n], events[n])
    requires now - Admitted(worlds[n], events[n]).value.at <= 300_000_000
    ensures
      var entry := Admitted(worlds[n], events[n]);
      BeginRead(worlds[n + 1].h, entry.key, now).1 == Hit(entry.value.row)
  {
    var entry, traces := Admitted(worlds[n], events[n]), TracesOf(worlds, events);
    StepCache(worlds[n], events[n]);
    RT.NewestIsHeld(POLICY, traces, n);
    assert RT.HeldAs(POLICY, traces, n, n + 1, entry.key, now, entry.value.row);
    LookupHitsTheHeld(worlds, events, n + 1, entry.key, now, entry.value.row);
  }
}
