/** What a request for a context is answered with, in terms of what happened before:
    the context last built or handed out for its key, while nothing came between. */
module ContextReads {
  import opened Wrappers
  import opened OrderedEntries
  import opened ContextCache
  import RT = RecencyTables

  /** Contexts live ninety seconds from their last use, and there are at most eight. */
  const POLICY := RT.Policy(90_000_000, 8)

  type Trace = RT.Trace<string, Context>

  type Rows = seq<RT.Row<string, Context>>

  /** The build that returns is still the one registered for its key. */
  predicate Delivers(w: World, event: Event) {
    event.Return? && IsRunning(w, event.job) && Registered(w.t, w.jobs[event.job].key, event.job)
  }

  /** What a step does to the cache: the context it stores or hands out again, what it
      takes out, and when it forgets old ones, if it does. */
  function TraceOf(w: World, event: Event): Trace {
    match event
    case Request(key, now) =>
      var answer := Ask(w.t, key, now).1;
      if answer.Hit? then RT.Trace(Some(RT.Row(key, now, answer.context)), RT.One(key), Some(now))
      else RT.Trace(None, RT.Nothing, Some(now))
    case Return(job, content, now) =>
      if Delivers(w, event) then
        var key := w.jobs[job].key;
        RT.Trace(Some(RT.Row(key, now, Context(key, job, content))), RT.One(key), Some(now))
      else RT.Trace(None, RT.Nothing, None)
    case Raise(_, _) => RT.Trace(None, RT.Nothing, None)
    case Announce(_) => RT.Trace(None, RT.Nothing, None)
    case Wipe => RT.Trace(None, RT.Everything, Some(0))
    case Inspect(now) => RT.Trace(None, RT.Nothing, Some(now))
  }

  function TracesOf(worlds: seq<World>, events: seq<Event>): (traces: seq<Trace>)
    requires |events| < |worlds|
    ensures |traces| == |events| && forall k :: 0 <= k < |events| ==> traces[k] == TraceOf(worlds[k], events[k])
  {
    seq(|events|, k requires 0 <= k < |events| => TraceOf(worlds[k], events[k]))
  }

  function TimeOf(times: map<string, int>, key: string): int {
    if key in times then times[key] else 0
  }

  function RowOf(entry: Entry<string, Context>, times: map<string, int>): RT.Row<string, Context> {
    RT.Row(entry.key, TimeOf(times, entry.key), entry.value)
  }

  function RowsOf(cache: Contexts, times: map<string, int>): (rows: Rows)
    ensures |rows| == |cache| && forall i :: 0 <= i < |cache| ==> rows[i] == RowOf(cache[i], times)
  {
    seq(|cache|, i requires 0 <= i < |cache| => RowOf(cache[i], times))
  }

  function TableOf(t: Tables): Rows {
    RowsOf(t.cache, t.times)
  }

  // ----- trimming ----------------------------------------------------------

  lemma {:induction false} AliveShrinks(cache: Contexts, times: map<string, int>, now: int)
    ensures |Alive(cache, times, now)| <= |cache|
    ensures Keys(Alive(cache, times, now)) <= Keys(cache)
  {
    if cache != [] {
      var n := |cache| - 1;
      AliveShrinks(cache[..n], times, now);
      var front := Alive(cache[..n], times, now);
      assert (front + [cache[n]])[..|front|] == front;
    }
  }

  lemma {:induction false} KeyOf(cache: Contexts, i: nat)
    requires i < |cache|
    ensures cache[i].key in Keys(cache)
  {
    if i < |cache| - 1 {
      KeyOf(cache[..|cache| - 1], i);
    }
  }

  /** Rows depend on the times of their own keys alone. */
  lemma SameTimes(cache: Contexts, times: map<string, int>, other: map<string, int>)
    requires forall k :: k in Keys(cache) ==> TimeOf(times, k) == TimeOf(other, k)
    ensures RowsOf(cache, times) == RowsOf(cache, other)
  {
    forall i | 0 <= i < |cache| ensures RowOf(cache[i], times) == RowOf(cache[i], other) {
      KeyOf(cache, i);
    }
  }

  lemma {:induction false} AliveSurvive(cache: Contexts, times: map<string, int>, now: int)
    requires Keys(cache) <= times.Keys
    ensures RowsOf(Alive(cache, times, now), times) == RT.Surviving(POLICY, RowsOf(cache, times), RT.Nothing, now)
  {
    if cache != [] {
      var n := |cache| - 1;
      AliveSurvive(cache[..n], times, now);
      assert RowsOf(cache, times)[..n] == RowsOf(cache[..n], times);
      assert RT.Survives(POLICY, RowOf(cache[n], times), RT.Nothing, now) <==> !Expired(times, cache[n].key, now);
    }
  }

  lemma {:induction false} WithoutSurvive(cache: Contexts, times: map<string, int>, key: string, now: int)
    requires Keys(cache) <= times.Keys
    ensures RowsOf(Without(Alive(cache, times, now), key), times)
      == RT.Surviving(POLICY, RowsOf(cache, times), RT.One(key), now)
  {
    if cache != [] {
      var n := |cache| - 1;
      var front := Alive(cache[..n], times, now);
      WithoutSurvive(cache[..n], times, key, now);
      assert RowsOf(cache, times)[..n] == RowsOf(cache[..n], times);
      assert (front + [cache[n]])[..|front|] == front;
    }
  }

  lemma {:induction false} AllAlive(cache: Contexts, times: map<string, int>, now: int)
    requires forall k :: k in Keys(cache) ==> !Expired(times, k, now)
    ensures Alive(cache, times, now) == cache
  {
    if cache != [] {
      var n := |cache| - 1;
      AllAlive(cache[..n], times, now);
      assert cache == cache[..n] + [cache[n]];
    }
  }

  lemma {:induction false} AliveAreFresh(cache: Contexts, times: map<string, int>, now: int)
    ensures forall k :: k in Keys(Alive(cache, times, now)) ==> !Expired(times, k, now)
  {
    if cache != [] {
      var n := |cache| - 1;
      AliveAreFresh(cache[..n], times, now);
      var front := Alive(cache[..n], times, now);
      assert (front + [cache[n]])[..|front|] == front;
    }
  }

  lemma TrimmedTable(t: Tables, now: int)
    requires Bounded(t)
    ensures Trim(t, now).cache == Alive(t.cache, t.times, now)
    ensures TableOf(Trim(t, now)) == RT.Surviving(POLICY, TableOf(t), RT.Nothing, now)
    ensures forall k :: k in Keys(Trim(t, now).cache) ==> TimeOf(Trim(t, now).times, k) == TimeOf(t.times, k)
  {
    AliveShrinks(t.cache, t.times, now);
    AliveSurvive(t.cache, t.times, now);
    SameTimes(Trim(t, now).cache, Trim(t, now).times, t.times);
  }

  /** Trimming and then storing: what survives without its key, and the new row. */
  lemma StoredTable(t: Tables, key: string, context: Context, now: int)
    requires Bounded(t)
    ensures TableOf(Stored(Trim(t, now), key, context, now))
      == RT.Surviving(POLICY, TableOf(t), RT.One(key), now) + [RT.Row(key, now, context)]
  {
    var trimmed := Trim(t, now);
    var after := Stored(trimmed, key, context, now);
    TrimmedTable(t, now);
    WithoutSurvive(t.cache, t.times, key, now);
    var rest := Without(trimmed.cache, key);
    WithoutKeys(trimmed.cache, key);
    SameTimes(rest, after.times, t.times);
    assert after.cache == rest + [Entry(key, context)];
    assert RowsOf(after.cache, after.times) == RowsOf(rest, after.times) + [RT.Row(key, now, context)];
  }

  // ----- one step ----------------------------------------------------------

  lemma AskTable(t: Tables, key: string, now: int)
    requires Bounded(t)
    ensures
      var (after, answer) := Ask(t, key, now);
      TableOf(after) ==
        if answer.Hit? then RT.Surviving(POLICY, TableOf(t), RT.One(key), now) + [RT.Row(key, now, answer.context)]
        else RT.Surviving(POLICY, TableOf(t), RT.Nothing, now)
    ensures |TableOf(Ask(t, key, now).0)| <= 8
  {
    AskGet(t, key, now, key);
    TrimmedTable(t, now);
    if Ask(t, key, now).1.Hit? {
      StoredTable(t, key, Ask(t, key, now).1.context, now);
    }
  }

  lemma DeliveredTable(t: Tables, key: string, future: nat, context: Context, now: int)
    requires Bounded(t) && Registered(t, key, future)
    ensures
      var mid := RT.Surviving(POLICY, TableOf(t), RT.One(key), now) + [RT.Row(key, now, context)];
      TableOf(Complete(t, key, future, context, now)) == if |mid| > 8 then mid[|mid| - 8..] else mid
  {
    var released := t.(pending := t.pending - {key});
    var stored := Stored(Trim(released, now), key, context, now);
    StoredTable(released, key, context, now);
    StoredIsAlive(released, key, context, now);
    var kept := Newest(stored.cache, 8);
    NewestKeys(stored.cache, 8);
    SameTimes(kept, Restrict(stored.times, Keys(kept)), stored.times);
    NewestRows(stored.cache, stored.times, 8);
  }

  lemma StoredIsAlive(t: Tables, key: string, context: Context, now: int)
    requires Bounded(t)
    ensures
      var stored := Stored(Trim(t, now), key, context, now);
      Alive(stored.cache, stored.times, now) == stored.cache && Keys(stored.cache) <= stored.times.Keys
  {
    var trimmed := Trim(t, now);
    var stored := Stored(trimmed, key, context, now);
    TrimmedTable(t, now);
    AliveAreFresh(t.cache, t.times, now);
    AliveShrinks(t.cache, t.times, now);
    RenewedKeys(trimmed.cache, key, context);
    forall k | k in Keys(stored.cache) ensures !Expired(stored.times, k, now) && k in stored.times {
      if k != key {
        assert k in Keys(trimmed.cache) && k in t.times && !Expired(t.times, k, now);
      }
    }
    AllAlive(stored.cache, stored.times, now);
  }

  lemma {:induction false} NewestKeys(cache: Contexts, limit: nat)
    ensures Keys(Newest(cache, limit)) <= Keys(cache)
  {
    if |cache| > limit && limit > 0 {
      var n := |cache| - 1;
      NewestKeys(cache[..n], limit - 1);
      assert Newest(cache, limit)[..limit - 1] == cache[..n][|cache| - limit..];
      assert |cache[..n]| > limit - 1;
      assert Newest(cache[..n], limit - 1) == cache[..n][n - (limit - 1)..];
    }
  }

  lemma NewestRows(cache: Contexts, times: map<string, int>, limit: nat)
    ensures
      var rows := RowsOf(cache, times);
      RowsOf(Newest(cache, limit), times) == if |rows| > limit then rows[|rows| - limit..] else rows
  {
  }

  lemma StepTable(w: World, event: Event)
    requires Bounded(w.t)
    ensures RT.Coherent(TraceOf(w, event))
    ensures TableOf(Step(w, event).t) == RT.After(POLICY, TableOf(w.t), TraceOf(w, event))
  {
    match event
    case Request(key, now) => AskTable(w.t, key, now);
    case Return(job, content, now) =>
      if Delivers(w, event) {
        DeliveredTable(w.t, w.jobs[job].key, job, Context(w.jobs[job].key, job, content), now);
      }
    case Raise(_, _) =>
    case Announce(_) =>
    case Wipe => WipedTable(TableOf(w.t));
    case Inspect(now) => TrimmedTable(w.t, now);
  }

  lemma {:induction false} WipedTable(rows: Rows)
    ensures RT.Surviving(POLICY, rows, RT.Everything, 0) == []
  {
    if rows != [] {
      WipedTable(rows[..|rows| - 1]);
    }
  }

  /** Every run leads through its tables. */
  lemma RunLeads(worlds: seq<World>, events: seq<Event>) returns (tables: seq<Rows>)
    requires IsRun(worlds, events)
    ensures RT.Leads(POLICY, TracesOf(worlds, events), tables)
    ensures |tables| == |worlds| && forall n :: 0 <= n < |worlds| ==> tables[n] == TableOf(worlds[n].t)
  {
    tables := seq(|worlds|, n requires 0 <= n < |worlds| => TableOf(worlds[n].t));
    var traces := TracesOf(worlds, events);
    forall n | 0 <= n < |traces| ensures RT.LeadsOn(POLICY, traces, tables, n) {
      EveryReachableCache(worlds, events, n);
      StepTable(worlds[n], events[n]);
    }
  }

  // ----- requests ----------------------------------------------------------

  lemma {:induction false} GetIsListed(cache: Contexts, key: string, context: Context)
    requires Distinct(cache)
    ensures Get(cache, key) == Some(context) <==> Entry(key, context) in cache
  {
    if cache != [] {
      var n := |cache| - 1;
      GetIsListed(cache[..n], key, context);
      GetSome(cache[..n], key);
      if Entry(key, context) in cache[..n] {
        var i :| 0 <= i < n && cache[..n][i] == Entry(key, context);
        KeyOf(cache[..n], i);
      }
      assert cache == cache[..n] + [cache[n]];
    }
  }

  lemma HitIsCached(t: Tables, key: string, now: int, context: Context)
    requires Bounded(t)
    ensures Ask(t, key, now).1 == Hit(context) <==> Entry(key, context) in t.cache && now - TimeOf(t.times, key) <= 90_000_000
  {
    TrimmedTable(t, now);
    AliveGet(t.cache, t.times, now, key);
    GetIsListed(t.cache, key, context);
    GetSome(t.cache, key);
  }

  lemma RowIsEntry(t: Tables, key: string, at: int, context: Context)
    ensures RT.Row(key, at, context) in TableOf(t) <==> Entry(key, context) in t.cache && at == TimeOf(t.times, key)
  {
    var rows := TableOf(t);
    if Entry(key, context) in t.cache {
      var i :| 0 <= i < |t.cache| && t.cache[i] == Entry(key, context);
      assert rows[i] == RowOf(t.cache[i], t.times);
    }
    if RT.Row(key, at, context) in rows {
      var i :| 0 <= i < |rows| && rows[i] == RT.Row(key, at, context);
      assert t.cache[i] == Entry(key, context);
    }
  }

  /** In every run a request is answered from the cache exactly when a context is held
      for its key and still fresh: stored by the build registered for the key, or
      handed out again, not cleared away or rebuilt since, used at most ninety seconds
      before whenever old contexts were forgotten and now, and always among the eight
      used last. */
  lemma RequestHitsTheHeld(worlds: seq<World>, events: seq<Event>, n: nat, key: string, now: int, context: Context)
    requires IsRun(worlds, events) && n <= |events|
    ensures Ask(worlds[n].t, key, now).1 == Hit(context) <==>
      exists k: nat :: RT.HeldAs(POLICY, TracesOf(worlds, events), k, n, key, now, context)
  {
    EveryReachableCache(worlds, events, n);
    var t := worlds[n].t;
    HitIsCached(t, key, now, context);
    var tables := RunLeads(worlds, events);
    RT.ListedIsHeld(POLICY, TracesOf(worlds, events), tables, n, key, now, context);
    forall at ensures RT.Row(key, at, context) in TableOf(t) <==> Entry(key, context) in t.cache && at == TimeOf(t.times, key) {
      RowIsEntry(t, key, at, context);
    }
    assert Entry(key, context) in t.cache ==> RT.Row(key, TimeOf(t.times, key), context) in TableOf(t);
  }

  /** What a registered build has just stored, the next request for its key is given. */
  lemma StoredIsFound(worlds: seq<World>, events: seq<Event>, n: nat, now: int)
    requires IsRun(worlds, events) && n < |events| && Delivers(worlds[n], events[n]) && now - events[n].now <= 90_000_000
    ensures
      var key := worlds[n].jobs[events[n].job].key;
      Ask(worlds[n + 1].t, key, now).1 == Hit(Context(key, events[n].job, events[n].content))
  {
    var key := worlds[n].jobs[events[n].job].key;
    var context, traces := Context(key, events[n].job, events[n].content), TracesOf(worlds, events);
    EveryReachableCache(worlds, events, n);
    StepTable(worlds[n], events[n]);
    RT.NewestIsHeld(POLICY, traces, n);
    assert RT.HeldAs(POLICY, traces, n, n + 1, key, now, context);
    RequestHitsTheHeld(worlds, events, n + 1, key, now, context);
  }

  /** A build that returns is stored exactly when nothing was cleared since it began. */
  lemma DeliversIff(worlds: seq<World>, events: seq<Event>, n: nat)
    requires IsRun(worlds, events) && n < |events| && events[n].Return? && IsRunning(worlds[n], events[n].job)
    ensures Delivers(worlds[n], events[n]) <==> worlds[n].jobs[events[n].job].began >= worlds[n].cleared
  {
    EveryReachableCache(worlds, events, n);
    var w, job := worlds[n], events[n].job;
    assert JobOk(w, job) && PendingOk(w, w.jobs[job].key);
  }
}
