/** The trading-hours fence and its refresh generations. */
module TradingHours {
  import opened Wrappers
  import opened OrderedEntries

  const TTL := 300_000_000   // microseconds
  const MAX_ROUTES := 2048

  datatype Route = Route(provider: string, instrumentId: string, fingerprint: string)

  /** A stored row. `readAt` says when storage was read; no code looks at it. */
  datatype Row = Row(readAt: nat, content: Option<nat>)

  datatype Cached = Cached(at: int, row: Row)

  type Cache = seq<Entry<Route, Cached>>
  type Generations = seq<Entry<Route, nat>>

  /** A row read from storage outside the lock is cached only if nothing was
      invalidated meanwhile, and a route marked stale stays pending until its own
      generation is acknowledged. A route's instrument identity is
      provider-qualified, so the per-provider tables are kept as one table here. */
  datatype Hours = Hours(
    cache: Cache,
    epochs: map<Route, nat>,
    sequence: nat,
    pending: map<Route, nat>,
    generations: Generations,
    refreshSequence: nat
  )

  const EMPTY := Hours([], map[], 0, map[], [], 0)

  /** What a reader remembers across its unlocked storage read. */
  datatype Token = Token(route: Route, epoch: nat, sequence: nat, now: int)

  datatype Lookup = Refreshing | Hit(row: Row) | Miss(token: Token)

  // ----- pruning -----------------------------------------------------------

  function Fresh(cache: Cache, now: int): Cache {
    if cache == [] then []
    else
      var front, last := Fresh(cache[..|cache| - 1], now), cache[|cache| - 1];
      if now - last.value.at > TTL then front else front + [last]
  }

  /** How many generations belong to routes that are not pending. */
  function Completed(generations: Generations, pending: set<Route>): nat {
    if generations == [] then 0
    else Completed(generations[1..], pending) + (if generations[0].key in pending then 0 else 1)
  }

  /** Drops the `n` oldest generations of routes that are not pending. */
  function DropCompleted(generations: Generations, pending: set<Route>, n: nat): Generations {
    if generations == [] || n == 0 then generations
    else if generations[0].key in pending then [generations[0]] + DropCompleted(generations[1..], pending, n)
    else DropCompleted(generations[1..], pending, n - 1)
  }

  function Excess(generations: Generations, pending: set<Route>): nat {
    var completed := Completed(generations, pending);
    if completed > MAX_ROUTES then completed - MAX_ROUTES else 0
  }

  function Restrict(epochs: map<Route, nat>, kept: set<Route>): map<Route, nat> {
    map r | r in epochs && r in kept :: epochs[r]
  }

  function Prune(h: Hours, now: int): Hours {
    var cache := Newest(Fresh(h.cache, now), MAX_ROUTES);
    h.(cache := cache,
       epochs := Restrict(h.epochs, Keys(cache) + h.pending.Keys),
       generations := DropCompleted(h.generations, h.pending.Keys, Excess(h.generations, h.pending.Keys)))
  }

  // ----- the locked regions ------------------------------------------------

  function Epoch(h: Hours, route: Route): nat {
    if route in h.epochs then h.epochs[route] else 0
  }

  /** Forgets the cached row and moves both fences. */
  function Fenced(h: Hours, route: Route): Hours {
    h.(cache := Without(h.cache, route), sequence := h.sequence + 1, epochs := h.epochs[route := Epoch(h, route) + 1])
  }

  function Invalidate(h: Hours, route: Route, now: int): Hours {
    Prune(Fenced(h, route), now)
  }

  function Latest(generations: Generations): nat {
    if generations == [] then 0
    else
      var front, last := Latest(generations[..|generations| - 1]), generations[|generations| - 1].value;
      if last > front then last else front
  }

  function NextGeneration(h: Hours): nat {
    (if Latest(h.generations) > h.refreshSequence then Latest(h.generations) else h.refreshSequence) + 1
  }

  function MarkStale(h: Hours, route: Route, now: int): Hours {
    var g := NextGeneration(h);
    var marked := h.(refreshSequence := g, generations := Renewed(h.generations, route, g), pending := h.pending[route := g]);
    Prune(Fenced(marked, route), now)
  }

  /** The generation a refresher must present; zero when none is on record. */
  function Generation(h: Hours, route: Route): nat {
    var g := Get(h.generations, route);
    if g.Some? then g.value else 0
  }

  function Acknowledge(h: Hours, route: Route, expected: nat, now: int): (Hours, bool) {
    if route in h.pending && h.pending[route] == expected then (Prune(h.(pending := h.pending - {route}), now), true)
    else (h, false)
  }

  function BeginRead(h: Hours, route: Route, now: int): (Hours, Lookup) {
    var p := Prune(h, now);
    var cached := Get(p.cache, route);
    if route in p.pending then (p, Refreshing)
    else if cached.Some? && now - cached.value.at <= TTL then (p, Hit(cached.value.row))
    else (p, Miss(Token(route, Epoch(p, route), p.sequence, now)))
  }

  function FinishRead(h: Hours, token: Token, row: Row): (Hours, bool) {
    if token.route in h.pending || h.sequence != token.sequence || Epoch(h, token.route) != token.epoch then (h, false)
    else (Prune(h.(cache := Renewed(h.cache, token.route, Cached(token.now, row))), token.now), true)
  }

  // ----- what pruning keeps ------------------------------------------------

  lemma {:induction false} FreshGet(cache: Cache, now: int, route: Route)
    requires Distinct(cache)
    ensures Distinct(Fresh(cache, now)) && Keys(Fresh(cache, now)) <= Keys(cache)
    ensures
      var was := Get(cache, route);
      Get(Fresh(cache, now), route) == if was.Some? && now - was.value.at <= TTL then was else None
  {
    if cache != [] {
      var n := |cache| - 1;
      FreshGet(cache[..n], now, route);
      var front := Fresh(cache[..n], now);
      assert (front + [cache[n]])[..|front|] == front;
      GetSome(cache[..n], route);
    }
  }

  lemma PrunedCache(h: Hours, now: int, route: Route)
    requires Distinct(h.cache)
    ensures
      var cache := Prune(h, now).cache;
      && Distinct(cache) && |cache| <= MAX_ROUTES && Keys(cache) <= Keys(h.cache)
      && (Get(cache, route).Some? ==> Get(cache, route) == Get(h.cache, route) && now - Get(cache, route).value.at <= TTL)
  {
    FreshGet(h.cache, now, route);
    NewestGet(Fresh(h.cache, now), MAX_ROUTES, route);
  }

  /** Only completed routes lose their generation, and no more than asked. */
  lemma {:induction false} DropCompletedGet(generations: Generations, pending: set<Route>, n: nat, route: Route)
    requires Distinct(generations)
    ensures
      var kept := DropCompleted(generations, pending, n);
      && Distinct(kept) && Keys(kept) <= Keys(generations)
      && (route in pending || Get(kept, route).Some? ==> Get(kept, route) == Get(generations, route))
  {
    if generations != [] && n > 0 {
      var first, rest := generations[0], generations[1..];
      TailGet(generations, route);
      if first.key in pending {
        DropCompletedGet(rest, pending, n, route);
        var kept := DropCompleted(rest, pending, n);
        ConsDistinct(first, kept);
        TailGet([first] + kept, route);
        assert ([first] + kept)[1..] == kept;
      } else {
        DropCompletedGet(rest, pending, n - 1, route);
        GetSome(DropCompleted(rest, pending, n - 1), route);
      }
    }
  }

  lemma {:induction false} DropCompletedCount(generations: Generations, pending: set<Route>, n: nat)
    requires n <= Completed(generations, pending)
    ensures Completed(DropCompleted(generations, pending, n), pending) == Completed(generations, pending) - n
  {
    if generations != [] && n > 0 {
      var first, rest := generations[0], generations[1..];
      if first.key in pending {
        DropCompletedCount(rest, pending, n);
        assert ([first] + DropCompleted(rest, pending, n))[1..] == DropCompleted(rest, pending, n);
      } else {
        DropCompletedCount(rest, pending, n - 1);
      }
    }
  }

  lemma PrunedGenerations(h: Hours, now: int, route: Route)
    requires Distinct(h.generations)
    ensures
      var p := Prune(h, now);
      && p.pending == h.pending && p.refreshSequence == h.refreshSequence
      && Distinct(p.generations) && Completed(p.generations, p.pending.Keys) <= MAX_ROUTES
      && (route in p.pending || Get(p.generations, route).Some? ==> Get(p.generations, route) == Get(h.generations, route))
      && (Completed(h.generations, h.pending.Keys) <= 2048 ==> p.generations == h.generations)
      && (Completed(h.generations, h.pending.Keys) > 2048 ==> Completed(p.generations, p.pending.Keys) == 2048)
  {
    DropCompletedGet(h.generations, h.pending.Keys, Excess(h.generations, h.pending.Keys), route);
    DropCompletedCount(h.generations, h.pending.Keys, Excess(h.generations, h.pending.Keys));
  }

  // ----- the cache side of the invariant -----------------------------------

  /** Bounded cache, never a pending route in it, and epochs only where needed. */
  ghost predicate CacheInv(h: Hours) {
    && Distinct(h.cache) && |h.cache| <= MAX_ROUTES
    && Keys(h.cache) !! h.pending.Keys
    && h.epochs.Keys <= Keys(h.cache) + h.pending.Keys
  }

  /** Before pruning, one epoch may be in excess and the cache one too long. */
  lemma PruneKeepsCache(h: Hours, now: int, route: Route)
    requires Distinct(h.cache) && Keys(h.cache) !! h.pending.Keys
    ensures CacheInv(Prune(h, now))
  {
    PrunedCache(h, now, route);
  }

  lemma FencedCache(h: Hours, route: Route)
    requires CacheInv(h)
    ensures Distinct(Fenced(h, route).cache) && Keys(Fenced(h, route).cache) == Keys(h.cache) - {route}
  {
    WithoutKeys(h.cache, route);
  }

  // ----- the generation side of the invariant ------------------------------

  /** A pending route's generation is on record, and none is ahead of the counter. */
  ghost predicate MarkInv(h: Hours) {
    && Distinct(h.generations)
    && Completed(h.generations, h.pending.Keys) <= MAX_ROUTES
    && (forall r :: r in h.pending ==> Get(h.generations, r) == Some(h.pending[r]))
    && (forall r :: r in Keys(h.generations) ==> 1 <= Generation(h, r) <= h.refreshSequence)
  }

  lemma PruneKeepsMarks(h: Hours, now: int)
    requires Distinct(h.generations)
    requires forall r :: r in h.pending ==> Get(h.generations, r) == Some(h.pending[r])
    requires forall r :: r in Keys(h.generations) ==> 1 <= Generation(h, r) <= h.refreshSequence
    ensures MarkInv(Prune(h, now))
  {
    var p := Prune(h, now);
    forall r | r in p.pending ensures Get(p.generations, r) == Some(p.pending[r]) {
      PrunedGenerations(h, now, r);
    }
    forall r | r in Keys(p.generations) ensures 1 <= Generation(p, r) <= p.refreshSequence {
      PrunedGenerations(h, now, r);
      GetSome(p.generations, r);
      GetSome(h.generations, r);
    }
    PrunedGenerations(h, now, Route("", "", ""));
  }

  lemma {:induction false} LatestBounded(generations: Generations, bound: nat)
    requires forall e :: e in generations ==> e.value <= bound
    ensures Latest(generations) <= bound
  {
    if generations != [] {
      LatestBounded(generations[..|generations| - 1], bound);
    }
  }

  lemma {:induction false} EntryGet(generations: Generations, e: Entry<Route, nat>)
    requires Distinct(generations) && e in generations
    ensures e.key in Keys(generations) && Get(generations, e.key) == Some(e.value)
  {
    var n := |generations| - 1;
    if generations[n] != e {
      EntryGet(generations[..n], e);
    }
  }

  /** Generations strictly increase. */
  lemma NextIsOneMore(h: Hours)
    requires MarkInv(h)
    ensures NextGeneration(h) == h.refreshSequence + 1
  {
    forall e | e in h.generations ensures e.value <= h.refreshSequence {
      EntryGet(h.generations, e);
      assert Generation(h, e.key) == e.value;
    }
    LatestBounded(h.generations, h.refreshSequence);
  }

  lemma MarkKeepsMarks(h: Hours, route: Route, now: int)
    requires MarkInv(h)
    ensures MarkInv(MarkStale(h, route, now))
  {
    NextIsOneMore(h);
    var g := NextGeneration(h);
    var marked := h.(refreshSequence := g, generations := Renewed(h.generations, route, g), pending := h.pending[route := g]);
    RenewedKeys(h.generations, route, g);
    forall r ensures Get(marked.generations, r) == if r == route then Some(g) else Get(h.generations, r) {
      RenewedGet(h.generations, route, g, r);
    }
    assert forall r :: r in Keys(h.generations) ==> Generation(h, r) <= h.refreshSequence;
    forall r | r in Keys(marked.generations) ensures 1 <= Generation(marked, r) <= g {
      if r != route {
        assert Generation(marked, r) == Generation(h, r);
      }
    }
    PruneKeepsMarks(Fenced(marked, route), now);
  }

  ghost predicate Inv(h: Hours) {
    CacheInv(h) && MarkInv(h)
  }

  lemma {:induction false} AcknowledgedCount(generations: Generations, pending: set<Route>, route: Route)
    requires Distinct(generations)
    ensures Completed(generations, pending - {route}) <= Completed(generations, pending) + 1
    ensures route !in Keys(generations) ==> Completed(generations, pending - {route}) == Completed(generations, pending)
  {
    if generations != [] {
      TailGet(generations, route);
      AcknowledgedCount(generations[1..], pending, route);
    }
  }

  lemma PruneKeeps(h: Hours, now: int)
    requires Inv(h)
    ensures Inv(Prune(h, now))
  {
    PruneKeepsCache(h, now, Route("", "", ""));
    PruneKeepsMarks(h, now);
  }

  lemma InvalidateKeeps(h: Hours, route: Route, now: int)
    requires Inv(h)
    ensures Inv(Invalidate(h, route, now))
  {
    FencedCache(h, route);
    PruneKeepsCache(Fenced(h, route), now, route);
    assert forall r :: Generation(Fenced(h, route), r) == Generation(h, r);
    PruneKeepsMarks(Fenced(h, route), now);
  }

  lemma MarkKeeps(h: Hours, route: Route, now: int)
    requires Inv(h)
    ensures Inv(MarkStale(h, route, now))
  {
    FencedCache(h, route);
    var g := NextGeneration(h);
    var marked := h.(refreshSequence := g, generations := Renewed(h.generations, route, g), pending := h.pending[route := g]);
    PruneKeepsCache(Fenced(marked, route), now, route);
    MarkKeepsMarks(h, route, now);
  }

  lemma AcknowledgeKeeps(h: Hours, route: Route, expected: nat, now: int)
    requires Inv(h)
    ensures Inv(Acknowledge(h, route, expected, now).0)
  {
    if route in h.pending && h.pending[route] == expected {
      var settled := h.(pending := h.pending - {route});
      PruneKeepsCache(settled, now, route);
      assert forall r :: Generation(settled, r) == Generation(h, r);
      PruneKeepsMarks(settled, now);
    }
  }

  lemma FinishKeeps(h: Hours, token: Token, row: Row)
    requires Inv(h)
    ensures Inv(FinishRead(h, token, row).0)
  {
    if FinishRead(h, token, row).1 {
      var filled := h.(cache := Renewed(h.cache, token.route, Cached(token.now, row)));
      RenewedKeys(h.cache, token.route, Cached(token.now, row));
      PruneKeepsCache(filled, token.now, token.route);
      assert forall r :: Generation(filled, r) == Generation(h, r);
      PruneKeepsMarks(filled, token.now);
    }
  }

  // ----- runs of concurrent readers, invalidations and refreshes -----------

  datatype Event =
    | Drop(route: Route, now: int)
    | Mark(route: Route, now: int)
    | Confirm(route: Route, expected: nat, now: int)
    | Look(now: int)
    | StartRead(route: Route, now: int)
    | EndRead(reader: nat, row: Row)

  /** A reader in flight and the instant it left the first locked region. */
  datatype Reader = Reader(token: Token, began: nat)

  /** The fence with what an observer of the run knows: an instant per step, when
      each route last changed, and every reader that ever started. */
  datatype World = World(h: Hours, clock: nat, changed: map<Route, nat>, readers: seq<Reader>)

  const START := World(EMPTY, 0, map[], [])

  function Tick(w: World, h: Hours): World {
    w.(h := h, clock := w.clock + 1)
  }

  function Changing(w: World, h: Hours, route: Route): World {
    World(h, w.clock + 1, w.changed[route := w.clock], w.readers)
  }

  function Started(w: World, route: Route, now: int): World {
    var (h, found) := BeginRead(w.h, route, now);
    var next := Tick(w, h);
    if found.Miss? then next.(readers := w.readers + [Reader(found.token, next.clock)]) else next
  }

  /** Any reader may come back, once or more, with a row read since it began. */
  predicate MayEnd(w: World, reader: nat, row: Row) {
    reader < |w.readers| && w.readers[reader].began <= row.readAt <= w.clock
  }

  function Step(w: World, event: Event): World {
    match event
    case Drop(route, now) => Changing(w, Invalidate(w.h, route, now), route)
    case Mark(route, now) => Changing(w, MarkStale(w.h, route, now), route)
    case Confirm(route, expected, now) => Tick(w, Acknowledge(w.h, route, expected, now).0)
    case Look(now) => Tick(w, Prune(w.h, now))
    case StartRead(route, now) => Started(w, route, now)
    case EndRead(reader, row) =>
      if MayEnd(w, reader, row) then Tick(w, FinishRead(w.h, w.readers[reader].token, row).0) else Tick(w, w.h)
  }

  lemma {:induction false} StepKeepsInv(w: World, event: Event)
    requires Inv(w.h)
    ensures Inv(Step(w, event).h)
  {
    match event {
      case Drop(route, now) => InvalidateKeeps(w.h, route, now);
      case Mark(route, now) => MarkKeeps(w.h, route, now);
      case Confirm(route, expected, now) => AcknowledgeKeeps(w.h, route, expected, now);
      case Look(now) => PruneKeeps(w.h, now);
      case StartRead(route, now) => PruneKeeps(w.h, now);
      case EndRead(reader, row) =>
        if MayEnd(w, reader, row) {
          FinishKeeps(w.h, w.readers[reader].token, row);
        }
    }
  }

  /** When the route last changed is over, and before the instant. */
  predicate ChangedBefore(w: World, route: Route, at: nat) {
    route in w.changed ==> w.changed[route] < at
  }

  predicate RowIsCurrent(w: World, cache: Cache, route: Route) {
    var cached := Get(cache, route);
    cached.Some? ==> ChangedBefore(w, route, cached.value.row.readAt)
  }

  /** No cached row was read from storage before its route's latest change. */
  ghost predicate RowsAreCurrent(w: World) {
    forall r :: RowIsCurrent(w, w.h.cache, r)
  }

  /** While the sequence stands still, the reader's route is neither pending nor
      changed, and its epoch still reads zero. */
  ghost predicate ReaderOk(w: World, reader: Reader) {
    var t := reader.token;
    && t.sequence <= w.h.sequence && reader.began <= w.clock && t.epoch == 0
    && (t.sequence == w.h.sequence ==>
      ChangedBefore(w, t.route, reader.began) && t.route !in w.h.pending && t.route !in w.h.epochs)
  }

  ghost predicate Current(w: World) {
    && (forall r :: r in w.changed ==> w.changed[r] < w.clock)
    && (forall i :: 0 <= i < |w.readers| ==> ReaderOk(w, w.readers[i]))
  }

  lemma ReaderStays(w: World, event: Event, reader: Reader)
    requires ReaderOk(w, reader) && reader.began <= w.clock
    ensures ReaderOk(Step(w, event), reader)
  {
  }

  lemma NewReaderOk(w: World, route: Route, now: int)
    requires CacheInv(w.h) && BeginRead(w.h, route, now).1.Miss?
    requires forall r :: r in w.changed ==> w.changed[r] < w.clock
    ensures ReaderOk(Started(w, route, now), Reader(BeginRead(w.h, route, now).1.token, w.clock + 1))
  {
    PrunedCache(w.h, now, route);
    GetSome(Prune(w.h, now).cache, route);
  }

  lemma StepKeepsReaders(w: World, event: Event)
    requires CacheInv(w.h) && Current(w)
    ensures Current(Step(w, event))
  {
    var after := Step(w, event);
    forall i | 0 <= i < |w.readers| ensures ReaderOk(after, w.readers[i]) {
      ReaderStays(w, event, w.readers[i]);
    }
    if event.StartRead? && BeginRead(w.h, event.route, event.now).1.Miss? {
      NewReaderOk(w, event.route, event.now);
    }
  }

  /** Pruning only forgets. */
  lemma PruneKeepsRows(h: Hours, now: int, r: Route)
    requires Distinct(h.cache)
    ensures Get(Prune(h, now).cache, r).Some? ==> Get(Prune(h, now).cache, r) == Get(h.cache, r)
  {
    PrunedCache(h, now, r);
  }

  lemma RowOfChange(w: World, route: Route, h: Hours, now: int, r: Route)
    requires CacheInv(w.h) && RowsAreCurrent(w)
    requires h.cache == Without(w.h.cache, route)
    ensures
      var kept := Get(Prune(h, now).cache, r);
      kept.Some? ==> r != route && kept == Get(w.h.cache, r)
  {
    WithoutKeys(w.h.cache, route);
    PruneKeepsRows(h, now, r);
    WithoutGet(w.h.cache, route, r);
  }

  lemma RowOfFill(w: World, reader: Reader, row: Row, r: Route)
    requires CacheInv(w.h) && RowsAreCurrent(w) && ReaderOk(w, reader) && reader.began <= row.readAt
    ensures RowIsCurrent(w, FinishRead(w.h, reader.token, row).0.cache, r)
  {
    var t := reader.token;
    if FinishRead(w.h, t, row).1 {
      var filled := w.h.(cache := Renewed(w.h.cache, t.route, Cached(t.now, row)));
      RenewedKeys(w.h.cache, t.route, Cached(t.now, row));
      assert RowIsCurrent(w, w.h.cache, r);
      PruneKeepsRows(filled, t.now, r);
      RenewedGet(w.h.cache, t.route, Cached(t.now, row), r);
    }
  }

  lemma StepKeepsRows(w: World, event: Event)
    requires CacheInv(w.h) && Current(w) && RowsAreCurrent(w)
    ensures RowsAreCurrent(Step(w, event))
  {
    var after := Step(w, event);
    forall r ensures RowIsCurrent(after, after.h.cache, r) {
      assert RowIsCurrent(w, w.h.cache, r);
      match event {
        case Drop(route, now) => RowOfChange(w, route, Fenced(w.h, route), now, r);
        case Mark(route, now) =>
          var g := NextGeneration(w.h);
          var marked := w.h.(refreshSequence := g, generations := Renewed(w.h.generations, route, g), pending := w.h.pending[route := g]);
          RowOfChange(w, route, Fenced(marked, route), now, r);
        case Confirm(route, expected, now) =>
          if Acknowledge(w.h, route, expected, now).1 {
            PruneKeepsRows(w.h.(pending := w.h.pending - {route}), now, r);
          }
        case Look(now) => PruneKeepsRows(w.h, now, r);
        case StartRead(route, now) => PruneKeepsRows(w.h, now, r);
        case EndRead(reader, row) =>
          if MayEnd(w, reader, row) {
            RowOfFill(w, w.readers[reader], row, r);
          }
      }
    }
  }

  ghost predicate IsRun(worlds: seq<World>, events: seq<Event>) {
    && |worlds| == |events| + 1
    && worlds[0] == START
    && forall i :: 0 <= i < |events| ==> worlds[i + 1] == Step(worlds[i], events[i])
  }

  /** Every reachable state: bounded tables, no route both pending and cached, and,
      whatever epochs were pruned, no cached row older than its route's last change. */
  lemma {:induction false} EveryReachableFence(worlds: seq<World>, events: seq<Event>, i: nat)
    requires IsRun(worlds, events) && i < |worlds|
    ensures Inv(worlds[i].h) && Current(worlds[i]) && RowsAreCurrent(worlds[i])
  {
    if i > 0 {
      EveryReachableFence(worlds, events, i - 1);
      var w, event := worlds[i - 1], events[i - 1];
      StepKeepsInv(w, event);
      StepKeepsReaders(w, event);
      StepKeepsRows(w, event);
    }
  }

  /** What a caller is given from the cache is current, within its lifetime, and
      never of a route awaiting a refresh. */
  lemma LookupIsCurrent(worlds: seq<World>, events: seq<Event>, i: nat, route: Route, now: int)
    requires IsRun(worlds, events) && i < |worlds|
    ensures
      var found := BeginRead(worlds[i].h, route, now).1;
      && (found.Refreshing? <==> route in worlds[i].h.pending)
      && (found.Hit? ==> ChangedBefore(worlds[i], route, found.row.readAt))
  {
    var w := worlds[i];
    EveryReachableFence(worlds, events, i);
    if BeginRead(w.h, route, now).1.Hit? {
      assert RowIsCurrent(w, w.h.cache, route);
      PruneKeepsRows(w.h, now, route);
    }
  }

  /** A reader's row is admitted exactly when nothing at all changed since it
      began: the pending and epoch checks never decide. */
  lemma AdmittedIffNothingChanged(worlds: seq<World>, events: seq<Event>, i: nat, reader: nat, row: Row)
    requires IsRun(worlds, events) && i < |worlds| && reader < |worlds[i].readers|
    ensures
      var token := worlds[i].readers[reader].token;
      FinishRead(worlds[i].h, token, row).1 <==> token.sequence == worlds[i].h.sequence
  {
    EveryReachableFence(worlds, events, i);
    assert ReaderOk(worlds[i], worlds[i].readers[reader]);
  }

  // ----- refresh generations -----------------------------------------------

  /** The route is not pending under generation `g` or an older one. */
  predicate PendingAbove(h: Hours, route: Route, g: nat) {
    route in h.pending ==> h.pending[route] > g
  }

  lemma StepRaises(w: World, event: Event, route: Route, g: nat)
    requires Inv(w.h) && g <= w.h.refreshSequence
    ensures Step(w, event).h.refreshSequence >= w.h.refreshSequence
    ensures PendingAbove(w.h, route, g) ==> PendingAbove(Step(w, event).h, route, g)
    ensures event.Mark? && event.route == route ==>
      route in Step(w, event).h.pending && Step(w, event).h.pending[route] > g
    ensures event.Mark? ==> Step(w, event).h.refreshSequence == w.h.refreshSequence + 1
  {
    NextIsOneMore(w.h);
  }

  lemma {:induction false} StaysAbove(worlds: seq<World>, events: seq<Event>, i: nat, n: nat, route: Route, g: nat)
    requires IsRun(worlds, events) && i <= n < |worlds|
    requires g <= worlds[i].h.refreshSequence && PendingAbove(worlds[i].h, route, g)
    ensures g <= worlds[n].h.refreshSequence && PendingAbove(worlds[n].h, route, g)
    decreases n - i
  {
    if i < n {
      StaysAbove(worlds, events, i, n - 1, route, g);
      EveryReachableFence(worlds, events, n - 1);
      StepRaises(worlds[n - 1], events[n - 1], route, g);
    }
  }

  /** Every generation a caller can have read is at most the counter. */
  lemma GenerationIsOld(h: Hours, route: Route)
    requires Inv(h)
    ensures Generation(h, route) <= h.refreshSequence
    ensures route in h.pending ==> Generation(h, route) == h.pending[route]
  {
    GetSome(h.generations, route);
  }

  /** A generation read before a mark never acknowledges that mark, at any later time. */
  lemma StaleAcknowledgementIsRefused(worlds: seq<World>, events: seq<Event>, i: nat, j: nat, n: nat, route: Route, now: int)
    requires IsRun(worlds, events) && i <= j < n < |worlds|
    requires events[j].Mark? && events[j].route == route
    ensures
      var read := Generation(worlds[i].h, route);
      Acknowledge(worlds[n].h, route, read, now) == (worlds[n].h, false)
  {
    EveryReachableFence(worlds, events, i);
    EveryReachableFence(worlds, events, j);
    GenerationIsOld(worlds[i].h, route);
    var read := Generation(worlds[i].h, route);
    CounterGrows(worlds, events, i, j);
    StepRaises(worlds[j], events[j], route, read);
    StaysAbove(worlds, events, j + 1, n, route, read);
  }

  lemma {:induction false} CounterGrows(worlds: seq<World>, events: seq<Event>, i: nat, n: nat)
    requires IsRun(worlds, events) && i <= n < |worlds|
    ensures worlds[i].h.refreshSequence <= worlds[n].h.refreshSequence
    decreases n - i
  {
    if i < n {
      CounterGrows(worlds, events, i, n - 1);
      EveryReachableFence(worlds, events, n - 1);
      StepRaises(worlds[n - 1], events[n - 1], Route("", "", ""), 0);
    }
  }

  /** A pending route leaves only by an acknowledgement of its very generation. */
  lemma PendingLeavesOnlyAcknowledged(w: World, event: Event, route: Route)
    requires route in w.h.pending
    ensures route !in Step(w, event).h.pending
      <==> event.Confirm? && event.route == route && event.expected == w.h.pending[route]
  {
  }

  /** A stale mark stays until a generation issued at or after it is acknowledged. */
  lemma {:induction false} MarkSurvives(worlds: seq<World>, events: seq<Event>, j: nat, n: nat, route: Route)
    requires IsRun(worlds, events) && j < n < |worlds|
    requires events[j].Mark? && events[j].route == route
    requires forall k :: j < k < n ==>
      !(events[k].Confirm? && events[k].route == route && events[k].expected > worlds[j].h.refreshSequence)
    ensures route in worlds[n].h.pending && worlds[n].h.pending[route] > worlds[j].h.refreshSequence
  {
    if n == j + 1 {
      EveryReachableFence(worlds, events, j);
      StepRaises(worlds[j], events[j], route, worlds[j].h.refreshSequence);
    } else {
      MarkSurvives(worlds, events, j, n - 1, route);
      PendingLeavesOnlyAcknowledged(worlds[n - 1], events[n - 1], route);
      EveryReachableFence(worlds, events, n - 1);
      CounterGrows(worlds, events, j, n - 1);
      StepRaises(worlds[n - 1], events[n - 1], route, worlds[j].h.refreshSequence);
    }
  }

  /** The generation on record always acknowledges a pending route, and touches no
      other route. */
  lemma CurrentGenerationAcknowledges(h: Hours, route: Route, now: int)
    requires Inv(h) && route in h.pending
    ensures
      var (after, ok) := Acknowledge(h, route, Generation(h, route), now);
      ok && after.pending == h.pending - {route}
  {
    GenerationIsOld(h, route);
  }

  // ----- the module's tables -----------------------------------------------

  lemma DropCompletedPrefix(done: Generations, entry: Entry<Route, nat>, todo: Generations, pending: set<Route>, n: nat)
    ensures
      var rest := [entry] + todo;
      if n > 0 && entry.key !in pending then DropCompleted(rest, pending, n) == DropCompleted(todo, pending, n - 1)
      else n > 0 ==> done + DropCompleted(rest, pending, n) == (done + [entry]) + DropCompleted(todo, pending, n)
  {
    assert ([entry] + todo)[1..] == todo;
  }

  class TradingHoursState {
    var cache: Cache
    var cacheEpoch: map<Route, nat>
    var cacheSequence: nat
    var pendingRefresh: map<Route, nat>
    var refreshEpoch: Generations
    var refreshSequence: nat

    function State(): Hours
      reads this
    {
      Hours(cache, cacheEpoch, cacheSequence, pendingRefresh, refreshEpoch, refreshSequence)
    }

    constructor ()
      ensures State() == EMPTY
    {
      cache, cacheEpoch, cacheSequence := [], map[], 0;
      pendingRefresh, refreshEpoch, refreshSequence := map[], [], 0;
    }

    method PruneCacheLocked(now: int)
      modifies this`cache
      ensures cache == Newest(Fresh(old(cache), now), MAX_ROUTES)
    {
      var kept: Cache := [];
      for i := 0 to |cache|
        invariant kept == Fresh(cache[..i], now)
      {
        assert cache[..i + 1][..i] == cache[..i];
        if now - cache[i].value.at <= TTL {
          kept := kept + [cache[i]];
        }
      }
      assert cache[..|cache|] == cache;
      ghost var alive := kept;
      while |kept| > MAX_ROUTES
        invariant |kept| <= |alive| && kept == alive[|alive| - |kept|..]
        invariant |alive| > MAX_ROUTES ==> |kept| >= MAX_ROUTES
        invariant |alive| <= MAX_ROUTES ==> kept == alive
      {
        kept := kept[1..];
      }
      cache := kept;
    }

    method PruneGenerationsLocked()
      modifies this`refreshEpoch
      ensures refreshEpoch ==
        DropCompleted(old(refreshEpoch), pendingRefresh.Keys, Excess(old(refreshEpoch), pendingRefresh.Keys))
    {
      var excess := Excess(refreshEpoch, pendingRefresh.Keys);
      var kept: Generations := [];
      var i, left := 0, excess;
      while i < |refreshEpoch| && left > 0
        invariant i <= |refreshEpoch| && refreshEpoch == old(refreshEpoch)
        invariant kept + DropCompleted(refreshEpoch[i..], pendingRefresh.Keys, left)
          == DropCompleted(refreshEpoch, pendingRefresh.Keys, excess)
      {
        assert refreshEpoch[i..] == [refreshEpoch[i]] + refreshEpoch[i + 1..];
        DropCompletedPrefix(kept, refreshEpoch[i], refreshEpoch[i + 1..], pendingRefresh.Keys, left);
        if refreshEpoch[i].key in pendingRefresh {
          kept := kept + [refreshEpoch[i]];
        } else {
          left := left - 1;
        }
        i := i + 1;
      }
      assert DropCompleted(refreshEpoch[i..], pendingRefresh.Keys, left) == refreshEpoch[i..];
      refreshEpoch := kept + refreshEpoch[i..];
    }

    method PruneLocked(now: int)
      modifies this`cache, this`cacheEpoch, this`refreshEpoch
      ensures State() == Prune(old(State()), now)
    {
      PruneCacheLocked(now);
      cacheEpoch := Restrict(cacheEpoch, Keys(cache) + pendingRefresh.Keys);
      PruneGenerationsLocked();
    }

    method InvalidateCache(route: Route, now: int)
      modifies this
      ensures State() == Invalidate(old(State()), route, now)
    {
      cache := Without(cache, route);
      cacheSequence := cacheSequence + 1;
      cacheEpoch := cacheEpoch[route := (if route in cacheEpoch then cacheEpoch[route] else 0) + 1];
      PruneLocked(now);
    }

    /** Marks the route; a caller that gave a store deletes the returned route's row
        there, once the lock is released. */
    method MarkRouteStale(route: Route, now: int, hasStore: bool) returns (toDelete: Option<Route>)
      modifies this
      ensures State() == MarkStale(old(State()), route, now)
      ensures toDelete == if hasStore then Some(route) else None
    {
      refreshSequence := NextGeneration(State());
      refreshEpoch := Without(refreshEpoch, route) + [Entry(route, refreshSequence)];
      pendingRefresh := pendingRefresh[route := refreshSequence];
      InvalidateCache(route, now);
      toDelete := if hasStore then Some(route) else None;
    }

    method AcknowledgeRefresh(route: Route, expectedGeneration: nat, now: int) returns (ok: bool)
      modifies this
      ensures (State(), ok) == Acknowledge(old(State()), route, expectedGeneration, now)
    {
      ok := route in pendingRefresh && pendingRefresh[route] == expectedGeneration;
      if ok {
        pendingRefresh := pendingRefresh - {route};
        PruneLocked(now);
      }
    }

    method RefreshGeneration(route: Route, now: int) returns (generation: nat)
      modifies this
      ensures State() == Prune(old(State()), now) && generation == Generation(State(), route)
    {
      PruneLocked(now);
      generation := Generation(State(), route);
    }

    /** The first locked region of a cached read. */
    method Begin(route: Route, now: int) returns (found: Lookup)
      modifies this
      ensures (State(), found) == BeginRead(old(State()), route, now)
    {
      PruneLocked(now);
      if route in pendingRefresh {
        found := Refreshing;
      } else {
        var cached := Get(cache, route);
        if cached.Some? && now - cached.value.at <= TTL {
          found := Hit(cached.value.row);
        } else {
          found := Miss(Token(route, if route in cacheEpoch then cacheEpoch[route] else 0, cacheSequence, now));
        }
      }
    }

    /** The second locked region, after the unlocked storage read. */
    method Finish(token: Token, row: Row) returns (admitted: bool)
      modifies this
      ensures (State(), admitted) == FinishRead(old(State()), token, row)
    {
      admitted := token.route !in pendingRefresh && cacheSequence == token.sequence
        && (if token.route in cacheEpoch then cacheEpoch[token.route] else 0) == token.epoch;
      if admitted {
        cache := Without(cache, token.route) + [Entry(token.route, Cached(token.now, row))];
        PruneLocked(token.now);
      }
    }
  }
}
