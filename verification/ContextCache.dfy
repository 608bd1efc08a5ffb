/** The analysis context cache: one build per key at a time, shared by everyone who
    asks meanwhile, and a clear that fences builds already under way. */
module ContextCache {
  import opened Wrappers
  import opened OrderedEntries

  const TTL := 90_000_000   // microseconds
  const MAX_ENTRIES := 8

  /** A built context. `builder` is the future it was built for. */
  datatype Context = Context(key: string, builder: nat, content: nat)

  type Contexts = seq<Entry<string, Context>>

  datatype Tables = Tables(cache: Contexts, times: map<string, int>, pending: map<string, nat>, futures: nat)

  const EMPTY := Tables([], map[], map[], 0)

  datatype Answer = Hit(context: Context) | Join(future: nat) | Build(future: nat)

  // ----- the locked regions ------------------------------------------------

  predicate Expired(times: map<string, int>, key: string, now: int) {
    key in times && now - times[key] > TTL
  }

  function Alive(cache: Contexts, times: map<string, int>, now: int): Contexts {
    if cache == [] then []
    else
      var front, last := Alive(cache[..|cache| - 1], times, now), cache[|cache| - 1];
      if Expired(times, last.key, now) then front else front + [last]
  }

  function Restrict(times: map<string, int>, kept: set<string>): map<string, int> {
    map k | k in times && k in kept :: times[k]
  }

  function Trim(t: Tables, now: int): Tables {
    var cache := Newest(Alive(t.cache, t.times, now), MAX_ENTRIES);
    t.(cache := cache, times := Restrict(t.times, Keys(cache)))
  }

  function Stored(t: Tables, key: string, context: Context, now: int): Tables {
    t.(cache := Renewed(t.cache, key, context), times := t.times[key := now])
  }

  function Ask(t: Tables, key: string, now: int): (Tables, Answer) {
    var trimmed := Trim(t, now);
    var cached := Get(trimmed.cache, key);
    if cached.Some? then (Stored(trimmed, key, cached.value, now), Hit(cached.value))
    else if key in trimmed.pending then (trimmed, Join(trimmed.pending[key]))
    else (trimmed.(pending := trimmed.pending[key := t.futures], futures := t.futures + 1), Build(t.futures))
  }

  predicate Registered(t: Tables, key: string, future: nat) {
    key in t.pending && t.pending[key] == future
  }

  function Complete(t: Tables, key: string, future: nat, context: Context, now: int): Tables {
    if !Registered(t, key, future) then t
    else Trim(Stored(Trim(t.(pending := t.pending - {key}), now), key, context, now), now)
  }

  function Abandon(t: Tables, key: string, future: nat): Tables {
    if Registered(t, key, future) then t.(pending := t.pending - {key}) else t
  }

  function Clear(t: Tables): Tables {
    Tables([], map[], map[], t.futures)
  }

  // ----- the tables stay in step -------------------------------------------

  /** The cache and its timestamps have the same keys, at most eight. */
  ghost predicate Twinned(t: Tables) {
    Distinct(t.cache) && t.times.Keys == Keys(t.cache)
  }

  ghost predicate Bounded(t: Tables) {
    Twinned(t) && |t.cache| <= MAX_ENTRIES
  }

  lemma {:induction false} AliveKeys(cache: Contexts, times: map<string, int>, now: int)
    requires Distinct(cache)
    ensures Distinct(Alive(cache, times, now)) && Keys(Alive(cache, times, now)) <= Keys(cache)
  {
    if cache != [] {
      var n := |cache| - 1;
      AliveKeys(cache[..n], times, now);
      var front := Alive(cache[..n], times, now);
      assert (front + [cache[n]])[..|front|] == front;
    }
  }

  lemma {:induction false} AliveGet(cache: Contexts, times: map<string, int>, now: int, key: string)
    requires Distinct(cache)
    ensures Get(Alive(cache, times, now), key) == if Expired(times, key, now) then None else Get(cache, key)
  {
    if cache != [] {
      var n := |cache| - 1;
      AliveGet(cache[..n], times, now, key);
      var front := Alive(cache[..n], times, now);
      assert (front + [cache[n]])[..|front|] == front;
    }
  }

  /** Trimming only forgets, and forgets everything that expired. */
  lemma TrimGet(t: Tables, now: int, key: string)
    requires Twinned(t)
    ensures Bounded(Trim(t, now))
    ensures
      var kept := Get(Trim(t, now).cache, key);
      kept.Some? ==> kept == Get(t.cache, key) && !Expired(t.times, key, now)
  {
    AliveKeys(t.cache, t.times, now);
    AliveGet(t.cache, t.times, now, key);
    NewestGet(Alive(t.cache, t.times, now), MAX_ENTRIES, key);
  }

  lemma StoredGet(t: Tables, key: string, context: Context, now: int, other: string)
    requires Twinned(t)
    ensures Twinned(Stored(t, key, context, now))
    ensures Get(Stored(t, key, context, now).cache, other) == if other == key then Some(context) else Get(t.cache, other)
  {
    RenewedKeys(t.cache, key, context);
    RenewedGet(t.cache, key, context, other);
  }

  lemma AskGet(t: Tables, key: string, now: int, other: string)
    requires Bounded(t)
    ensures Bounded(Ask(t, key, now).0)
    ensures
      var kept := Get(Ask(t, key, now).0.cache, other);
      kept.Some? ==> kept == Get(t.cache, other)
  {
    var trimmed := Trim(t, now);
    TrimGet(t, now, other);
    var cached := Get(trimmed.cache, key);
    if cached.Some? {
      TrimGet(t, now, key);
      StoredGet(trimmed, key, cached.value, now, other);
      GetSome(trimmed.cache, key);
      CountKeys(trimmed.cache);
      CountKeys(Stored(trimmed, key, cached.value, now).cache);
      assert Keys(trimmed.cache) + {key} == Keys(trimmed.cache);
      RenewedKeys(trimmed.cache, key, cached.value);
    }
  }

  lemma CompleteGet(t: Tables, key: string, future: nat, context: Context, now: int, other: string)
    requires Bounded(t)
    ensures Bounded(Complete(t, key, future, context, now))
    ensures
      var kept := Get(Complete(t, key, future, context, now).cache, other);
      kept.Some? ==> kept == Get(t.cache, other) || (other == key && kept.value == context && Registered(t, key, future))
  {
    if Registered(t, key, future) {
      var released := t.(pending := t.pending - {key});
      TrimGet(released, now, other);
      StoredGet(Trim(released, now), key, context, now, other);
      TrimGet(Stored(Trim(released, now), key, context, now), now, other);
    }
  }

  // ----- runs of concurrent callers and clears -----------------------------

  datatype Outcome = Built(context: Context) | Raised(error: string)

  /** A build: under way, out of the pending table but not yet announced, or
      announced to everyone who joined it. */
  datatype Phase = Running | Released(outcome: Outcome) | Settled(outcome: Outcome)

  datatype Job = Job(key: string, began: nat, phase: Phase)

  datatype World = World(t: Tables, clock: nat, cleared: nat, jobs: seq<Job>)

  const START := World(EMPTY, 0, 0, [])

  datatype Event =
    | Request(key: string, now: int)
    | Return(job: nat, content: nat, now: int)
    | Raise(job: nat, error: string)
    | Announce(job: nat)
    | Wipe
    | Inspect(now: int)

  function Tick(w: World, t: Tables, jobs: seq<Job>): World {
    World(t, w.clock + 1, w.cleared, jobs)
  }

  function Finished(w: World, job: nat, outcome: Outcome, t: Tables): World
    requires job < |w.jobs|
  {
    Tick(w, t, w.jobs[job := w.jobs[job].(phase := Released(outcome))])
  }

  predicate IsRunning(w: World, job: nat) {
    job < |w.jobs| && w.jobs[job].phase.Running?
  }

  predicate IsReleased(w: World, job: nat) {
    job < |w.jobs| && w.jobs[job].phase.Released?
  }

  function Step(w: World, event: Event): World {
    match event
    case Request(key, now) =>
      var (t, answer) := Ask(w.t, key, now);
      Tick(w, t, if answer.Build? then w.jobs + [Job(key, w.clock, Running)] else w.jobs)
    case Return(job, content, now) =>
      if !IsRunning(w, job) then w
      else
        var context := Context(w.jobs[job].key, job, content);
        Finished(w, job, Built(context), Complete(w.t, w.jobs[job].key, job, context, now))
    case Raise(job, error) =>
      if !IsRunning(w, job) then w
      else Finished(w, job, Raised(error), Abandon(w.t, w.jobs[job].key, job))
    case Announce(job) =>
      if !IsReleased(w, job) then w
      else Tick(w, w.t, w.jobs[job := w.jobs[job].(phase := Settled(w.jobs[job].phase.outcome))])
    case Wipe => World(Clear(w.t), w.clock + 1, w.clock + 1, w.jobs)
    case Inspect(now) => Tick(w, Trim(w.t, now), w.jobs)
  }

  /** The context was built for this key by a job begun since the last clear. */
  predicate FreshlyBuilt(w: World, key: string, context: Context) {
    && context.key == key && context.builder < |w.jobs|
    && var job := w.jobs[context.builder];
       job.key == key && job.began >= w.cleared && !job.phase.Running? && job.phase.outcome == Built(context)
  }

  predicate CachedIsFresh(w: World, cache: Contexts, key: string) {
    var cached := Get(cache, key);
    cached.Some? ==> FreshlyBuilt(w, key, cached.value)
  }

  /** Exactly the unfenced running jobs are registered, each under its own key. */
  predicate PendingOk(w: World, key: string) {
    key in w.t.pending ==>
      IsRunning(w, w.t.pending[key]) && w.jobs[w.t.pending[key]].key == key && w.jobs[w.t.pending[key]].began >= w.cleared
  }

  predicate JobOk(w: World, job: nat) {
    job < |w.jobs| ==>
      && w.jobs[job].began < w.clock
      && (w.jobs[job].phase.Running? && w.jobs[job].began >= w.cleared ==> Registered(w.t, w.jobs[job].key, job))
  }

  ghost predicate Flights(w: World) {
    && w.t.futures == |w.jobs| && w.cleared <= w.clock
    && (forall k :: PendingOk(w, k))
    && (forall j :: JobOk(w, j))
  }

  ghost predicate Fresh(w: World) {
    forall k :: CachedIsFresh(w, w.t.cache, k)
  }

  lemma StepKeepsBounds(w: World, event: Event)
    requires Bounded(w.t)
    ensures Bounded(Step(w, event).t)
  {
    match event {
      case Request(key, now) => AskGet(w.t, key, now, key);
      case Return(job, content, now) =>
        if IsRunning(w, job) {
          CompleteGet(w.t, w.jobs[job].key, job, Context(w.jobs[job].key, job, content), now, "");
        }
      case Inspect(now) => TrimGet(w.t, now, "");
      case _ =>
    }
  }

  lemma StepKeepsFlights(w: World, event: Event)
    requires Flights(w)
    ensures Flights(Step(w, event))
  {
    var after := Step(w, event);
    forall k ensures PendingOk(after, k) {
      assert PendingOk(w, k);
      if event.Return? || event.Raise? {
        assert JobOk(w, event.job);
      }
    }
    forall j: nat ensures JobOk(after, j) {
      assert JobOk(w, j);
      if j < |w.jobs| {
        assert PendingOk(w, w.jobs[j].key);
      }
    }
  }

  lemma StepKeepsFresh(w: World, event: Event)
    requires Bounded(w.t) && Flights(w) && Fresh(w)
    ensures Fresh(Step(w, event))
  {
    var after := Step(w, event);
    forall k ensures CachedIsFresh(after, after.t.cache, k) {
      assert CachedIsFresh(w, w.t.cache, k);
      match event {
        case Request(key, now) => AskGet(w.t, key, now, k);
        case Return(job, content, now) =>
          if IsRunning(w, job) {
            var key := w.jobs[job].key;
            assert PendingOk(w, key);
            CompleteGet(w.t, key, job, Context(key, job, content), now, k);
          }
        case Inspect(now) => TrimGet(w.t, now, k);
        case _ =>
      }
    }
  }

  ghost predicate IsRun(worlds: seq<World>, events: seq<Event>) {
    && |worlds| == |events| + 1
    && worlds[0] == START
    && forall i :: 0 <= i < |events| ==> worlds[i + 1] == Step(worlds[i], events[i])
  }

  /** Every reachable cache: twinned tables of at most eight entries, and nothing in
      it from a build that began before the last clear. */
  lemma {:induction false} EveryReachableCache(worlds: seq<World>, events: seq<Event>, i: nat)
    requires IsRun(worlds, events) && i < |worlds|
    ensures Bounded(worlds[i].t) && Flights(worlds[i]) && Fresh(worlds[i])
  {
    if i > 0 {
      EveryReachableCache(worlds, events, i - 1);
      StepKeepsBounds(worlds[i - 1], events[i - 1]);
      StepKeepsFlights(worlds[i - 1], events[i - 1]);
      StepKeepsFresh(worlds[i - 1], events[i - 1]);
    }
  }

  /** Single flight: two builds of one key are under way together only if a clear
      fenced the older one off. */
  lemma OneBuildPerKey(worlds: seq<World>, events: seq<Event>, i: nat, a: nat, b: nat)
    requires IsRun(worlds, events) && i < |worlds|
    requires IsRunning(worlds[i], a) && IsRunning(worlds[i], b)
    requires worlds[i].jobs[a].key == worlds[i].jobs[b].key
    ensures a == b || worlds[i].jobs[a].began < worlds[i].cleared || worlds[i].jobs[b].began < worlds[i].cleared
  {
    EveryReachableCache(worlds, events, i);
    assert JobOk(worlds[i], a) && JobOk(worlds[i], b);
  }

  /** What a request is answered with belongs to its key and never predates the
      last clear, whether it is a cached context or a build to wait for. */
  lemma AnswersAreFresh(worlds: seq<World>, events: seq<Event>, i: nat, key: string, now: int)
    requires IsRun(worlds, events) && i < |worlds|
    ensures
      var w := worlds[i];
      match Ask(w.t, key, now).1
      case Hit(context) => FreshlyBuilt(w, key, context) && !Expired(w.t.times, key, now)
      case Join(f) => IsRunning(w, f) && w.jobs[f].key == key && w.jobs[f].began >= w.cleared
      case Build(f) => f == |w.jobs| && key !in w.t.pending
  {
    var w := worlds[i];
    EveryReachableCache(worlds, events, i);
    TrimGet(w.t, now, key);
    GetSome(w.t.cache, key);
    assert CachedIsFresh(w, w.t.cache, key) && PendingOk(w, key);
  }

  /** Job `j` kept its key, and any outcome it had. */
  predicate JobLater(w: World, later: World, j: nat) {
    && j < |w.jobs| <= |later.jobs|
    && later.jobs[j].key == w.jobs[j].key
    && (!w.jobs[j].phase.Running? ==> !later.jobs[j].phase.Running? && later.jobs[j].phase.outcome == w.jobs[j].phase.outcome)
  }

  lemma StepJob(w: World, event: Event, j: nat)
    requires j < |w.jobs|
    ensures JobLater(w, Step(w, event), j)
    ensures
      var later := Step(w, event).jobs[j].phase;
      w.jobs[j].phase.Running? && later.Released? ==>
        || (event.Return? && event.job == j && later.outcome == Built(Context(w.jobs[j].key, j, event.content)))
        || (event.Raise? && event.job == j && later.outcome == Raised(event.error))
  {
  }

  /** Whoever joined a build gets that very build's result or error: at the moment
      of joining it is still running, and the outcome it is ever given, once, is
      the one its own builder produced for the requested key. */
  lemma {:induction false} WaitersGetTheirBuild(worlds: seq<World>, events: seq<Event>, i: nat, n: nat, key: string, now: int)
    requires IsRun(worlds, events) && i <= n < |worlds|
    requires Ask(worlds[i].t, key, now).1.Join?
    ensures
      var f := Ask(worlds[i].t, key, now).1.future;
      && f < |worlds[n].jobs| && worlds[n].jobs[f].key == key
      && var phase := worlds[n].jobs[f].phase;
         !phase.Running? ==> exists k :: i <= k < n && Produced(events[k], f, key, phase.outcome)
    decreases n - i
  {
    AnswersAreFresh(worlds, events, i, key, now);
    var f := Ask(worlds[i].t, key, now).1.future;
    if i < n {
      WaitersGetTheirBuild(worlds, events, i, n - 1, key, now);
      StepJob(worlds[n - 1], events[n - 1], f);
      if worlds[n - 1].jobs[f].phase.Running? && !worlds[n].jobs[f].phase.Running? {
        assert Produced(events[n - 1], f, key, worlds[n].jobs[f].phase.outcome);
      }
    }
  }

  predicate Produced(event: Event, job: nat, key: string, outcome: Outcome) {
    || (event.Return? && event.job == job && outcome == Built(Context(key, job, event.content)))
    || (event.Raise? && event.job == job && outcome == Raised(event.error))
  }

  // ----- the module's tables -----------------------------------------------

  class AnalysisContextCache {
    var cache: Contexts
    var times: map<string, int>
    var pending: map<string, nat>
    var futures: nat

    function State(): Tables
      reads this
    {
      Tables(cache, times, pending, futures)
    }

    ghost predicate Valid()
      reads this
    {
      Bounded(State())
    }

    constructor ()
      ensures Valid() && State() == EMPTY
    {
      cache, times, pending, futures := [], map[], map[], 0;
    }

    method AliveEntries(now: int) returns (kept: Contexts)
      ensures kept == Alive(cache, times, now)
    {
      kept := [];
      for i := 0 to |cache|
        invariant kept == Alive(cache[..i], times, now)
      {
        assert cache[..i + 1][..i] == cache[..i];
        if cache[i].key !in times || now - times[cache[i].key] <= TTL {
          kept := kept + [cache[i]];
        }
      }
      assert cache[..|cache|] == cache;
    }

    method StoreLocked(key: string, context: Context, now: int)
      requires Twinned(State())
      modifies this`cache, this`times
      ensures State() == Stored(old(State()), key, context, now) && Twinned(State())
    {
      StoredGet(State(), key, context, now, key);
      cache := Without(cache, key) + [Entry(key, context)];
      times := times[key := now];
    }

    method TrimLocked(now: int)
      requires Twinned(State())
      modifies this`cache, this`times
      ensures State() == Trim(old(State()), now) && Bounded(State())
    {
      TrimGet(State(), now, "");
      var kept := AliveEntries(now);
      ghost var alive := kept;
      while |kept| > MAX_ENTRIES
        invariant |kept| <= |alive| && kept == alive[|alive| - |kept|..]
        invariant |alive| > MAX_ENTRIES ==> |kept| >= MAX_ENTRIES
        invariant |alive| <= MAX_ENTRIES ==> kept == alive
      {
        kept := kept[1..];
      }
      cache := kept;
      times := map k | k in times && k in Keys(kept) :: times[k];
    }

    /** The locked region every caller goes through first. */
    method Request(key: string, now: int) returns (answer: Answer)
      requires Valid()
      modifies this
      ensures Valid() && (State(), answer) == Ask(old(State()), key, now)
    {
      AskGet(State(), key, now, key);
      TrimLocked(now);
      var cached := Get(cache, key);
      if cached.Some? {
        cache := Without(cache, key) + [Entry(key, cached.value)];
        times := times[key := now];
        answer := Hit(cached.value);
      } else if key in pending {
        answer := Join(pending[key]);
      } else {
        pending := pending[key := futures];
        answer := Build(futures);
        futures := futures + 1;
      }
    }

    /** The locked region of a builder that succeeded. */
    method Finish(key: string, future: nat, context: Context, now: int)
      requires Valid()
      modifies this
      ensures Valid() && State() == Complete(old(State()), key, future, context, now)
    {
      CompleteGet(State(), key, future, context, now, key);
      if key in pending && pending[key] == future {
        pending := pending - {key};
        TrimLocked(now);
        StoreLocked(key, context, now);
        TrimLocked(now);
      }
    }

    /** The locked region of a builder that raised. */
    method Fail(key: string, future: nat)
      requires Valid()
      modifies this`pending
      ensures Valid() && State() == Abandon(old(State()), key, future)
    {
      if key in pending && pending[key] == future {
        pending := pending - {key};
      }
    }

    method ClearAll()
      modifies this
      ensures Valid() && State() == Clear(old(State()))
    {
      cache, times, pending := [], map[], map[];
    }
  }
}
