/** The process-owned alert projection: token-guarded hydration, committed
    mutations, a derived route index, a revision counter and the quote inbox. */
module AlertRegistry {
  import opened Wrappers
  import opened AlertReplay
  import opened QuoteInbox

  datatype Registry = Registry(
    alerts: Alerts,
    routeCounts: map<Route, nat>,
    revision: nat,
    hydrated: bool,
    generation: nat,
    active: Option<nat>,
    mutations: seq<Mutation>,
    inbox: seq<QuoteEvent>,
    sequence: nat
  )

  const EMPTY_REGISTRY := Registry(map[], map[], 0, false, 0, None, [], [], 0)

  // ----- derived index -----------------------------------------------------

  function LiveKeys(alerts: Alerts, route: Route): set<AlertKey> {
    set k | k in alerts && alerts[k].Live() && alerts[k].route == route
  }

  function LiveRoutes(alerts: Alerts): set<Route> {
    set k | k in alerts && alerts[k].Live() :: alerts[k].route
  }

  function LiveCount(alerts: Alerts, route: Route): nat {
    |LiveKeys(alerts, route)|
  }

  /** How many live alerts each route has; routes without any are absent. */
  function RouteCounts(alerts: Alerts): map<Route, nat> {
    map r | r in LiveRoutes(alerts) :: LiveCount(alerts, r)
  }

  /** No two alerts own the same definition. */
  predicate UniqueDefinitions(alerts: Alerts) {
    forall j, k :: j in alerts && k in alerts && j != k ==> alerts[j].definition != alerts[k].definition
  }

  // ----- steps -------------------------------------------------------------

  function Changed(r: Registry, alerts: Alerts): Registry {
    r.(alerts := alerts, routeCounts := RouteCounts(alerts), revision := r.revision + 1)
  }

  /** The shared end of every committed mutation. */
  function Commit(r: Registry, mutation: Mutation): Registry {
    var logged := if r.active.Some? then r.(mutations := r.mutations + [mutation]) else r;
    var next := Apply(r.alerts, mutation);
    if next != r.alerts then Changed(logged, next) else logged
  }

  function Publish(r: Registry, mutation: Mutation): Result<Registry> {
    if mutation.Upsert? && !mutation.alert.Retained() then Failure("PRICE_ALERT_RUNTIME_INERT_ROW")
    else if mutation.Upsert? && !UniqueDefinitions(Apply(r.alerts, mutation)) then Failure("PRICE_ALERT_SEMANTIC_DUPLICATE")
    else Success(Commit(r, mutation))
  }

  function BeginHydration(r: Registry): Result<Registry> {
    if r.active.Some? then Failure("PRICE_ALERT_RUNTIME_HYDRATION_IN_PROGRESS")
    else Success(r.(generation := r.generation + 1, active := Some(r.generation + 1), mutations := []))
  }

  function CancelHydration(r: Registry, token: nat): Registry {
    if r.active != Some(token) then r else r.(active := None, mutations := [])
  }

  /** The rows as a map; inert rows and repeated keys are refused. */
  function SnapshotOf(rows: seq<Alert>): Result<Alerts> {
    if rows == [] then Success(map[])
    else
      var front, last := SnapshotOf(rows[..|rows| - 1]), rows[|rows| - 1];
      if front.Failure? then front
      else if !last.Retained() then Failure("PRICE_ALERT_RUNTIME_INERT_ROW")
      else if last.Key() in front.value then Failure("PRICE_ALERT_ID_DUPLICATE")
      else Success(front.value[last.Key() := last])
  }

  function Install(r: Registry, alerts: Alerts): Registry {
    var settled := r.(hydrated := true, active := None, mutations := []);
    if alerts != r.alerts || !r.hydrated then Changed(settled, alerts) else settled
  }

  function Hydrate(r: Registry, rows: seq<Alert>, token: Option<nat>): Result<Registry> {
    var snapshot := SnapshotOf(rows);
    if snapshot.Failure? then Failure(snapshot.code)
    else if token.Some? && r.active != token then Failure("PRICE_ALERT_RUNTIME_HYDRATION_TOKEN_STALE")
    else if token.None? && r.active.Some? then Failure("PRICE_ALERT_RUNTIME_HYDRATION_TOKEN_REQUIRED")
    else
      var next := ApplyAll(snapshot.value, r.mutations);
      if !UniqueDefinitions(next) then Failure("PRICE_ALERT_SEMANTIC_DUPLICATE")
      else Success(Install(r, next))
  }

  function PublishQuote(r: Registry, capacity: nat, route: Route, quote: nat): Registry {
    if route !in r.routeCounts then r
    else
      r.(sequence := r.sequence + 1, inbox := Push(r.inbox, capacity, QuoteEvent(r.sequence + 1, route, quote)))
  }

  // ----- what every step keeps ---------------------------------------------

  ghost predicate Inv(r: Registry) {
    && r.routeCounts == RouteCounts(r.alerts)
    && UniqueDefinitions(r.alerts)
    && KeyedRows(r.alerts)
    && (r.active.None? ==> r.mutations == [])
    && (r.active.Some? ==> r.active.value == r.generation)
    && (forall i :: 0 <= i < |r.mutations| ==> r.mutations[i].Upsert? ==> r.mutations[i].alert.Retained())
  }

  datatype Event =
    | Begin
    | CancelOne(token: nat)
    | Load(rows: seq<Alert>, given: Option<nat>)
    | Mutate(mutation: Mutation)
    | Quote(route: Route, quote: nat)

  /** One call; a call that raises leaves the registry as it was. */
  function Step(r: Registry, capacity: nat, event: Event): Registry {
    match event
    case Begin => if BeginHydration(r).Success? then BeginHydration(r).value else r
    case CancelOne(token) => CancelHydration(r, token)
    case Load(rows, token) => if Hydrate(r, rows, token).Success? then Hydrate(r, rows, token).value else r
    case Mutate(mutation) => if Publish(r, mutation).Success? then Publish(r, mutation).value else r
    case Quote(route, quote) => PublishQuote(r, capacity, route, quote)
  }

  lemma {:induction false} SnapshotFacts(rows: seq<Alert>)
    ensures SnapshotOf(rows).Success? ==>
      forall k :: k in SnapshotOf(rows).value ==>
        SnapshotOf(rows).value[k].Key() == k && SnapshotOf(rows).value[k].Retained()
    decreases |rows|
  {
    if rows != [] {
      SnapshotFacts(rows[..|rows| - 1]);
    }
  }

  lemma {:induction false} ReplayFacts(alerts: Alerts, log: seq<Mutation>)
    requires forall k :: k in alerts ==> alerts[k].Key() == k && alerts[k].Retained()
    requires forall i :: 0 <= i < |log| ==> log[i].Upsert? ==> log[i].alert.Retained()
    ensures forall k :: k in ApplyAll(alerts, log) ==>
      ApplyAll(alerts, log)[k].Key() == k && ApplyAll(alerts, log)[k].Retained()
    decreases |log|
  {
    if log != [] {
      ReplayFacts(alerts, log[..|log| - 1]);
    }
  }

  lemma RemovalKeepsUnique(alerts: Alerts, mutation: Mutation)
    requires UniqueDefinitions(alerts) && !mutation.Upsert?
    ensures UniqueDefinitions(Apply(alerts, mutation))
  {
    forall k | k in Apply(alerts, mutation) ensures k in alerts && Apply(alerts, mutation)[k] == alerts[k] {
    }
  }

  /** The rows are keyed by themselves and none is inert. */
  ghost predicate KeyedRows(alerts: Alerts) {
    forall k :: k in alerts ==> alerts[k].Key() == k && alerts[k].Retained()
  }

  lemma LoadKeeps(r: Registry, rows: seq<Alert>, token: Option<nat>)
    requires Inv(r) && Hydrate(r, rows, token).Success?
    ensures Inv(Hydrate(r, rows, token).value)
  {
    SnapshotFacts(rows);
    ReplayFacts(SnapshotOf(rows).value, r.mutations);
  }

  lemma MutateKeeps(r: Registry, mutation: Mutation)
    requires Inv(r) && Publish(r, mutation).Success?
    ensures Inv(Publish(r, mutation).value)
  {
    if !mutation.Upsert? {
      RemovalKeepsUnique(r.alerts, mutation);
    }
    assert KeyedRows(Apply(r.alerts, mutation));
  }

  lemma StepKeeps(r: Registry, capacity: nat, event: Event)
    requires Inv(r)
    ensures Inv(Step(r, capacity, event))
  {
    match event {
      case Load(rows, token) =>
        if Hydrate(r, rows, token).Success? {
          LoadKeeps(r, rows, token);
        }
      case Mutate(mutation) =>
        if Publish(r, mutation).Success? {
          MutateKeeps(r, mutation);
        }
      case _ =>
    }
  }

  /** The revision never goes back, and a step that keeps it keeps the alerts. */
  lemma StepRevision(r: Registry, capacity: nat, event: Event)
    ensures
      var after := Step(r, capacity, event);
      && r.revision <= after.revision <= r.revision + 1
      && (after.revision == r.revision ==> after.alerts == r.alerts)
  {
  }

  // ----- runs --------------------------------------------------------------

  ghost predicate IsRun(states: seq<Registry>, events: seq<Event>, capacity: nat) {
    && |states| == |events| + 1
    && states[0] == EMPTY_REGISTRY
    && forall i :: 0 <= i < |events| ==> states[i + 1] == Step(states[i], capacity, events[i])
  }

  /** In every reachable registry the route index is exactly a recount. */
  lemma {:induction false} EveryReachableRegistry(states: seq<Registry>, events: seq<Event>, capacity: nat, i: nat)
    requires IsRun(states, events, capacity) && i < |states|
    ensures Inv(states[i])
  {
    if i > 0 {
      EveryReachableRegistry(states, events, capacity, i - 1);
      StepKeeps(states[i - 1], capacity, events[i - 1]);
    } else {
      assert LiveRoutes(map[]) == {};
    }
  }

  /** Equal revisions mean equal alerts, between any two moments of a run. */
  lemma {:induction false} RevisionsIdentifyAlerts(states: seq<Registry>, events: seq<Event>, capacity: nat, i: nat, j: nat)
    requires IsRun(states, events, capacity) && i <= j < |states|
    ensures states[i].revision <= states[j].revision
    ensures states[i].revision == states[j].revision ==> states[i].alerts == states[j].alerts
    decreases j - i
  {
    if i < j {
      RevisionsIdentifyAlerts(states, events, capacity, i, j - 1);
      StepRevision(states[j - 1], capacity, events[j - 1]);
    }
  }

  ghost predicate Reachable(r: Registry, capacity: nat) {
    exists states, events :: IsRun(states, events, capacity) && states[|states| - 1] == r
  }

  lemma EmptyIsReachable(capacity: nat)
    ensures Reachable(EMPTY_REGISTRY, capacity)
  {
    assert IsRun([EMPTY_REGISTRY], [], capacity);
  }

  lemma StepIsReachable(r: Registry, capacity: nat, event: Event)
    requires Reachable(r, capacity)
    ensures Reachable(Step(r, capacity, event), capacity)
  {
    var states, events :| IsRun(states, events, capacity) && states[|states| - 1] == r;
    var longer := states + [Step(r, capacity, event)];
    assert IsRun(longer, events + [event], capacity) by {
      forall i | 0 <= i < |events| + 1 ensures longer[i + 1] == Step(longer[i], capacity, (events + [event])[i]) {
      }
    }
  }

  /** What a caller of the object below may rely on. */
  lemma ReachableIsSound(r: Registry, capacity: nat)
    requires Reachable(r, capacity)
    ensures Inv(r)
  {
    var states, events :| IsRun(states, events, capacity) && states[|states| - 1] == r;
    EveryReachableRegistry(states, events, capacity, |states| - 1);
  }

  /** What a mutating call returns: the new revision, or why it was refused. */
  function Revised(result: Result<Registry>): Result<nat> {
    if result.Success? then Success(result.value.revision) else Failure(result.code)
  }

  /** A loader whose token is no longer the active one changes nothing. */
  lemma StaleTokenChangesNothing(r: Registry, capacity: nat, rows: seq<Alert>, token: nat)
    requires r.active != Some(token)
    ensures Step(r, capacity, Load(rows, Some(token))) == r
    ensures Step(r, capacity, CancelOne(token)) == r
  {
  }

  /** The inbox is the retained tail of everything ever published. */
  ghost predicate InboxIs(history: seq<QuoteEvent>, capacity: nat, inbox: seq<QuoteEvent>, sequence: nat) {
    Numbered(history) && sequence == |history| && inbox == Retained(history, capacity)
  }

  // ----- the object --------------------------------------------------------

  class AlertRuntimeRegistry {
    const maxQuoteEvents: nat
    var alerts: Alerts
    var activeRouteCounts: map<Route, nat>
    var revision: nat
    var hydrated: bool
    var hydrationGeneration: nat
    var activeHydration: Option<nat>
    var hydrationMutations: seq<Mutation>
    var quoteEvents: seq<QuoteEvent>
    var quoteSequence: nat
    ghost var history: seq<QuoteEvent>

    function State(): Registry
      reads this
    {
      Registry(alerts, activeRouteCounts, revision, hydrated, hydrationGeneration, activeHydration,
        hydrationMutations, quoteEvents, quoteSequence)
    }

    /** The fields are a reachable registry, and the inbox is the tail of everything
        ever published. */
    ghost predicate Valid()
      reads this
    {
      && Reachable(State(), maxQuoteEvents)
      && maxQuoteEvents >= 1
      && InboxIs(history, maxQuoteEvents, quoteEvents, quoteSequence)
    }

    constructor (capacity: int)
      ensures Valid() && State() == EMPTY_REGISTRY && history == []
      ensures maxQuoteEvents == if capacity < 1 then 1 else capacity
    {
      maxQuoteEvents := if capacity < 1 then 1 else capacity;
      alerts, activeRouteCounts, revision, hydrated := map[], map[], 0, false;
      hydrationGeneration, activeHydration, hydrationMutations := 0, None, [];
      quoteEvents, quoteSequence, history := [], 0, [];
      new;
      EmptyIsReachable(maxQuoteEvents);
    }

    /** Recounts the live alerts of every route. */
    method RebuildActiveRoutesLocked()
      modifies this`activeRouteCounts
      ensures activeRouteCounts == RouteCounts(alerts)
    {
      var counts: map<Route, nat> := map[];
      var todo := alerts.Keys;
      ghost var done: Alerts := map[];
      while todo != {}
        invariant todo <= alerts.Keys
        invariant done == map k | k in alerts && k !in todo :: alerts[k]
        invariant counts == RouteCounts(done)
        decreases |todo|
      {
        var key :| key in todo;
        var alert := alerts[key];
        CountOneMore(done, key, alert);
        if alert.enabled && alert.armed && alert.kind.Price? {
          counts := OneMore(counts, alert.route);
        }
        todo := todo - {key};
        done := done[key := alert];
      }
      assert done == alerts;
      activeRouteCounts := counts;
    }

    method ChangedLocked()
      modifies this`revision, this`activeRouteCounts
      ensures revision == old(revision) + 1 && activeRouteCounts == RouteCounts(alerts)
    {
      revision := revision + 1;
      RebuildActiveRoutesLocked();
    }

    method Begin() returns (r: Result<nat>)
      requires Valid()
      modifies this
      ensures Valid() && history == old(history)
      ensures State() == Step(old(State()), maxQuoteEvents, Event.Begin)
      ensures r.Success? <==> old(activeHydration).None?
      ensures r.Success? ==> activeHydration == Some(r.value)
    {
      StepIsReachable(State(), maxQuoteEvents, Event.Begin);
      if activeHydration.Some? {
        return Failure("PRICE_ALERT_RUNTIME_HYDRATION_IN_PROGRESS");
      }
      hydrationGeneration := hydrationGeneration + 1;
      activeHydration := Some(hydrationGeneration);
      hydrationMutations := [];
      r := Success(hydrationGeneration);
    }

    method Cancel(token: nat)
      requires Valid()
      modifies this
      ensures Valid() && history == old(history) && State() == CancelHydration(old(State()), token)
    {
      StepIsReachable(State(), maxQuoteEvents, CancelOne(token));
      if activeHydration != Some(token) {
        return;
      }
      activeHydration := None;
      hydrationMutations := [];
    }

    /** Builds the map of a snapshot, refusing inert and repeated rows. */
    method ReadRows(rows: seq<Alert>) returns (r: Result<Alerts>)
      ensures r == SnapshotOf(rows)
    {
      var next: Alerts := map[];
      for i := 0 to |rows|
        invariant SnapshotOf(rows[..i]) == Success(next)
      {
        assert rows[..i + 1][..i] == rows[..i];
        if !rows[i].Retained() {
          FailurePersists(rows, i + 1);
          return Failure("PRICE_ALERT_RUNTIME_INERT_ROW");
        }
        if rows[i].Key() in next {
          FailurePersists(rows, i + 1);
          return Failure("PRICE_ALERT_ID_DUPLICATE");
        }
        next := next[rows[i].Key() := rows[i]];
      }
      assert rows[..|rows|] == rows;
      r := Success(next);
    }

    /** Whether no definition occurs twice. */
    method DefinitionsAreUnique(candidate: Alerts) returns (unique: bool)
      ensures unique <==> UniqueDefinitions(candidate)
    {
      var todo := candidate.Keys;
      var seen: set<string> := {};
      while todo != {}
        invariant todo <= candidate.Keys
        invariant forall j, k :: j in candidate && k in candidate && j !in todo && k !in todo && j != k ==>
          candidate[j].definition != candidate[k].definition
        invariant forall d :: d in seen <==> exists k :: k in candidate && k !in todo && candidate[k].definition == d
        decreases |todo|
      {
        var key :| key in todo;
        if candidate[key].definition in seen {
          return false;
        }
        seen := seen + {candidate[key].definition};
        todo := todo - {key};
      }
      unique := true;
    }

    /** Installs a snapshot with the mutations logged since hydration began. */
    method HydrateFrom(rows: seq<Alert>, token: Option<nat>) returns (r: Result<nat>)
      requires Valid()
      modifies this
      ensures Valid() && history == old(history)
      ensures r == Revised(Hydrate(old(State()), rows, token))
      ensures State() == Step(old(State()), maxQuoteEvents, Load(rows, token))
    {
      ghost var before := State();
      ghost var after := Step(before, maxQuoteEvents, Load(rows, token));
      assert Reachable(after, maxQuoteEvents) by {
        StepIsReachable(before, maxQuoteEvents, Load(rows, token));
      }
      var snapshot := ReadRows(rows);
      if snapshot.Failure? {
        r := Failure(snapshot.code);
      } else if token.Some? && activeHydration != token {
        r := Failure("PRICE_ALERT_RUNTIME_HYDRATION_TOKEN_STALE");
      } else if token.None? && activeHydration.Some? {
        r := Failure("PRICE_ALERT_RUNTIME_HYDRATION_TOKEN_REQUIRED");
      } else {
        var next := ReplayMutations(snapshot.value);
        var unique := DefinitionsAreUnique(next);
        if !unique {
          r := Failure("PRICE_ALERT_SEMANTIC_DUPLICATE");
        } else {
          InstallLocked(next);
          r := Success(revision);
        }
      }
    }

    method InstallLocked(next: Alerts)
      modifies this`alerts, this`revision, this`activeRouteCounts, this`hydrated, this`activeHydration, this`hydrationMutations
      ensures State() == Install(old(State()), next)
    {
      var changed := next != alerts || !hydrated;
      alerts, hydrated, activeHydration, hydrationMutations := next, true, None, [];
      if changed {
        ChangedLocked();
      }
    }

    /** The logged mutations replayed over a snapshot. */
    method ReplayMutations(snapshot: Alerts) returns (next: Alerts)
      ensures next == ApplyAll(snapshot, hydrationMutations)
    {
      next := snapshot;
      for i := 0 to |hydrationMutations|
        invariant next == ApplyAll(snapshot, hydrationMutations[..i])
      {
        assert hydrationMutations[..i + 1][..i] == hydrationMutations[..i];
        next := Apply(next, hydrationMutations[i]);
      }
      assert hydrationMutations[..|hydrationMutations|] == hydrationMutations;
    }

    /** Publishes one committed upsert, removal or scope removal. */
    method PublishCommitted(mutation: Mutation) returns (r: Result<nat>)
      requires Valid()
      modifies this
      ensures Valid() && history == old(history)
      ensures r == Revised(Publish(old(State()), mutation))
      ensures State() == Step(old(State()), maxQuoteEvents, Mutate(mutation))
    {
      ghost var before := State();
      ghost var after := Step(before, maxQuoteEvents, Mutate(mutation));
      assert Reachable(after, maxQuoteEvents) by {
        StepIsReachable(before, maxQuoteEvents, Mutate(mutation));
      }
      if mutation.Upsert? && !mutation.alert.Retained() {
        return Failure("PRICE_ALERT_RUNTIME_INERT_ROW");
      }
      var next := Apply(alerts, mutation);
      if mutation.Upsert? {
        var unique := DefinitionsAreUnique(next);
        if !unique {
          return Failure("PRICE_ALERT_SEMANTIC_DUPLICATE");
        }
      }
      CommitLocked(mutation, next);
      r := Success(revision);
    }

    method CommitLocked(mutation: Mutation, next: Alerts)
      requires next == Apply(alerts, mutation)
      modifies this`alerts, this`revision, this`activeRouteCounts, this`hydrationMutations
      ensures State() == Commit(old(State()), mutation)
    {
      if activeHydration.Some? {
        hydrationMutations := hydrationMutations + [mutation];
      }
      if next != alerts {
        alerts := next;
        ChangedLocked();
      }
    }

    /** Appends one numbered event; a full inbox drops its oldest one. */
    method AppendLocked(route: Route, quote: nat)
      requires Valid() && route in activeRouteCounts
      modifies this`quoteEvents, this`quoteSequence, this`history
      ensures Valid() && history == old(history) + [QuoteEvent(|old(history)| + 1, route, quote)]
    {
      ghost var before := State();
      ghost var after := Step(before, maxQuoteEvents, Quote(route, quote));
      assert Reachable(after, maxQuoteEvents) by {
        StepIsReachable(before, maxQuoteEvents, Quote(route, quote));
      }
      var event := QuoteEvent(quoteSequence + 1, route, quote);
      PushRetains(history, maxQuoteEvents, event);
      quoteSequence := quoteSequence + 1;
      quoteEvents := Push(quoteEvents, maxQuoteEvents, event);
      history := history + [event];
      assert State() == after;
    }

    /** Appends the quotes of routes that have a live alert, numbered onwards. */
    method PublishQuoteChanges(changes: seq<(Route, nat)>) returns (sequence: nat)
      requires Valid()
      modifies this`quoteEvents, this`quoteSequence, this`history
      ensures Valid() && sequence == quoteSequence
      ensures history == WithQuotes(old(history), changes, activeRouteCounts)
    {
      for i := 0 to |changes|
        invariant Valid()
        invariant history == WithQuotes(old(history), changes[..i], activeRouteCounts)
        modifies this`quoteEvents, this`quoteSequence, this`history
      {
        assert changes[..i + 1][..i] == changes[..i];
        var (route, quote) := changes[i];
        if route in activeRouteCounts {
          AppendLocked(route, quote);
        }
      }
      assert changes[..|changes|] == changes;
      sequence := quoteSequence;
    }

    /** The events after a cursor, the newest sequence, and whether some were lost. */
    method ReadQuoteEvents(afterSequence: int, limit: int) returns (page: Page)
      requires Valid()
      ensures page == PageOf(history, maxQuoteEvents, afterSequence, limit)
    {
      var ceiling := quoteSequence;
      var first := if quoteEvents != [] then quoteEvents[0].sequence else ceiling + 1;
      var overflowed := afterSequence < first - 1;
      var floor := if overflowed then first - 1 else afterSequence;
      FilteredPage(history, maxQuoteEvents, afterSequence, limit);
      var events := Above(quoteEvents, floor);
      var count := if limit < 1 then 1 else limit;
      page := Page(if |events| > count then events[..count] else events, ceiling, overflowed);
    }
  }

  /** The events published after a batch of quote changes. */
  function WithQuotes(history: seq<QuoteEvent>, changes: seq<(Route, nat)>, counts: map<Route, nat>): seq<QuoteEvent> {
    if changes == [] then history
    else
      var before, (route, quote) := WithQuotes(history, changes[..|changes| - 1], counts), changes[|changes| - 1];
      if route in counts then before + [QuoteEvent(|before| + 1, route, quote)] else before
  }

  /** Nothing already published is touched, the numbering has no hole, and the new
      events are exactly the changes whose route has a live alert, in order. */
  lemma {:induction false} QuotesOnlyExtend(history: seq<QuoteEvent>, changes: seq<(Route, nat)>, counts: map<Route, nat>)
    requires Numbered(history)
    ensures
      var after := WithQuotes(history, changes, counts);
      && history <= after && Numbered(after)
      && Payloads(after[|history|..]) == OnRoutes(changes, counts)
    decreases |changes|
  {
    var after := WithQuotes(history, changes, counts);
    if changes == [] {
      assert after[|history|..] == [];
    } else {
      var n := |changes| - 1;
      QuotesOnlyExtend(history, changes[..n], counts);
      var before := WithQuotes(history, changes[..n], counts);
      if changes[n].0 in counts {
        var tail := after[|history|..];
        assert tail == before[|history|..] + [QuoteEvent(|before| + 1, changes[n].0, changes[n].1)];
        assert tail[..|tail| - 1] == before[|history|..];
      }
    }
  }

  function Payloads(events: seq<QuoteEvent>): seq<(Route, nat)> {
    if events == [] then []
    else
      var last := events[|events| - 1];
      Payloads(events[..|events| - 1]) + [(last.route, last.quote)]
  }

  function OnRoutes(changes: seq<(Route, nat)>, counts: map<Route, nat>): seq<(Route, nat)> {
    if changes == [] then []
    else
      var front, last := OnRoutes(changes[..|changes| - 1], counts), changes[|changes| - 1];
      if last.0 in counts then front + [last] else front
  }

  lemma {:induction false} FailurePersists(rows: seq<Alert>, n: nat)
    requires n <= |rows| && SnapshotOf(rows[..n]).Failure?
    ensures SnapshotOf(rows) == SnapshotOf(rows[..n])
    decreases |rows| - n
  {
    if n < |rows| {
      assert rows[..n + 1][..n] == rows[..n];
      FailurePersists(rows, n + 1);
    } else {
      assert rows[..n] == rows;
    }
  }

  lemma LiveKeysOneMore(done: Alerts, key: AlertKey, alert: Alert, route: Route)
    requires key !in done
    ensures key !in LiveKeys(done, route)
    ensures LiveKeys(done[key := alert], route) ==
      LiveKeys(done, route) + (if alert.Live() && alert.route == route then {key} else {})
  {
  }

  lemma LiveRoutesOneMore(done: Alerts, key: AlertKey, alert: Alert)
    requires key !in done
    ensures LiveRoutes(done[key := alert]) == LiveRoutes(done) + (if alert.Live() then {alert.route} else {})
  {
    var more := done[key := alert];
    forall r | r in LiveRoutes(done) ensures r in LiveRoutes(more) {
      var k :| k in done && done[k].Live() && done[k].route == r;
      assert more[k] == done[k];
    }
    assert more[key] == alert;
    forall r | r in LiveRoutes(more) && !(alert.Live() && r == alert.route) ensures r in LiveRoutes(done) {
      var k :| k in more && more[k].Live() && more[k].route == r;
      assert k != key && done[k] == more[k];
    }
  }

  lemma NoLiveKeys(done: Alerts, route: Route)
    requires route !in LiveRoutes(done)
    ensures LiveCount(done, route) == 0
  {
    assert LiveKeys(done, route) == {};
  }

  lemma RouteCountsAt(alerts: Alerts, route: Route)
    ensures route in RouteCounts(alerts) <==> route in LiveRoutes(alerts)
    ensures route in RouteCounts(alerts) ==> RouteCounts(alerts)[route] == LiveCount(alerts, route)
  {
  }

  lemma CountAt(done: Alerts, key: AlertKey, alert: Alert, route: Route)
    requires key !in done
    ensures
      var expected := if alert.Live() then OneMore(RouteCounts(done), alert.route) else RouteCounts(done);
      var counts := RouteCounts(done[key := alert]);
      (route in counts <==> route in expected) && (route in counts ==> counts[route] == expected[route])
  {
    LiveRoutesOneMore(done, key, alert);
    LiveKeysOneMore(done, key, alert, route);
    RouteCountsAt(done, route);
    RouteCountsAt(done[key := alert], route);
    if route !in LiveRoutes(done) {
      NoLiveKeys(done, route);
    }
  }

  lemma CountOneMore(done: Alerts, key: AlertKey, alert: Alert)
    requires key !in done
    ensures RouteCounts(done[key := alert]) == if alert.Live() then OneMore(RouteCounts(done), alert.route) else RouteCounts(done)
  {
    var expected := if alert.Live() then OneMore(RouteCounts(done), alert.route) else RouteCounts(done);
    var counts := RouteCounts(done[key := alert]);
    forall route ensures (route in counts <==> route in expected) && (route in counts ==> counts[route] == expected[route]) {
      CountAt(done, key, alert, route);
    }
  }

  function OneMore(counts: map<Route, nat>, route: Route): map<Route, nat> {
    counts[route := (if route in counts then counts[route] else 0) + 1]
  }

  // ----- by the alerts' own fields -----------------------------------------

  /** Some alert of the route is enabled, armed and about prices. */
  ghost predicate ArmedAt(alerts: Alerts, route: Route) {
    exists k :: k in alerts && alerts[k].route == route && alerts[k].enabled && alerts[k].armed && alerts[k].kind.Price?
  }

  /** A quote is published exactly when some alert of its route is enabled, armed and
      about prices; it then takes the next number. */
  lemma QuotesOfArmedPriceAlerts(r: Registry, capacity: nat, route: Route, quote: nat)
    requires Reachable(r, capacity)
    ensures
      var after := PublishQuote(r, capacity, route, quote);
      if ArmedAt(r.alerts, route) then
        after.sequence == r.sequence + 1 && after.inbox == Push(r.inbox, capacity, QuoteEvent(r.sequence + 1, route, quote))
      else after == r
  {
    var states, events :| IsRun(states, events, capacity) && states[|states| - 1] == r;
    EveryReachableRegistry(states, events, capacity, |states| - 1);
    assert ArmedAt(r.alerts, route) <==> route in LiveRoutes(r.alerts);
  }

  /** What is refused: an upsert of an alert that is disabled or neither armed nor
      fired, and one that would give two alerts the same definition. */
  lemma PublishRefusesIff(r: Registry, capacity: nat, mutation: Mutation)
    requires Reachable(r, capacity)
    ensures Publish(r, mutation).Failure? <==>
      && mutation.Upsert?
      && (|| !mutation.alert.enabled || !(mutation.alert.armed || mutation.alert.fired)
          || exists k :: k in r.alerts && k != mutation.alert.Key() && r.alerts[k].definition == mutation.alert.definition)
    ensures Publish(r, mutation).Success? ==>
      var after := Publish(r, mutation).value;
      && after.alerts == Apply(r.alerts, mutation)
      && after.revision == r.revision + (if Apply(r.alerts, mutation) == r.alerts then 0 else 1)
      && after.active == r.active && after.mutations == (if r.active.Some? then r.mutations + [mutation] else r.mutations)
  {
    var states, events :| IsRun(states, events, capacity) && states[|states| - 1] == r;
    EveryReachableRegistry(states, events, capacity, |states| - 1);
    if mutation.Upsert? {
      UpsertKeepsUniqueIff(r.alerts, mutation.alert);
    }
  }

  lemma UpsertKeepsUniqueIff(alerts: Alerts, alert: Alert)
    requires UniqueDefinitions(alerts)
    ensures UniqueDefinitions(Apply(alerts, Upsert(alert))) <==>
      !exists k :: k in alerts && k != alert.Key() && alerts[k].definition == alert.definition
  {
    var after := Apply(alerts, Upsert(alert));
    if k :| k in alerts && k != alert.Key() && alerts[k].definition == alert.definition {
      assert after[k].definition == after[alert.Key()].definition;
    }
  }

  predicate Readable(rows: seq<Alert>) {
    && (forall i :: 0 <= i < |rows| ==> rows[i].enabled && (rows[i].armed || rows[i].fired))
    && (forall i, j :: 0 <= i < j < |rows| ==> rows[i].Key() != rows[j].Key())
  }

  lemma ReadableStep(rows: seq<Alert>)
    requires rows != []
    ensures
      var n := |rows| - 1;
      Readable(rows) <==>
        && Readable(rows[..n]) && rows[n].enabled && (rows[n].armed || rows[n].fired)
        && forall i :: 0 <= i < n ==> rows[..n][i].Key() != rows[n].Key()
  {
    var n := |rows| - 1;
    if Readable(rows) {
      forall i | 0 <= i < n ensures rows[..n][i].Key() != rows[n].Key() {
        assert rows[i].Key() != rows[n].Key();
      }
    }
    assert rows == rows[..n] + [rows[n]];
  }

  /** The snapshot holds the rows, each under its own key, and nothing else. */
  lemma {:induction false} SnapshotHolds(rows: seq<Alert>)
    requires SnapshotOf(rows).Success?
    ensures
      var held := SnapshotOf(rows).value;
      && (forall i :: 0 <= i < |rows| ==> Lookup(held, rows[i].Key()) == Some(rows[i]))
      && (forall k :: k in held ==> exists i :: 0 <= i < |rows| && rows[i] == held[k] && rows[i].Key() == k)
  {
    if rows != [] {
      var n := |rows| - 1;
      SnapshotHolds(rows[..n]);
      var front, held := SnapshotOf(rows[..n]).value, SnapshotOf(rows).value;
      forall k | k in held ensures exists i :: 0 <= i < |rows| && rows[i] == held[k] && rows[i].Key() == k {
        if k == rows[n].Key() {
          assert rows[n] == held[k];
        } else {
          var i :| 0 <= i < n && rows[..n][i] == front[k] && rows[..n][i].Key() == k;
          assert rows[i] == held[k];
        }
      }
      forall i | 0 <= i < n ensures Lookup(held, rows[i].Key()) == Some(rows[i]) {
        assert rows[..n][i] == rows[i];
      }
    }
  }

  /** A snapshot is read exactly when every row is enabled and armed or fired, and no
      two are the same alert. */
  lemma {:induction false} SnapshotReadsIff(rows: seq<Alert>)
    ensures SnapshotOf(rows).Success? <==> Readable(rows)
  {
    if rows != [] {
      var n := |rows| - 1;
      SnapshotReadsIff(rows[..n]);
      ReadableStep(rows);
      if SnapshotOf(rows[..n]).Success? {
        SnapshotHolds(rows[..n]);
        KeyIsHeld(rows[..n], rows[n].Key());
      }
    }
  }

  lemma KeyIsHeld(rows: seq<Alert>, key: AlertKey)
    requires SnapshotOf(rows).Success?
    ensures key in SnapshotOf(rows).value <==> exists i :: 0 <= i < |rows| && rows[i].Key() == key
  {
    SnapshotHolds(rows);
    if i :| 0 <= i < |rows| && rows[i].Key() == key {
      assert Lookup(SnapshotOf(rows).value, rows[i].Key()) == Some(rows[i]);
    }
  }

  /** Installing a snapshot is refused exactly when it cannot be read, when it is not
      the active hydration that installs it, or when it and the mutations since then
      repeat a definition; otherwise the registry holds the snapshot with those
      mutations replayed. */
  lemma HydrateRefusesIff(r: Registry, rows: seq<Alert>, token: Option<nat>)
    ensures
      var hydrated := Hydrate(r, rows, token);
      && (hydrated.Success? <==>
            && Readable(rows) && SnapshotOf(rows).Success? && r.active == token
            && UniqueDefinitions(ApplyAll(SnapshotOf(rows).value, r.mutations)))
      && (hydrated.Success? ==>
            var after := hydrated.value;
            && after.alerts == ApplyAll(SnapshotOf(rows).value, r.mutations)
            && after.active.None? && after.mutations == [] && after.hydrated
            && after.revision == r.revision + (if after.alerts == r.alerts && r.hydrated then 0 else 1)
            && after.inbox == r.inbox && after.sequence == r.sequence)
  {
    SnapshotReadsIff(rows);
  }
}
