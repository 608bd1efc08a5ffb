/** Alert mutations, and why replaying a mutation log over a snapshot that already
    contains part of it is harmless. */
module AlertReplay {
  import opened Wrappers

  datatype Route = Route(instrumentId: string, routeFingerprint: string)

  datatype AlertKey = AlertKey(id: string, route: Route)

  datatype Kind = Price | OtherKind

  /** A validated alert: `definition` is its canonical definition identity, `body`
      everything the registry only stores. */
  datatype Alert = Alert(
    id: string,
    route: Route,
    timeframe: string,
    kind: Kind,
    definition: string,
    enabled: bool,
    armed: bool,
    fired: bool,
    body: nat
  ) {
    function Key(): AlertKey {
      AlertKey(id, route)
    }

    /** Belongs in durable and process-owned state. */
    predicate Retained() {
      enabled && (armed || fired)
    }

    /** Consumes live quotes of its route. */
    predicate Live() {
      enabled && armed && kind.Price?
    }
  }

  datatype Mutation =
    | Upsert(alert: Alert)
    | Remove(key: AlertKey)
    | RemoveScope(route: Route, timeframe: string)

  type Alerts = map<AlertKey, Alert>

  predicate InScope(alert: Alert, route: Route, timeframe: string) {
    alert.route == route && alert.timeframe == timeframe
  }

  function Apply(alerts: Alerts, mutation: Mutation): Alerts {
    match mutation
    case Upsert(alert) => alerts[alert.Key() := alert]
    case Remove(key) => alerts - {key}
    case RemoveScope(route, timeframe) =>
      map k | k in alerts && !InScope(alerts[k], route, timeframe) :: alerts[k]
  }

  function ApplyAll(alerts: Alerts, log: seq<Mutation>): Alerts {
    if log == [] then alerts else Apply(ApplyAll(alerts, log[..|log| - 1]), log[|log| - 1])
  }

  function Lookup(alerts: Alerts, key: AlertKey): Option<Alert> {
    if key in alerts then Some(alerts[key]) else None
  }

  // ----- one key at a time -------------------------------------------------

  /** What one mutation makes of the value stored under one key. */
  function ValueAfter(mutation: Mutation, key: AlertKey, value: Option<Alert>): Option<Alert> {
    match mutation
    case Upsert(alert) => if alert.Key() == key then Some(alert) else value
    case Remove(k) => if k == key then None else value
    case RemoveScope(route, timeframe) =>
      if value.Some? && InScope(value.value, route, timeframe) then None else value
  }

  function ValueAfterAll(log: seq<Mutation>, key: AlertKey, value: Option<Alert>): Option<Alert> {
    if log == [] then value
    else ValueAfter(log[|log| - 1], key, ValueAfterAll(log[..|log| - 1], key, value))
  }

  /** Keys do not interact. */
  lemma {:induction false} ApplyAllAt(alerts: Alerts, log: seq<Mutation>, key: AlertKey)
    ensures Lookup(ApplyAll(alerts, log), key) == ValueAfterAll(log, key, Lookup(alerts, key))
    decreases |log|
  {
    if log != [] {
      ApplyAllAt(alerts, log[..|log| - 1], key);
    }
  }

  /** What each mutation leaves, by the alerts' own fields: an upsert replaces one key,
      a removal drops one, and a scope removal drops the alerts of one instrument,
      route and timeframe, whatever their ids. */
  lemma MutationLeaves(alerts: Alerts, mutation: Mutation, key: AlertKey)
    ensures
      var after := Apply(alerts, mutation);
      match mutation
      case Upsert(alert) =>
        var own := key.id == alert.id && key.route.instrumentId == alert.route.instrumentId
          && key.route.routeFingerprint == alert.route.routeFingerprint;
        Lookup(after, key) == if own then Some(alert) else Lookup(alerts, key)
      case Remove(removed) => Lookup(after, key) == if key == removed then None else Lookup(alerts, key)
      case RemoveScope(route, timeframe) =>
        Lookup(after, key) ==
          if key in alerts && alerts[key].route.instrumentId == route.instrumentId
             && alerts[key].route.routeFingerprint == route.routeFingerprint && alerts[key].timeframe == timeframe then None
          else Lookup(alerts, key)
  {
  }

  /** The log sets or removes this very key somewhere. */
  predicate Decides(log: seq<Mutation>, key: AlertKey) {
    exists i :: 0 <= i < |log| &&
      ((log[i].Upsert? && log[i].alert.Key() == key) || (log[i].Remove? && log[i].key == key))
  }

  predicate Scopes(log: seq<Mutation>, alert: Alert) {
    exists i :: 0 <= i < |log| && log[i].RemoveScope? && InScope(alert, log[i].route, log[i].timeframe)
  }

  /** A log that decides a key forgets what was there before. */
  lemma {:induction false} DecidedIsConstant(log: seq<Mutation>, key: AlertKey, v: Option<Alert>, w: Option<Alert>)
    requires Decides(log, key)
    ensures ValueAfterAll(log, key, v) == ValueAfterAll(log, key, w)
    decreases |log|
  {
    var n := |log| - 1;
    if (log[n].Upsert? && log[n].alert.Key() == key) || (log[n].Remove? && log[n].key == key) {
    } else {
      var i :| 0 <= i < |log| &&
        ((log[i].Upsert? && log[i].alert.Key() == key) || (log[i].Remove? && log[i].key == key));
      assert log[..n][i] == log[i];
      DecidedIsConstant(log[..n], key, v, w);
    }
  }

  /** A log that does not decide a key can only remove its value by scope. */
  lemma {:induction false} UndecidedFilters(log: seq<Mutation>, key: AlertKey, v: Option<Alert>)
    requires !Decides(log, key)
    ensures ValueAfterAll(log, key, v) == if v.Some? && Scopes(log, v.value) then None else v
    decreases |log|
  {
    if log != [] {
      var n := |log| - 1;
      assert forall i :: 0 <= i < n ==> log[..n][i] == log[i];
      assert !(log[n].Upsert? && log[n].alert.Key() == key) && !(log[n].Remove? && log[n].key == key);
      UndecidedFilters(log[..n], key, v);
    }
  }

  /** Applying a log twice is applying it once. */
  lemma LogIsIdempotent(log: seq<Mutation>, key: AlertKey, v: Option<Alert>)
    ensures ValueAfterAll(log, key, ValueAfterAll(log, key, v)) == ValueAfterAll(log, key, v)
  {
    if Decides(log, key) {
      DecidedIsConstant(log, key, v, ValueAfterAll(log, key, v));
    } else {
      UndecidedFilters(log, key, v);
      UndecidedFilters(log, key, ValueAfterAll(log, key, v));
    }
  }

  lemma {:induction false} ValuesCompose(a: seq<Mutation>, b: seq<Mutation>, key: AlertKey, v: Option<Alert>)
    ensures ValueAfterAll(a + b, key, v) == ValueAfterAll(b, key, ValueAfterAll(a, key, v))
    decreases |b|
  {
    if b == [] {
      assert a + b == a;
    } else {
      assert (a + b)[..|a + b| - 1] == a + b[..|b| - 1];
      ValuesCompose(a, b[..|b| - 1], key, v);
    }
  }

  lemma SameLookups(a: Alerts, b: Alerts)
    requires forall k :: Lookup(a, k) == Lookup(b, k)
    ensures a == b
  {
    forall k ensures k in a <==> k in b {
      assert Lookup(a, k) == Lookup(b, k);
    }
    forall k | k in a ensures a[k] == b[k] {
      assert Lookup(a, k) == Lookup(b, k);
    }
  }

  lemma ApplyAllSplits(alerts: Alerts, a: seq<Mutation>, b: seq<Mutation>)
    ensures ApplyAll(alerts, a + b) == ApplyAll(ApplyAll(alerts, a), b)
  {
    forall k ensures Lookup(ApplyAll(alerts, a + b), k) == Lookup(ApplyAll(ApplyAll(alerts, a), b), k) {
      ApplyAllAt(alerts, a + b, k);
      ApplyAllAt(alerts, a, k);
      ApplyAllAt(ApplyAll(alerts, a), b, k);
      ValuesCompose(a, b, k, Lookup(alerts, k));
    }
    SameLookups(ApplyAll(alerts, a + b), ApplyAll(ApplyAll(alerts, a), b));
  }

  /** Replay: a snapshot that already contains any prefix of the log, run through
      the whole log, ends where the starting state does. So a registry hydrated
      from a snapshot read at any moment after hydration began, with `m` mutations
      published before the snapshot was installed and the rest after it, equals
      the durable state once everything is published. */
  lemma ReplayConverges(start: Alerts, log: seq<Mutation>, n: nat, m: nat)
    requires n <= |log| && m <= |log|
    ensures
      var snapshot := ApplyAll(start, log[..n]);
      ApplyAll(ApplyAll(snapshot, log[..m]), log[m..]) == ApplyAll(start, log)
  {
    var snapshot := ApplyAll(start, log[..n]);
    assert log == log[..m] + log[m..] == log[..n] + log[n..];
    ApplyAllSplits(snapshot, log[..m], log[m..]);
    forall k ensures Lookup(ApplyAll(snapshot, log), k) == Lookup(ApplyAll(start, log), k) {
      var v := Lookup(start, k);
      ApplyAllAt(snapshot, log, k);
      ApplyAllAt(start, log, k);
      ApplyAllAt(start, log[..n], k);
      ValuesCompose(log[..n], log[n..], k, v);
      ValuesCompose(log[..n], log[n..], k, ValueAfterAll(log[..n], k, v));
      LogIsIdempotent(log[..n], k, v);
    }
    SameLookups(ApplyAll(snapshot, log), ApplyAll(start, log));
  }
}
