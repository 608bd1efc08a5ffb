/** Hydrating the alert registry while mutations keep being committed: when it is
    refused, and what it ends with. */
module AlertHydration {
  import opened Wrappers
  import opened AlertReplay
  import opened AlertRegistry

  /** Publishes a log, mutation by mutation; fails at the first refusal. */
  function PublishAll(r: Registry, log: seq<Mutation>): Result<Registry> {
    if log == [] then Success(r)
    else
      var before := PublishAll(r, log[..|log| - 1]);
      if before.Failure? then before else Publish(before.value, log[|log| - 1])
  }

  /** Begin hydrating, publish `m` mutations of the log, install the rows, publish
      the rest; fails at the first refusal. */
  function HydrationRun(r: Registry, log: seq<Mutation>, m: nat, rows: seq<Alert>): Result<Registry>
    requires m <= |log|
  {
    var begun := BeginHydration(r);
    if begun.Failure? then begun
    else
      var published := PublishAll(begun.value, log[..m]);
      if published.Failure? then published
      else
        var loaded := Hydrate(published.value, rows, begun.value.active);
        if loaded.Failure? then loaded else PublishAll(loaded.value, log[m..])
  }

  predicate AllRetained(log: seq<Mutation>) {
    forall i :: 0 <= i < |log| ==> log[i].Upsert? ==> log[i].alert.Retained()
  }

  ghost predicate UniqueAfter(start: Alerts, log: seq<Mutation>, k: nat)
    requires k <= |log|
  {
    UniqueDefinitions(ApplyAll(start, log[..k]))
  }

  ghost predicate PrefixesUnique(start: Alerts, log: seq<Mutation>) {
    forall k :: 0 <= k <= |log| ==> UniqueAfter(start, log, k)
  }

  /** A history the durable store can have: it never holds an inert row, nor two
      alerts of one definition. */
  ghost predicate DurableHistory(durable: Alerts, log: seq<Mutation>) {
    AllRetained(log) && PrefixesUnique(durable, log)
  }

  ghost predicate Submap(a: Alerts, b: Alerts) {
    forall k :: k in a ==> k in b && a[k] == b[k]
  }

  /** The snapshot that contains `n` mutations, with the first `k` replayed over it. */
  function Mix(durable: Alerts, log: seq<Mutation>, n: nat, k: nat): Alerts
    requires n <= |log| && k <= |log|
  {
    ApplyAll(ApplyAll(durable, log[..n]), log[..k])
  }

  /** No replayed mix holds a definition twice, from the moment of installing until
      everything in the snapshot has been published. */
  ghost predicate MixesUnique(durable: Alerts, log: seq<Mutation>, n: nat, m: nat)
    requires n <= |log| && m <= |log|
  {
    forall k :: m <= k <= n ==> UniqueDefinitions(Mix(durable, log, n, k))
  }

  // ----- publishing a log --------------------------------------------------

  lemma {:induction false} PublishedLog(r: Registry, log: seq<Mutation>)
    requires PublishAll(r, log).Success?
    ensures
      var after := PublishAll(r, log).value;
      && after.alerts == ApplyAll(r.alerts, log)
      && after.active == r.active && after.hydrated == r.hydrated
      && after.mutations == if r.active.Some? then r.mutations + log else r.mutations
    decreases |log|
  {
    if log != [] {
      var n := |log| - 1;
      PublishedLog(r, log[..n]);
      assert r.mutations + log == (r.mutations + log[..n]) + [log[n]];
    }
  }

  lemma UniqueAfterPrefix(start: Alerts, log: seq<Mutation>, n: nat, k: nat)
    requires k <= n <= |log|
    ensures UniqueAfter(start, log[..n], k) <==> UniqueAfter(start, log, k)
  {
    assert log[..n][..k] == log[..k];
  }

  lemma PrefixesUniqueOneMore(start: Alerts, log: seq<Mutation>)
    requires log != []
    ensures PrefixesUnique(start, log) <==>
      PrefixesUnique(start, log[..|log| - 1]) && UniqueAfter(start, log, |log|)
  {
    var n := |log| - 1;
    forall k | 0 <= k <= n ensures UniqueAfter(start, log[..n], k) <==> UniqueAfter(start, log, k) {
      UniqueAfterPrefix(start, log, n, k);
    }
  }

  /** A log is published without refusal exactly when none of its states holds a
      definition twice. */
  lemma {:induction false} PublishAllIff(r: Registry, log: seq<Mutation>)
    requires UniqueDefinitions(r.alerts) && AllRetained(log)
    ensures PublishAll(r, log).Success? <==> PrefixesUnique(r.alerts, log)
    decreases |log|
  {
    if log == [] {
      assert log[..0] == [];
    } else {
      var n := |log| - 1;
      assert log[..|log|] == log;
      PublishAllIff(r, log[..n]);
      PrefixesUniqueOneMore(r.alerts, log);
      if PublishAll(r, log[..n]).Success? {
        PublishedLog(r, log[..n]);
        assert log[..n][..n] == log[..n] && UniqueAfter(r.alerts, log[..n], n);
        if !log[n].Upsert? {
          RemovalKeepsUnique(ApplyAll(r.alerts, log[..n]), log[n]);
        }
      }
    }
  }

  lemma {:induction false} SubmapApplies(a: Alerts, b: Alerts, log: seq<Mutation>)
    requires Submap(a, b)
    ensures Submap(ApplyAll(a, log), ApplyAll(b, log))
    decreases |log|
  {
    if log != [] {
      SubmapApplies(a, b, log[..|log| - 1]);
    }
  }

  lemma SubmapUnique(a: Alerts, b: Alerts)
    requires Submap(a, b) && UniqueDefinitions(b)
    ensures UniqueDefinitions(a)
  {
  }

  /** What holds fewer alerts than the durable store publishes whatever the store
      committed. */
  lemma SubmapPublishes(a: Alerts, durable: Alerts, log: seq<Mutation>)
    requires Submap(a, durable) && PrefixesUnique(durable, log)
    ensures PrefixesUnique(a, log)
  {
    forall k | 0 <= k <= |log| ensures UniqueAfter(a, log, k) {
      assert UniqueAfter(durable, log, k);
      SubmapApplies(a, durable, log[..k]);
      SubmapUnique(ApplyAll(a, log[..k]), ApplyAll(durable, log[..k]));
    }
  }

  // ----- the replayed mixes ------------------------------------------------

  lemma MixContinues(durable: Alerts, log: seq<Mutation>, n: nat, m: nat, j: nat)
    requires n <= |log| && m + j <= |log|
    ensures ApplyAll(Mix(durable, log, n, m), log[m..][..j]) == Mix(durable, log, n, m + j)
  {
    assert log[..m + j] == log[..m] + log[m..][..j];
    ApplyAllSplits(ApplyAll(durable, log[..n]), log[..m], log[m..][..j]);
  }

  /** Once everything in the snapshot is replayed, the mix is the durable state. */
  lemma MixSettles(durable: Alerts, log: seq<Mutation>, n: nat, k: nat)
    requires n <= k <= |log|
    ensures Mix(durable, log, n, k) == ApplyAll(durable, log[..k])
  {
    var part := log[..k];
    ReplayConverges(durable, part, n, k);
    assert part[..n] == log[..n] && part[..k] == part && part[k..] == [];
  }

  /** After installing, the rest is published without refusal exactly when no later
      mix holds a definition twice. */
  lemma RestPublishesIff(durable: Alerts, log: seq<Mutation>, n: nat, m: nat)
    requires n <= |log| && m <= |log| && PrefixesUnique(durable, log)
    ensures UniqueDefinitions(Mix(durable, log, n, m)) && PrefixesUnique(Mix(durable, log, n, m), log[m..])
       <==> MixesUnique(durable, log, n, m)
  {
    forall k | n <= k <= |log| ensures UniqueDefinitions(Mix(durable, log, n, k)) {
      MixSettles(durable, log, n, k);
      assert UniqueAfter(durable, log, k);
    }
    forall j | 0 <= j <= |log[m..]| ensures ApplyAll(Mix(durable, log, n, m), log[m..][..j]) == Mix(durable, log, n, m + j) {
      MixContinues(durable, log, n, m, j);
    }
    if PrefixesUnique(Mix(durable, log, n, m), log[m..]) {
      forall k | m <= k <= n ensures UniqueDefinitions(Mix(durable, log, n, k)) {
        assert UniqueAfter(Mix(durable, log, n, m), log[m..], k - m);
      }
    }
    if MixesUnique(durable, log, n, m) {
      forall j | 0 <= j <= |log[m..]| ensures UniqueAfter(Mix(durable, log, n, m), log[m..], j) {
        assert m + j <= n ==> UniqueDefinitions(Mix(durable, log, n, m + j));
      }
      assert log[m..][..0] == [] && UniqueAfter(Mix(durable, log, n, m), log[m..], 0);
    }
  }

  // ----- hydration over a whole window -------------------------------------

  lemma BegunPublishes(r: Registry, durable: Alerts, log: seq<Mutation>, m: nat)
    requires m <= |log| && BeginHydration(r).Success?
    requires Submap(r.alerts, durable) && DurableHistory(durable, log)
    ensures
      var begun := BeginHydration(r).value;
      var published := PublishAll(begun, log[..m]);
      published.Success? && published.value.active == begun.active && published.value.mutations == log[..m]
  {
    var begun := BeginHydration(r).value;
    SubmapPublishes(r.alerts, durable, log);
    forall k | 0 <= k <= m ensures UniqueAfter(r.alerts, log[..m], k) {
      UniqueAfterPrefix(r.alerts, log, m, k);
    }
    assert log[..0] == [] && UniqueAfter(r.alerts, log, 0);
    PublishAllIff(begun, log[..m]);
    PublishedLog(begun, log[..m]);
    assert begun.mutations + log[..m] == log[..m];
  }

  lemma InstallIff(p: Registry, snapshot: Alerts, rows: seq<Alert>)
    requires p.active.Some? && SnapshotOf(rows) == Success(snapshot)
    ensures
      var loaded, next := Hydrate(p, rows, p.active), ApplyAll(snapshot, p.mutations);
      && (loaded.Success? <==> UniqueDefinitions(next))
      && (loaded.Success? ==> loaded.value.alerts == next && loaded.value.hydrated && loaded.value.active.None?)
  {
  }

  /** The rest of a run, once the rows are installed. */
  lemma RestReaches(loaded: Registry, durable: Alerts, log: seq<Mutation>, n: nat, m: nat)
    requires n <= |log| && m <= |log| && DurableHistory(durable, log)
    requires loaded.alerts == Mix(durable, log, n, m) && UniqueDefinitions(loaded.alerts)
    requires loaded.hydrated && loaded.active.None?
    ensures PublishAll(loaded, log[m..]).Success? <==> MixesUnique(durable, log, n, m)
    ensures PublishAll(loaded, log[m..]).Success? ==>
      var last := PublishAll(loaded, log[m..]).value;
      last.alerts == ApplyAll(durable, log) && last.hydrated && last.active.None?
  {
    RestPublishesIff(durable, log, n, m);
    RetainedTail(log, m);
    PublishAllIff(loaded, log[m..]);
    if PublishAll(loaded, log[m..]).Success? {
      PublishedLog(loaded, log[m..]);
      ReplayConverges(durable, log, n, m);
    }
  }

  /** Begin hydrating, keep publishing mutations in commit order, install a snapshot
      that contains any `n` of them, and keep publishing: nothing is refused exactly
      when no replayed mix holds a definition twice, and then the registry equals
      the durable state. A snapshot that is not ahead of what has been published is
      never refused. */
  lemma {:induction false} HydrationReachesDurableState(r: Registry, durable: Alerts, log: seq<Mutation>, n: nat, m: nat, rows: seq<Alert>)
    requires n <= |log| && m <= |log| && BeginHydration(r).Success?
    requires Submap(r.alerts, durable) && DurableHistory(durable, log)
    requires SnapshotOf(rows) == Success(ApplyAll(durable, log[..n]))
    ensures HydrationRun(r, log, m, rows).Success? <==> MixesUnique(durable, log, n, m)
    ensures n <= m ==> HydrationRun(r, log, m, rows).Success?
    ensures HydrationRun(r, log, m, rows).Success? ==>
      var last := HydrationRun(r, log, m, rows).value;
      last.alerts == ApplyAll(durable, log) && last.hydrated && last.active.None?
  {
    var begun := BeginHydration(r).value;
    BegunPublishes(r, durable, log, m);
    var published := PublishAll(begun, log[..m]).value;
    InstallIff(published, ApplyAll(durable, log[..n]), rows);
    var loaded := Hydrate(published, rows, begun.active);
    if loaded.Success? {
      RestReaches(loaded.value, durable, log, n, m);
    } else {
      RestPublishesIff(durable, log, n, m);
    }
    if n <= m {
      NotAhead(durable, log, n, m);
    }
  }

  lemma NotAhead(durable: Alerts, log: seq<Mutation>, n: nat, m: nat)
    requires n <= m <= |log| && PrefixesUnique(durable, log)
    ensures MixesUnique(durable, log, n, m)
  {
    MixSettles(durable, log, n, m);
    assert UniqueAfter(durable, log, m);
  }

  lemma RetainedTail(log: seq<Mutation>, m: nat)
    requires AllRetained(log) && m <= |log|
    ensures AllRetained(log[m..])
  {
  }

  // ----- a snapshot ahead of the publications ------------------------------

  const DESK := Route("desk", "desk")

  /** Two alerts that own the same definition, one after the other. */
  function Twin(id: string): Alert {
    Alert(id, DESK, "5m", Price, "above 100", true, true, false, 0)
  }

  const REPLACED := [Upsert(Twin("a")), Remove(AlertKey("a", DESK)), Upsert(Twin("b"))]

  /** An alert is stored, deleted and replaced by one of the same definition; only
      the first commit has been published when the snapshot, which holds the
      replacement, is installed. The log is a legal history and the snapshot is the
      durable state, yet the installation is refused. */
  lemma SnapshotAheadIsRefused()
    ensures DurableHistory(map[], REPLACED)
    ensures SnapshotOf([Twin("b")]) == Success(ApplyAll(map[], REPLACED))
    ensures HydrationRun(EMPTY_REGISTRY, REPLACED, 1, [Twin("b")]) == Failure("PRICE_ALERT_SEMANTIC_DUPLICATE")
  {
    var a, b := Twin("a"), Twin("b");
    ReplacedStates();
    SnapshotOfOne(b);
    forall k | 0 <= k <= 3 ensures UniqueAfter(map[], REPLACED, k) {
    }
    var begun := BeginHydration(EMPTY_REGISTRY).value;
    assert REPLACED[..1] == [Upsert(a)];
    PublishOne(begun, a);
    ApplyOne(map[b.Key() := b], a);
    var mixed: Alerts := map[b.Key() := b][a.Key() := a];
    assert !UniqueDefinitions(mixed) by {
      assert a.Key() != b.Key() && mixed[a.Key()].definition == mixed[b.Key()].definition;
    }
  }

  lemma ApplyOne(start: Alerts, alert: Alert)
    ensures ApplyAll(start, [Upsert(alert)]) == start[alert.Key() := alert]
  {
    assert [Upsert(alert)][..0] == [];
  }

  lemma SnapshotOfOne(alert: Alert)
    requires alert.Retained()
    ensures SnapshotOf([alert]) == Success(map[alert.Key() := alert])
  {
    assert [alert][..0] == [];
  }

  lemma PublishOne(r: Registry, alert: Alert)
    requires r.alerts == map[] && alert.Retained()
    ensures PublishAll(r, [Upsert(alert)]).Success?
    ensures PublishAll(r, [Upsert(alert)]).value.mutations == if r.active.Some? then r.mutations + [Upsert(alert)] else r.mutations
    ensures PublishAll(r, [Upsert(alert)]).value.active == r.active
  {
    assert [Upsert(alert)][..0] == [];
  }

  lemma ReplacedStates()
    ensures ApplyAll(map[], REPLACED[..0]) == map[]
    ensures ApplyAll(map[], REPLACED[..1]) == map[Twin("a").Key() := Twin("a")]
    ensures ApplyAll(map[], REPLACED[..2]) == map[]
    ensures ApplyAll(map[], REPLACED[..3]) == ApplyAll(map[], REPLACED) == map[Twin("b").Key() := Twin("b")]
  {
    assert REPLACED[..0] == [];
    assert REPLACED[..1][..0] == [] && REPLACED[..1][0] == Upsert(Twin("a"));
    assert REPLACED[..2][..1] == REPLACED[..1];
    assert REPLACED[..3][..2] == REPLACED[..2] && REPLACED[..3] == REPLACED;
  }
}
