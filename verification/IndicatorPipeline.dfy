/** The indicator pipeline over dependency-ordered specs: dependencies are resolved
    against the specs present, ordered, and run with failures kept to themselves. */
module IndicatorPipeline {
  import opened Wrappers
  import opened DependencyOrder

  // ----- resolving dependencies --------------------------------------------

  /** What the indicator registry declares per id, and which ids are calculated. */
  datatype Registry = Registry(
    dependsOn: map<string, seq<string>>,
    required: map<string, seq<string>>,
    optional: map<string, seq<string>>,
    enabled: set<string>
  )

  function Declared(table: map<string, seq<string>>, id: string): seq<string> {
    if id in table then table[id] else []
  }

  function Candidates(registry: Registry, spec: Spec): seq<string> {
    Declared(registry.dependsOn, spec.id) + Declared(registry.required, spec.id)
      + Declared(registry.optional, spec.id) + spec.dependsOn
  }

  /** The spec's own dependencies always count, declared ones when calculated. */
  predicate Wanted(registry: Registry, spec: Spec, dep: string) {
    dep in spec.dependsOn || dep in registry.enabled
  }

  function Dependencies(registry: Registry, spec: Spec, available: set<string>, names: seq<string>): seq<string> {
    if names == [] then []
    else
      var front, dep := Dependencies(registry, spec, available, names[..|names| - 1]), names[|names| - 1];
      if dep in available && dep !in front && Wanted(registry, spec, dep) then front + [dep] else front
  }

  function ResolvedSpec(registry: Registry, spec: Spec, available: set<string>): Spec {
    Spec(spec.id, Dependencies(registry, spec, available, Candidates(registry, spec)))
  }

  function Resolved(registry: Registry, specs: seq<Spec>, available: set<string>): seq<Spec> {
    if specs == [] then []
    else Resolved(registry, specs[..|specs| - 1], available) + [ResolvedSpec(registry, specs[|specs| - 1], available)]
  }

  /** Each wanted, available name exactly once. */
  lemma {:induction false} DependenciesAre(registry: Registry, spec: Spec, available: set<string>, names: seq<string>)
    ensures
      var deps := Dependencies(registry, spec, available, names);
      && (forall d :: d in deps <==> d in names && d in available && Wanted(registry, spec, d))
      && (forall i, j :: 0 <= i < j < |deps| ==> deps[i] != deps[j])
  {
    if names != [] {
      var n := |names| - 1;
      DependenciesAre(registry, spec, available, names[..n]);
      assert forall d :: d in names <==> d in names[..n] || d == names[n];
    }
  }

  lemma {:induction false} ResolvedFacts(registry: Registry, specs: seq<Spec>, available: set<string>)
    ensures Ids(Resolved(registry, specs, available)) == Ids(specs)
    ensures forall s, d :: s in Resolved(registry, specs, available) && d in s.dependsOn ==> d in available
  {
    if specs != [] {
      var n := |specs| - 1;
      ResolvedFacts(registry, specs[..n], available);
      assert specs == specs[..n] + [specs[n]];
      IdsOneMore(specs[..n], specs[n]);
      IdsOneMore(Resolved(registry, specs[..n], available), ResolvedSpec(registry, specs[n], available));
      DependenciesAre(registry, specs[n], available, Candidates(registry, specs[n]));
    }
  }

  lemma DependenciesStep(registry: Registry, spec: Spec, available: set<string>, names: seq<string>, i: nat)
    requires i < |names|
    ensures
      var front, dep := Dependencies(registry, spec, available, names[..i]), names[i];
      Dependencies(registry, spec, available, names[..i + 1])
        == if dep in available && dep !in front && Wanted(registry, spec, dep) then front + [dep] else front
  {
    assert names[..i + 1][..i] == names[..i];
  }

  method ResolveDependencies(registry: Registry, spec: Spec, available: set<string>) returns (deps: seq<string>)
    ensures deps == ResolvedSpec(registry, spec, available).dependsOn
  {
    var names := Candidates(registry, spec);
    deps := [];
    for i := 0 to |names|
      invariant deps == Dependencies(registry, spec, available, names[..i])
    {
      DependenciesStep(registry, spec, available, names, i);
      if names[i] !in available || names[i] in deps {
        continue;
      }
      if names[i] in spec.dependsOn || names[i] in registry.enabled {
        deps := deps + [names[i]];
      }
    }
    assert names[..|names|] == names;
  }

  /** Resolves every spec, then orders the result. */
  method DependencyOrderedSpecs(registry: Registry, specs: seq<Spec>) returns (r: Result<seq<Spec>>)
    ensures r == LayerOrder(Collapsed(Resolved(registry, specs, Ids(specs))))
  {
    var available := Ids(specs);
    var out: seq<Spec> := [];
    for i := 0 to |specs|
      invariant out == Resolved(registry, specs[..i], available)
    {
      assert specs[..i + 1][..i] == specs[..i];
      var deps := ResolveDependencies(registry, specs[i], available);
      out := out + [Spec(specs[i].id, deps)];
    }
    assert specs[..|specs|] == specs;
    r := OrderSpecsByDependencies(out);
  }

  // ----- running -----------------------------------------------------------

  datatype Cause = MissingDependencies(ids: seq<string>) | HookFailed(detail: string)

  datatype Indicator = Value(content: nat) | Failed(cause: Cause)

  type Indicators = map<string, Indicator>

  /** What running one spec in a context does: an indicator with promoted
      candidates, or an exception. */
  datatype Run = Ran(content: nat, promoted: seq<nat>) | Raised(detail: string)

  type Hook = (Spec, Indicators) -> Run

  datatype Pipeline = Pipeline(indicators: Indicators, candidates: seq<nat>)

  function Missing(deps: seq<string>, present: set<string>): seq<string> {
    if deps == [] then []
    else
      var front, dep := Missing(deps[..|deps| - 1], present), deps[|deps| - 1];
      if dep in present then front else front + [dep]
  }

  lemma {:induction false} NoneMissing(deps: seq<string>, present: set<string>)
    ensures Missing(deps, present) == [] <==> forall d :: d in deps ==> d in present
  {
    if deps != [] {
      NoneMissing(deps[..|deps| - 1], present);
      assert forall d :: d in deps <==> d in deps[..|deps| - 1] || d == deps[|deps| - 1];
    }
  }

  function IndicatorOf(spec: Spec, context: Indicators, hook: Hook): Indicator {
    var missing := Missing(spec.dependsOn, context.Keys);
    if missing != [] then Failed(MissingDependencies(missing))
    else
      match hook(spec, context)
      case Ran(content, _) => Value(content)
      case Raised(detail) => Failed(HookFailed(detail))
  }

  function PromotedOf(spec: Spec, context: Indicators, hook: Hook): seq<nat> {
    if Missing(spec.dependsOn, context.Keys) != [] then []
    else
      match hook(spec, context)
      case Ran(_, promoted) => promoted
      case Raised(_) => []
  }

  function Execute(specs: seq<Spec>, hook: Hook): Pipeline {
    if specs == [] then Pipeline(map[], [])
    else
      var before, spec := Execute(specs[..|specs| - 1], hook), specs[|specs| - 1];
      Pipeline(
        before.indicators[spec.id := IndicatorOf(spec, before.indicators, hook)],
        before.candidates + PromotedOf(spec, before.indicators, hook))
  }

  /** Whether the runner can turn a failure into an error indicator. */
  type Reporter = (Spec, Cause) -> bool

  /** The spec at this place fails, and so does reporting it. */
  predicate Aborts(specs: seq<Spec>, hook: Hook, reporter: Reporter, i: nat)
    requires i < |specs|
  {
    var indicator := IndicatorOf(specs[i], Execute(specs[..i], hook).indicators, hook);
    indicator.Failed? && !reporter(specs[i], indicator.cause)
  }

  /** Runs every spec; only a failure that cannot be reported ends the run. */
  method ExecuteIndicatorPipeline(specs: seq<Spec>, hook: Hook, reporter: Reporter) returns (r: Result<Pipeline>)
    ensures r.Success? ==> r.value == Execute(specs, hook)
    ensures r.Failure? <==> exists i :: 0 <= i < |specs| && Aborts(specs, hook, reporter, i)
  {
    var indicators: Indicators, candidates := map[], [];
    for i := 0 to |specs|
      invariant Pipeline(indicators, candidates) == Execute(specs[..i], hook)
      invariant forall k :: 0 <= k < i ==> !Aborts(specs, hook, reporter, k)
    {
      assert specs[..i + 1][..i] == specs[..i];
      var missing := Missing(specs[i].dependsOn, indicators.Keys);
      var indicator, promoted := Failed(MissingDependencies(missing)), [];
      if missing == [] {
        match hook(specs[i], indicators)
        case Ran(content, found) => indicator, promoted := Value(content), found;
        case Raised(detail) => indicator := Failed(HookFailed(detail));
      }
      assert indicator == IndicatorOf(specs[i], Execute(specs[..i], hook).indicators, hook);
      if indicator.Failed? && !reporter(specs[i], indicator.cause) {
        assert Aborts(specs, hook, reporter, i);
        return Failure("INDICATOR_RUNNER_FAILED");
      }
      indicators := indicators[specs[i].id := indicator];
      candidates := candidates + promoted;
    }
    assert specs[..|specs|] == specs;
    r := Success(Pipeline(indicators, candidates));
  }

  // ----- what a run leaves behind ------------------------------------------

  /** A failed spec has an indicator like any other. */
  lemma {:induction false} EverySpecHasIndicator(specs: seq<Spec>, hook: Hook)
    ensures Execute(specs, hook).indicators.Keys == Ids(specs)
  {
    if specs != [] {
      var n := |specs| - 1;
      EverySpecHasIndicator(specs[..n], hook);
      assert specs == specs[..n] + [specs[n]];
      IdsOneMore(specs[..n], specs[n]);
    }
  }

  /** The spec at a place was run in the context of its predecessors, and its
      indicator is never replaced. */
  lemma {:induction false} IndicatorAfter(specs: seq<Spec>, hook: Hook, j: nat, n: nat)
    requires DistinctIds(specs) && j < n <= |specs|
    ensures
      var after := Execute(specs[..n], hook).indicators;
      specs[j].id in after && after[specs[j].id] == IndicatorOf(specs[j], Execute(specs[..j], hook).indicators, hook)
    decreases n
  {
    assert specs[..n][..n - 1] == specs[..n - 1];
    if n > j + 1 {
      IndicatorAfter(specs, hook, j, n - 1);
    }
  }

  lemma {:induction false} IndicatorAt(specs: seq<Spec>, hook: Hook, i: nat)
    requires DistinctIds(specs) && i < |specs|
    ensures
      var last := Execute(specs, hook).indicators;
      specs[i].id in last && last[specs[i].id] == IndicatorOf(specs[i], Execute(specs[..i], hook).indicators, hook)
  {
    assert specs[..|specs|] == specs;
    IndicatorAfter(specs, hook, i, |specs|);
  }

  /** Everything a spec depends on is among the specs. */
  ghost predicate Closed(specs: seq<Spec>) {
    forall s, d :: s in specs && d in s.dependsOn ==> d in Ids(specs)
  }

  lemma {:induction false} DependencyIsFinal(specs: seq<Spec>, ordered: seq<Spec>, hook: Hook, i: nat, d: string)
    requires Closed(specs) && IsOrder(specs, ordered) && i < |ordered| && d in ordered[i].dependsOn
    ensures
      var context, last := Execute(ordered[..i], hook).indicators, Execute(ordered, hook).indicators;
      d in context && d in last && context[d] == last[d] && Placed(ordered, i, d)
  {
    assert ordered[i] in specs;
    assert Placed(ordered, i, d);
    var p :| 0 <= p < i && p < |ordered| && ordered[p].id == d;
    IndicatorAfter(ordered, hook, p, i);
    IndicatorAt(ordered, hook, p);
  }

  /** In a good order no dependency is ever missing. */
  lemma NothingMissing(specs: seq<Spec>, ordered: seq<Spec>, hook: Hook, i: nat)
    requires Closed(specs) && IsOrder(specs, ordered) && i < |ordered|
    ensures Missing(ordered[i].dependsOn, Execute(ordered[..i], hook).indicators.Keys) == []
  {
    var context := Execute(ordered[..i], hook).indicators;
    forall d | d in ordered[i].dependsOn ensures d in context {
      DependencyIsFinal(specs, ordered, hook, i, d);
    }
    NoneMissing(ordered[i].dependsOn, context.Keys);
  }

  /** Resolved and successfully ordered, the pipeline never reports a missing
      dependency, whatever the specs and the registry say. */
  lemma PipelineNeverMisses(registry: Registry, specs: seq<Spec>, hook: Hook, id: string)
    requires
      var order := LayerOrder(Collapsed(Resolved(registry, specs, Ids(specs))));
      order.Success? && id in Execute(order.value, hook).indicators
    ensures
      var order := LayerOrder(Collapsed(Resolved(registry, specs, Ids(specs))));
      id in Ids(specs) && !MissingAnything(Execute(order.value, hook).indicators[id])
  {
    var resolved := Resolved(registry, specs, Ids(specs));
    var pending := Collapsed(resolved);
    ResolvedFacts(registry, specs, Ids(specs));
    CollapsedDistinct(resolved);
    CollapsedIds(resolved);
    forall s, d | s in pending && d in s.dependsOn ensures d in Ids(pending) {
      CollapsedKeepsLast(resolved, s);
      assert s in resolved;
    }
    OrdersIffAcyclic(pending);
    var ordered := LayerOrder(pending).value;
    OrderNeverMisses(pending, ordered, hook, id);
  }

  lemma OrderNeverMisses(pending: seq<Spec>, ordered: seq<Spec>, hook: Hook, id: string)
    requires Closed(pending) && IsOrder(pending, ordered) && id in Execute(ordered, hook).indicators
    ensures id in Ids(pending) && !MissingAnything(Execute(ordered, hook).indicators[id])
  {
    EverySpecHasIndicator(ordered, hook);
    var s :| s in ordered && s.id == id;
    var i :| 0 <= i < |ordered| && ordered[i] == s;
    IndicatorAt(ordered, hook, i);
    NothingMissing(pending, ordered, hook, i);
    assert s in pending;
  }

  predicate MissingAnything(indicator: Indicator) {
    indicator.Failed? && indicator.cause.MissingDependencies?
  }

  // ----- order and failures do not matter elsewhere ------------------------

  ghost predicate SameOn(deps: seq<string>, a: Indicators, b: Indicators) {
    forall d :: d in deps ==> d in a && d in b && a[d] == b[d]
  }

  /** A hook reads nothing but its declared dependencies. */
  ghost predicate Local(hook: Hook) {
    forall spec: Spec, a: Indicators, b: Indicators :: SameOn(spec.dependsOn, a, b) ==> hook(spec, a) == hook(spec, b)
  }

  /** A part of the specs that depends only on itself. */
  ghost predicate SelfContained(specs: seq<Spec>, part: set<string>) {
    forall s, d :: s in specs && s.id in part && d in s.dependsOn ==> d in part
  }

  ghost predicate AgreeOn(specs: seq<Spec>, part: set<string>, h: Hook, k: Hook) {
    forall s: Spec, context: Indicators :: s in specs && s.id in part ==> h(s, context) == k(s, context)
  }

  /** Two runs of the same specs, in any two good orders and with hooks that differ
      (fail, say) only outside a self-contained part, agree on every indicator of
      the part. With one hook and the whole set as the part: the result does not
      depend on the order. */
  lemma {:induction false} FailuresStayOutside(
      specs: seq<Spec>, part: set<string>, a: seq<Spec>, b: seq<Spec>, h: Hook, k: Hook, i: nat)
    requires Closed(specs) && IsOrder(specs, a) && IsOrder(specs, b)
    requires SelfContained(specs, part) && AgreeOn(specs, part, h, k) && Local(h)
    requires i < |a| && a[i].id in part
    ensures a[i].id in Execute(a, h).indicators && a[i].id in Execute(b, k).indicators
    ensures Execute(a, h).indicators[a[i].id] == Execute(b, k).indicators[a[i].id]
    decreases i
  {
    var spec := a[i];
    assert spec in specs && spec in b;
    var j :| 0 <= j < |b| && b[j] == spec;
    var x, y := Execute(a[..i], h).indicators, Execute(b[..j], k).indicators;
    IndicatorAt(a, h, i);
    IndicatorAt(b, k, j);
    NothingMissing(specs, a, h, i);
    NothingMissing(specs, b, k, j);
    forall d | d in spec.dependsOn ensures d in x && d in y && x[d] == y[d] {
      DependencyIsFinal(specs, a, h, i, d);
      DependencyIsFinal(specs, b, k, j, d);
      var p :| 0 <= p < i && p < |a| && a[p].id == d;
      FailuresStayOutside(specs, part, a, b, h, k, p);
    }
    assert SameOn(spec.dependsOn, x, y);
    assert h(spec, x) == h(spec, y) == k(spec, y);
  }

  // ----- what a hook may read ----------------------------------------------

  /** A hook that counts the indicators handed to it, its own dependencies or not. */
  const NOSY: Hook := (spec: Spec, context: Indicators) => Ran(|context|, [])

  const LEFT := Spec("left", [])
  const RIGHT := Spec("right", [])

  lemma EitherOrder(a: Spec, b: Spec)
    requires a.id != b.id && a.dependsOn == [] && b.dependsOn == []
    ensures IsOrder([a, b], [b, a]) && IsOrder([a, b], [a, b])
    ensures Execute([a, b], NOSY).indicators == map[a.id := Value(0), b.id := Value(1)]
  {
    assert [a, b][..1] == [a] && [a][..0] == [];
    assert Execute([], NOSY).indicators == map[];
    assert Execute([a], NOSY).indicators == map[a.id := Value(0)];
    assert |map[a.id := Value(0)]| == 1;
  }

  /** A hook may read the whole dictionary, and one that does sees the order: two
      specs that depend on nothing, run either way round. */
  lemma NosyHookSeesTheOrder()
    ensures
      var specs, turned := [LEFT, RIGHT], [RIGHT, LEFT];
      && IsOrder(specs, specs) && IsOrder(specs, turned) && !Local(NOSY)
      && Execute(specs, NOSY).indicators == map["left" := Value(0), "right" := Value(1)]
      && Execute(turned, NOSY).indicators == map["left" := Value(1), "right" := Value(0)]
  {
    EitherOrder(LEFT, RIGHT);
    EitherOrder(RIGHT, LEFT);
    var some: Indicators := map["x" := Value(0)];
    assert |some| == 1 && SameOn(LEFT.dependsOn, map[], some);
    assert NOSY(LEFT, map[]) != NOSY(LEFT, some);
  }

  // ----- what a run leaves behind ------------------------------------------

  /** With every dependency in place, a hook that ran leaves its content and one that
      raised leaves a failed indicator with its message; only hooks that ran promote
      candidates, appended in the order the specs run. */
  lemma HookDecides(specs: seq<Spec>, ordered: seq<Spec>, hook: Hook, i: nat)
    requires Closed(specs) && IsOrder(specs, ordered) && i < |ordered|
    ensures
      var before, after, last := Execute(ordered[..i], hook), Execute(ordered[..i + 1], hook), Execute(ordered, hook);
      ordered[i].id in last.indicators
      && match hook(ordered[i], before.indicators)
         case Ran(content, promoted) =>
           last.indicators[ordered[i].id] == Value(content) && after.candidates == before.candidates + promoted
         case Raised(detail) =>
           last.indicators[ordered[i].id] == Failed(HookFailed(detail)) && after.candidates == before.candidates
  {
    IndicatorAt(ordered, hook, i);
    NothingMissing(specs, ordered, hook, i);
    HookLeaves(ordered[i], Execute(ordered[..i], hook).indicators, hook);
    OneMoreRuns(ordered, hook, i);
  }

  lemma OneMoreRuns(ordered: seq<Spec>, hook: Hook, i: nat)
    requires i < |ordered|
    ensures
      var before := Execute(ordered[..i], hook);
      Execute(ordered[..i + 1], hook).candidates == before.candidates + PromotedOf(ordered[i], before.indicators, hook)
  {
    assert ordered[..i + 1][..i] == ordered[..i];
  }

  lemma HookLeaves(spec: Spec, context: Indicators, hook: Hook)
    requires Missing(spec.dependsOn, context.Keys) == []
    ensures
      match hook(spec, context)
      case Ran(content, promoted) =>
        IndicatorOf(spec, context, hook) == Value(content) && PromotedOf(spec, context, hook) == promoted
      case Raised(detail) =>
        IndicatorOf(spec, context, hook) == Failed(HookFailed(detail)) && PromotedOf(spec, context, hook) == []
  {
  }

  /** What was promoted stays, in front of what is promoted later. */
  lemma {:induction false} CandidatesStay(specs: seq<Spec>, hook: Hook, i: nat)
    requires i <= |specs|
    ensures Execute(specs[..i], hook).candidates <= Execute(specs, hook).candidates
    decreases |specs|
  {
    if i < |specs| {
      var n := |specs| - 1;
      CandidatesStay(specs[..n], hook, i);
      assert specs[..n][..i] == specs[..i];
    } else {
      assert specs[..i] == specs;
    }
  }

  // ----- what a spec comes to depend on ------------------------------------

  lemma DeclaredIn(table: map<string, seq<string>>, id: string, dep: string)
    ensures dep in Declared(table, id) <==> id in table && dep in table[id]
  {
  }

  /** A spec depends on what is present, is declared for it in any of the three tables
      or by itself, and is enabled or declared by itself. */
  lemma DependsOnIff(registry: Registry, spec: Spec, available: set<string>, dep: string)
    ensures
      var declared := (table: map<string, seq<string>>) => spec.id in table && dep in table[spec.id];
      dep in ResolvedSpec(registry, spec, available).dependsOn <==>
        && dep in available && (dep in spec.dependsOn || dep in registry.enabled)
        && (declared(registry.dependsOn) || declared(registry.required) || declared(registry.optional) || dep in spec.dependsOn)
  {
    DependenciesAre(registry, spec, available, Candidates(registry, spec));
    DeclaredIn(registry.dependsOn, spec.id, dep);
    DeclaredIn(registry.required, spec.id, dep);
    DeclaredIn(registry.optional, spec.id, dep);
  }
}
