/** Layered ordering of indicator specs by their dependencies: it succeeds exactly
    when the dependencies have no cycle. */
module DependencyOrder {
  import opened Wrappers

  datatype Spec = Spec(id: string, dependsOn: seq<string>)

  function Ids(specs: seq<Spec>): set<string> {
    set s | s in specs :: s.id
  }

  ghost predicate DistinctIds(specs: seq<Spec>) {
    forall i, j :: 0 <= i < j < |specs| ==> specs[i].id != specs[j].id
  }

  /** No dependency among the given ids. */
  predicate Free(spec: Spec, ids: set<string>) {
    forall d :: d in spec.dependsOn ==> d !in ids
  }

  /** The specs that are (or are not) free of the given ids, in order. */
  function Select(specs: seq<Spec>, ids: set<string>, free: bool): seq<Spec> {
    if specs == [] then []
    else
      var front, last := Select(specs[..|specs| - 1], ids, free), specs[|specs| - 1];
      if Free(last, ids) == free then front + [last] else front
  }

  lemma {:induction false} SelectFacts(specs: seq<Spec>, ids: set<string>, free: bool)
    ensures forall s :: s in Select(specs, ids, free) <==> s in specs && Free(s, ids) == free
    ensures |Select(specs, ids, true)| + |Select(specs, ids, false)| == |specs|
    ensures DistinctIds(specs) ==> DistinctIds(Select(specs, ids, free))
  {
    SelectMembers(specs, ids, free);
    SelectCounts(specs, ids);
    if DistinctIds(specs) {
      SelectDistinct(specs, ids, free);
    }
  }

  lemma {:induction false} SelectMembers(specs: seq<Spec>, ids: set<string>, free: bool)
    ensures forall s :: s in Select(specs, ids, free) <==> s in specs && Free(s, ids) == free
  {
    if specs != [] {
      var n := |specs| - 1;
      SelectMembers(specs[..n], ids, free);
      assert forall s :: s in specs <==> s in specs[..n] || s == specs[n];
    }
  }

  lemma {:induction false} SelectCounts(specs: seq<Spec>, ids: set<string>)
    ensures |Select(specs, ids, true)| + |Select(specs, ids, false)| == |specs|
  {
    if specs != [] {
      SelectCounts(specs[..|specs| - 1], ids);
    }
  }

  lemma {:induction false} SelectDistinct(specs: seq<Spec>, ids: set<string>, free: bool)
    requires DistinctIds(specs)
    ensures DistinctIds(Select(specs, ids, free))
  {
    if specs != [] {
      var n := |specs| - 1;
      SelectDistinct(specs[..n], ids, free);
      SelectMembers(specs[..n], ids, free);
      var front := Select(specs[..n], ids, free);
      assert forall i :: 0 <= i < |front| ==> front[i] in specs[..n];
    }
  }

  /** Layer by layer: every spec whose dependencies are all placed, in the order
      given, until none is left; an empty layer is an error. */
  function LayerOrder(pending: seq<Spec>): Result<seq<Spec>>
    decreases |pending|
  {
    if pending == [] then Success([])
    else
      var ready := Select(pending, Ids(pending), true);
      SelectFacts(pending, Ids(pending), true);
      if ready == [] then Failure("INDICATOR_DEPENDENCIES_UNRESOLVED")
      else
        var rest := LayerOrder(Select(pending, Ids(pending), false));
        if rest.Failure? then rest else Success(ready + rest.value)
  }

  // ----- what a good order is ----------------------------------------------

  predicate Placed(ordered: seq<Spec>, n: nat, id: string) {
    exists j :: 0 <= j < n && j < |ordered| && ordered[j].id == id
  }

  /** Each spec's dependencies among the given ids come strictly earlier. */
  ghost predicate DependenciesFirst(ordered: seq<Spec>, ids: set<string>) {
    forall i, d :: 0 <= i < |ordered| && d in ordered[i].dependsOn && d in ids ==> Placed(ordered, i, d)
  }

  /** Exactly the given specs, each once, dependencies first. */
  ghost predicate IsOrder(specs: seq<Spec>, ordered: seq<Spec>) {
    && (forall s :: s in ordered <==> s in specs)
    && |ordered| == |specs| && DistinctIds(ordered)
    && DependenciesFirst(ordered, Ids(specs))
  }

  lemma {:induction false} LayerOrderIsOrder(pending: seq<Spec>)
    requires DistinctIds(pending) && LayerOrder(pending).Success?
    ensures IsOrder(pending, LayerOrder(pending).value)
    decreases |pending|
  {
    if pending != [] {
      var ids := Ids(pending);
      var ready, waiting := Select(pending, ids, true), Select(pending, ids, false);
      SelectFacts(pending, ids, true);
      SelectFacts(pending, ids, false);
      var rest := LayerOrder(waiting).value;
      LayerOrderIsOrder(waiting);
      Joined(pending, ready, rest);
      OrderJoins(ids, ready, waiting, rest);
    }
  }

  lemma Joined(pending: seq<Spec>, ready: seq<Spec>, rest: seq<Spec>)
    requires DistinctIds(pending) && DistinctIds(ready) && DistinctIds(rest)
    requires forall s :: s in ready ==> s in pending
    requires forall s :: s in rest ==> s in pending && s !in ready
    ensures DistinctIds(ready + rest)
  {
    var all := ready + rest;
    forall i, j | 0 <= i < |ready| <= j < |all| ensures all[i].id != all[j].id {
      assert all[i] in ready && all[j] == rest[j - |ready|] && all[j] in rest;
      var a :| 0 <= a < |pending| && pending[a] == all[i];
      var b :| 0 <= b < |pending| && pending[b] == all[j];
      assert a != b;
    }
  }

  lemma OrderJoins(ids: set<string>, ready: seq<Spec>, waiting: seq<Spec>, rest: seq<Spec>)
    requires forall s :: s in ready ==> Free(s, ids)
    requires ids == Ids(ready) + Ids(waiting)
    requires DependenciesFirst(rest, Ids(waiting))
    ensures DependenciesFirst(ready + rest, ids)
  {
    var all := ready + rest;
    assert forall i :: 0 <= i < |ready| ==> all[i] in ready && Free(all[i], ids);
    forall i, d | |ready| <= i < |all| && d in all[i].dependsOn && d in ids ensures Placed(all, i, d) {
      if d in Ids(waiting) {
        assert rest[i - |ready|] == all[i];
        var j :| 0 <= j < i - |ready| && j < |rest| && rest[j].id == d;
        assert all[|ready| + j].id == d;
      } else {
        var s :| s in ready && s.id == d;
        var j :| 0 <= j < |ready| && ready[j] == s;
        assert all[j].id == d;
      }
    }
  }

  // ----- cycles ------------------------------------------------------------

  /** `a` depends on `b`, both of them given. */
  ghost predicate Edge(specs: seq<Spec>, a: string, b: string) {
    b in Ids(specs) && exists s :: s in specs && s.id == a && b in s.dependsOn
  }

  ghost predicate IsWalk(specs: seq<Spec>, path: seq<string>) {
    forall i :: 0 < i < |path| ==> Edge(specs, path[i - 1], path[i])
  }

  ghost predicate IsCycle(specs: seq<Spec>, path: seq<string>) {
    path != [] && IsWalk(specs, path) && Edge(specs, path[|path| - 1], path[0])
  }

  ghost predicate Cyclic(specs: seq<Spec>) {
    exists path :: IsCycle(specs, path)
  }

  /** Follows dependencies until an id repeats. */
  lemma NextOnWalk(specs: seq<Spec>, id: string) returns (d: string)
    requires forall s :: s in specs ==> !Free(s, Ids(specs))
    requires id in Ids(specs)
    ensures d in Ids(specs) && Edge(specs, id, d)
  {
    var s :| s in specs && s.id == id;
    assert !Free(s, Ids(specs));
    d :| d in s.dependsOn && d in Ids(specs);
  }

  lemma {:induction false} WalkToCycle(specs: seq<Spec>, path: seq<string>)
    requires forall s :: s in specs ==> !Free(s, Ids(specs))
    requires path != [] && IsWalk(specs, path) && (forall i :: 0 <= i < |path| ==> path[i] in Ids(specs))
    requires forall i, j :: 0 <= i < j < |path| ==> path[i] != path[j]
    ensures Cyclic(specs)
    decreases |Ids(specs)| - |path|
  {
    DistinctPath(path, Ids(specs));
    var d := NextOnWalk(specs, path[|path| - 1]);
    if d in path {
      var k :| 0 <= k < |path| && path[k] == d;
      assert IsCycle(specs, path[k..]);
    } else {
      DistinctPath(path + [d], Ids(specs));
      WalkToCycle(specs, path + [d]);
    }
  }

  lemma {:induction false} DistinctPath(path: seq<string>, ids: set<string>)
    requires forall i :: 0 <= i < |path| ==> path[i] in ids
    requires forall i, j :: 0 <= i < j < |path| ==> path[i] != path[j]
    ensures |path| <= |ids|
  {
    if path != [] {
      var n := |path| - 1;
      DistinctPath(path[..n], ids - {path[n]});
    }
  }

  lemma MoreSpecsKeepCycles(specs: seq<Spec>, more: seq<Spec>)
    requires forall s :: s in specs ==> s in more
    ensures Cyclic(specs) ==> Cyclic(more)
  {
    if Cyclic(specs) {
      var path :| IsCycle(specs, path);
      forall a, b | Edge(specs, a, b) ensures Edge(more, a, b) {
        var s :| s in specs && s.id == a && b in s.dependsOn;
        var t :| t in specs && t.id == b;
        assert s in more && t in more;
      }
      assert IsCycle(more, path);
    }
  }

  lemma {:induction false} StuckMeansCyclic(pending: seq<Spec>)
    requires LayerOrder(pending).Failure?
    ensures Cyclic(pending)
    decreases |pending|
  {
    var ids := Ids(pending);
    SelectFacts(pending, ids, true);
    SelectFacts(pending, ids, false);
    if Select(pending, ids, true) == [] {
      assert pending[0] in pending;
      WalkToCycle(pending, [pending[0].id]);
    } else {
      StuckMeansCyclic(Select(pending, ids, false));
      MoreSpecsKeepCycles(Select(pending, ids, false), pending);
    }
  }

  lemma SpecAt(ordered: seq<Spec>, s: Spec, i: nat)
    requires DistinctIds(ordered) && s in ordered && i < |ordered| && ordered[i].id == s.id
    ensures ordered[i] == s
  {
    var k :| 0 <= k < |ordered| && ordered[k] == s;
    assert k == i;
  }

  /** Along a walk, a good order only goes backwards. */
  lemma {:induction false} WalkGoesBack(specs: seq<Spec>, ordered: seq<Spec>, path: seq<string>, start: nat)
    requires IsOrder(specs, ordered) && IsWalk(specs, path) && path != []
    requires start < |ordered| && ordered[start].id == path[0]
    ensures exists i :: 0 <= i && i + |path| <= start + 1 && ordered[i].id == path[|path| - 1]
    decreases |path|
  {
    var n := |path| - 1;
    if n > 0 {
      WalkGoesBack(specs, ordered, path[..n], start);
      var i :| 0 <= i && i + n <= start + 1 && ordered[i].id == path[n - 1];
      assert Edge(specs, path[n - 1], path[n]);
      var s :| s in specs && s.id == path[n - 1] && path[n] in s.dependsOn;
      SpecAt(ordered, s, i);
      assert Placed(ordered, i, path[n]);
    }
  }

  lemma WalkNeverReturns(specs: seq<Spec>, ordered: seq<Spec>, path: seq<string>)
    requires IsOrder(specs, ordered) && IsWalk(specs, path) && |path| >= 2 && path[0] in Ids(specs)
    ensures path[|path| - 1] != path[0]
  {
    var s :| s in specs && s.id == path[0];
    var start :| 0 <= start < |ordered| && ordered[start] == s;
    WalkGoesBack(specs, ordered, path, start);
    var i :| 0 <= i && i + |path| <= start + 1 && ordered[i].id == path[|path| - 1];
    assert ordered[i].id != ordered[start].id;
  }

  /** With a cycle no order at all puts every dependency first. */
  lemma CycleHasNoOrder(specs: seq<Spec>, ordered: seq<Spec>)
    requires Cyclic(specs)
    ensures !IsOrder(specs, ordered)
  {
    var path :| IsCycle(specs, path);
    var round := path + [path[0]];
    assert IsWalk(specs, round);
    if IsOrder(specs, ordered) {
      WalkNeverReturns(specs, ordered, round);
    }
  }

  /** Ordering succeeds exactly when there is no cycle, and then it is an order. */
  lemma OrdersIffAcyclic(specs: seq<Spec>)
    requires DistinctIds(specs)
    ensures LayerOrder(specs).Success? <==> !Cyclic(specs)
    ensures LayerOrder(specs).Success? ==> IsOrder(specs, LayerOrder(specs).value)
  {
    if LayerOrder(specs).Success? {
      LayerOrderIsOrder(specs);
      if Cyclic(specs) {
        CycleHasNoOrder(specs, LayerOrder(specs).value);
      }
    } else {
      StuckMeansCyclic(specs);
    }
  }

  // ----- the ordering loop -------------------------------------------------

  /** A dictionary of the specs by id: a repeated id keeps its first place and
      takes its last value. */
  function Collapsed(specs: seq<Spec>): seq<Spec> {
    if specs == [] then []
    else
      var front, last := Collapsed(specs[..|specs| - 1]), specs[|specs| - 1];
      if last.id in Ids(front) then Replaced(front, last) else front + [last]
  }

  function Replaced(specs: seq<Spec>, spec: Spec): (r: seq<Spec>)
    ensures |r| == |specs|
    ensures forall i :: 0 <= i < |r| ==> r[i] == if specs[i].id == spec.id then spec else specs[i]
  {
    seq(|specs|, i requires 0 <= i < |specs| => if specs[i].id == spec.id then spec else specs[i])
  }

  lemma IdsOneMore(specs: seq<Spec>, spec: Spec)
    ensures Ids(specs + [spec]) == Ids(specs) + {spec.id}
  {
    assert forall s :: s in specs + [spec] <==> s in specs || s == spec;
  }

  lemma ReplacedIds(specs: seq<Spec>, spec: Spec)
    requires spec.id in Ids(specs)
    ensures Ids(Replaced(specs, spec)) == Ids(specs)
  {
    var r := Replaced(specs, spec);
    forall id | id in Ids(specs) ensures id in Ids(r) {
      var s :| s in specs && s.id == id;
      var i :| 0 <= i < |specs| && specs[i] == s;
      assert r[i].id == id && r[i] in r;
    }
  }

  lemma {:induction false} CollapsedIds(specs: seq<Spec>)
    ensures Ids(Collapsed(specs)) == Ids(specs)
  {
    if specs != [] {
      var n := |specs| - 1;
      CollapsedIds(specs[..n]);
      assert specs == specs[..n] + [specs[n]];
      IdsOneMore(specs[..n], specs[n]);
      var front := Collapsed(specs[..n]);
      if specs[n].id in Ids(front) {
        ReplacedIds(front, specs[n]);
      } else {
        IdsOneMore(front, specs[n]);
      }
    }
  }

  lemma AppendDistinct(specs: seq<Spec>, spec: Spec)
    requires DistinctIds(specs) && spec.id !in Ids(specs)
    ensures DistinctIds(specs + [spec])
  {
    forall i | 0 <= i < |specs| ensures specs[i].id != spec.id {
      assert specs[i] in specs;
    }
  }

  lemma {:induction false} CollapsedDistinct(specs: seq<Spec>)
    ensures DistinctIds(Collapsed(specs))
  {
    if specs != [] {
      var n := |specs| - 1;
      CollapsedDistinct(specs[..n]);
      var front := Collapsed(specs[..n]);
      if specs[n].id !in Ids(front) {
        AppendDistinct(front, specs[n]);
      }
    }
  }

  /** The last spec given under its id. */
  ghost predicate IsLast(specs: seq<Spec>, spec: Spec) {
    exists i :: 0 <= i < |specs| && specs[i] == spec && forall j :: i < j < |specs| ==> specs[j].id != spec.id
  }

  lemma NotLastIsEarlier(front: seq<Spec>, last: Spec, spec: Spec)
    requires spec != last && spec in if last.id in Ids(front) then Replaced(front, last) else front + [last]
    ensures spec in front && spec.id != last.id
  {
    if last.id !in Ids(front) {
      assert spec in front;
    }
  }

  lemma {:induction false} CollapsedKeepsLast(specs: seq<Spec>, spec: Spec)
    requires spec in Collapsed(specs)
    ensures IsLast(specs, spec)
  {
    var n := |specs| - 1;
    var front, last := Collapsed(specs[..n]), specs[n];
    if spec != last {
      NotLastIsEarlier(front, last, spec);
      CollapsedKeepsLast(specs[..n], spec);
      var i :| 0 <= i < n && specs[..n][i] == spec && forall j :: i < j < n ==> specs[..n][j].id != spec.id;
      assert forall j :: i < j < n ==> specs[j] == specs[..n][j];
    }
  }

  method CollapseSpecs(specs: seq<Spec>) returns (pending: seq<Spec>)
    ensures pending == Collapsed(specs)
  {
    pending := [];
    for i := 0 to |specs|
      invariant pending == Collapsed(specs[..i])
    {
      assert specs[..i + 1][..i] == specs[..i];
      if specs[i].id in Ids(pending) {
        pending := Replaced(pending, specs[i]);
      } else {
        pending := pending + [specs[i]];
      }
    }
    assert specs[..|specs|] == specs;
  }

  /** Orders the specs; the error case is exactly a dependency cycle among them. */
  method OrderSpecsByDependencies(specs: seq<Spec>) returns (r: Result<seq<Spec>>)
    ensures r.Success? ==> IsOrder(Collapsed(specs), r.value)
    ensures r.Failure? <==> Cyclic(Collapsed(specs))
    ensures r == LayerOrder(Collapsed(specs))
  {
    var pending := CollapseSpecs(specs);
    CollapsedDistinct(specs);
    OrdersIffAcyclic(pending);
    ghost var all := pending;
    var ordered: seq<Spec> := [];
    assert LayerOrder(all).Success? ==> [] + LayerOrder(all).value == LayerOrder(all).value;
    while pending != []
      invariant LayerOrder(all) ==
        if LayerOrder(pending).Failure? then LayerOrder(pending) else Success(ordered + LayerOrder(pending).value)
      decreases |pending|
    {
      var ids := Ids(pending);
      var ready := Select(pending, ids, true);
      SelectFacts(pending, ids, true);
      if ready == [] {
        return Failure("INDICATOR_DEPENDENCIES_UNRESOLVED");
      }
      var waiting := Select(pending, ids, false);
      if LayerOrder(waiting).Success? {
        assert ordered + (ready + LayerOrder(waiting).value) == (ordered + ready) + LayerOrder(waiting).value;
      }
      ordered := ordered + ready;
      pending := waiting;
    }
    assert ordered + [] == ordered;
    r := Success(ordered);
  }
}
