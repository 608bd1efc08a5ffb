/** A bounded table of stamped rows in the order they were put in: what it holds after
    any number of steps, in terms of those steps alone. */
module RecencyTables {
  import opened Wrappers

  datatype Row<K, V> = Row(key: K, at: int, value: V)

  datatype Removal<K> = Nothing | One(key: K) | Everything

  /** What a step does to the table: the row it puts in, what it takes out, and when
      it forgets old rows, if it does. */
  datatype Trace<K, V> = Trace(admits: Option<Row<K, V>>, removes: Removal<K>, prunesAt: Option<int>)

  datatype Policy = Policy(ttl: int, limit: nat)

  predicate Takes<K(==)>(removes: Removal<K>, key: K) {
    removes.Everything? || (removes.One? && removes.key == key)
  }

  // ----- what is held ------------------------------------------------------

  /** The row was put in by step `k`, has not been taken out since, and was no older
      than its lifetime whenever old rows were forgotten. */
  ghost predicate Stands<K, V>(p: Policy, traces: seq<Trace<K, V>>, k: nat, n: nat)
    requires n <= |traces|
  {
    && k < n && traces[k].admits.Some?
    && (forall j :: k < j < n ==> !Takes(traces[j].removes, traces[k].admits.value.key))
    && (forall j :: k <= j < n && traces[j].prunesAt.Some? ==> traces[j].prunesAt.value - traces[k].admits.value.at <= p.ttl)
  }

  predicate Increasing(s: seq<nat>) {
    forall i, j :: 0 <= i < j < |s| ==> s[i] < s[j]
  }

  /** There are as many newer rows as the table may hold. */
  ghost predicate Crowded<K, V>(p: Policy, traces: seq<Trace<K, V>>, k: nat, n: nat)
    requires n <= |traces|
  {
    exists newer: seq<nat> :: CrowdedBy(p, traces, k, n, newer)
  }

  ghost predicate CrowdedBy<K, V>(p: Policy, traces: seq<Trace<K, V>>, k: nat, n: nat, newer: seq<nat>)
    requires n <= |traces|
  {
    |newer| == p.limit && Increasing(newer) && forall i :: 0 <= i < |newer| ==> k < newer[i] && Stands(p, traces, newer[i], n)
  }

  /** The row stands, and was always among the newest that did. */
  ghost predicate Held<K, V>(p: Policy, traces: seq<Trace<K, V>>, k: nat, n: nat)
    requires n <= |traces|
  {
    Stands(p, traces, k, n) && forall j :: k < j <= n ==> !Crowded(p, traces, k, j)
  }

  /** It is this row, and still within its lifetime now. */
  ghost predicate HeldAs<K, V>(p: Policy, traces: seq<Trace<K, V>>, k: nat, n: nat, key: K, now: int, value: V)
    requires n <= |traces|
  {
    && Held(p, traces, k, n) && traces[k].admits.value.key == key && traces[k].admits.value.value == value
    && now - traces[k].admits.value.at <= p.ttl
  }

  // ----- the table ---------------------------------------------------------

  predicate Survives<K(==), V>(p: Policy, row: Row<K, V>, removes: Removal<K>, now: int) {
    !Takes(removes, row.key) && now - row.at <= p.ttl
  }

  function Surviving<K(==), V>(p: Policy, rows: seq<Row<K, V>>, removes: Removal<K>, now: int): seq<Row<K, V>> {
    if rows == [] then []
    else
      var n := |rows| - 1;
      Surviving(p, rows[..n], removes, now) + if Survives(p, rows[n], removes, now) then [rows[n]] else []
  }

  /** The table before the oldest row is dropped. */
  function Mid<K(==), V>(p: Policy, rows: seq<Row<K, V>>, trace: Trace<K, V>): seq<Row<K, V>> {
    if trace.prunesAt.None? then rows
    else Surviving(p, rows, trace.removes, trace.prunesAt.value) + (if trace.admits.Some? then [trace.admits.value] else [])
  }

  function After<K(==), V>(p: Policy, rows: seq<Row<K, V>>, trace: Trace<K, V>): seq<Row<K, V>> {
    var mid := Mid(p, rows, trace);
    if |mid| > p.limit then mid[|mid| - p.limit..] else mid
  }

  /** A step that puts in or takes out a row also forgets old ones, and what it puts in
      replaces its key's row and is of that moment. */
  predicate Coherent<K(==), V>(trace: Trace<K, V>) {
    && (trace.prunesAt.None? ==> trace.admits.None? && trace.removes.Nothing?)
    && (trace.admits.Some? ==> trace.removes == One(trace.admits.value.key) && trace.prunesAt == Some(trace.admits.value.at))
  }

  /** The tables a run of steps leads through. */
  ghost predicate Leads<K, V>(p: Policy, traces: seq<Trace<K, V>>, tables: seq<seq<Row<K, V>>>) {
    && p.ttl >= 0 && p.limit >= 1
    && |tables| == |traces| + 1 && tables[0] == []
    && forall n :: 0 <= n < |traces| ==> LeadsOn(p, traces, tables, n)
  }

  ghost predicate LeadsOn<K, V>(p: Policy, traces: seq<Trace<K, V>>, tables: seq<seq<Row<K, V>>>, n: nat)
    requires n < |traces| && |tables| == |traces| + 1
  {
    Coherent(traces[n]) && |tables[n]| <= p.limit && tables[n + 1] == After(p, tables[n], traces[n])
  }

  // ----- row by row --------------------------------------------------------

  ghost predicate ListedAs<K, V>(traces: seq<Trace<K, V>>, k: nat, row: Row<K, V>) {
    k < |traces| && traces[k].admits == Some(row)
  }

  /** The rows are what these steps put in, in that order. */
  ghost predicate Lists<K, V>(traces: seq<Trace<K, V>>, at: seq<nat>, rows: seq<Row<K, V>>) {
    |at| == |rows| && forall i :: 0 <= i < |at| ==> ListedAs(traces, at[i], rows[i])
  }

  /** The steps whose row survives. */
  function Kept<K(==), V>(p: Policy, at: seq<nat>, rows: seq<Row<K, V>>, removes: Removal<K>, now: int): seq<nat>
    requires |at| == |rows|
  {
    if at == [] then []
    else
      var n := |at| - 1;
      Kept(p, at[..n], rows[..n], removes, now) + if Survives(p, rows[n], removes, now) then [at[n]] else []
  }

  lemma {:induction false} KeptLists<K, V>(
      p: Policy, traces: seq<Trace<K, V>>, at: seq<nat>, rows: seq<Row<K, V>>, removes: Removal<K>, now: int)
    requires Lists(traces, at, rows)
    ensures Lists(traces, Kept(p, at, rows, removes, now), Surviving(p, rows, removes, now))
  {
    if at != [] {
      var n := |at| - 1;
      assert Lists(traces, at[..n], rows[..n]);
      KeptLists(p, traces, at[..n], rows[..n], removes, now);
      var last := Survives(p, rows[n], removes, now);
      ListsAppend(traces, Kept(p, at[..n], rows[..n], removes, now), Surviving(p, rows[..n], removes, now),
        if last then [at[n]] else [], if last then [rows[n]] else []);
    }
  }

  lemma ListsAppend<K, V>(traces: seq<Trace<K, V>>, at: seq<nat>, rows: seq<Row<K, V>>, more: seq<nat>, last: seq<Row<K, V>>)
    requires Lists(traces, at, rows) && |more| == |last| <= 1
    requires more != [] ==> ListedAs(traces, more[0], last[0])
    ensures Lists(traces, at + more, rows + last)
  {
  }

  lemma {:induction false} KeptRises<K, V>(p: Policy, at: seq<nat>, rows: seq<Row<K, V>>, removes: Removal<K>, now: int)
    requires |at| == |rows| && Increasing(at)
    ensures
      var kept := Kept(p, at, rows, removes, now);
      && Increasing(kept) && |kept| <= |at|
      && forall i :: 0 <= i < |kept| ==> kept[i] <= at[|at| - 1]
  {
    if at != [] {
      var n := |at| - 1;
      KeptRises(p, at[..n], rows[..n], removes, now);
      assert n > 0 ==> at[..n][n - 1] < at[n];
      assert n == 0 ==> Kept(p, at[..n], rows[..n], removes, now) == [];
    }
  }

  lemma {:induction false} KeptSurvive<K, V>(
      p: Policy, traces: seq<Trace<K, V>>, at: seq<nat>, rows: seq<Row<K, V>>, removes: Removal<K>, now: int, k: nat)
    requires Lists(traces, at, rows)
    ensures k in Kept(p, at, rows, removes, now) <==>
      k in at && k < |traces| && traces[k].admits.Some? && Survives(p, traces[k].admits.value, removes, now)
  {
    if at != [] {
      var n := |at| - 1;
      assert Lists(traces, at[..n], rows[..n]);
      KeptSurvive(p, traces, at[..n], rows[..n], removes, now, k);
      assert ListedAs(traces, at[n], rows[n]);
      assert at == at[..n] + [at[n]];
    }
  }

  // ----- one step ----------------------------------------------------------

  /** Whether a row that stood before the step stands after it. */
  lemma StandsStep<K, V>(p: Policy, traces: seq<Trace<K, V>>, k: nat, n: nat)
    requires n < |traces| && Coherent(traces[n]) && p.ttl >= 0
    ensures Stands(p, traces, k, n + 1) <==>
      || (k == n && traces[n].admits.Some?)
      || (Stands(p, traces, k, n) && LeavesIn(p, traces, k, n))
  {
  }

  predicate LeavesIn<K(==), V>(p: Policy, traces: seq<Trace<K, V>>, k: nat, n: nat)
    requires n < |traces|
  {
    && k < n && traces[k].admits.Some?
    && (traces[n].prunesAt.Some? ==> Survives(p, traces[k].admits.value, traces[n].removes, traces[n].prunesAt.value))
    && !Takes(traces[n].removes, traces[k].admits.value.key)
  }

  /** Crowded out by newer rows, so are the older ones. */
  lemma OlderIsCrowded<K, V>(p: Policy, traces: seq<Trace<K, V>>, k: nat, y: nat, n: nat)
    requires k < y && n <= |traces| && Crowded(p, traces, y, n)
    ensures Crowded(p, traces, k, n)
  {
    var newer :| CrowdedBy(p, traces, y, n, newer);
    assert CrowdedBy(p, traces, k, n, newer);
  }

  /** Rising numbers out of a rising list take up as many places. */
  lemma {:induction false} PlacesOf(at: seq<nat>, i: nat, some: seq<nat>)
    requires Increasing(at) && Increasing(some) && i < |at|
    requires forall m :: 0 <= m < |some| ==> some[m] in at && at[i] < some[m]
    ensures i + |some| < |at|
    ensures some != [] ==> exists j :: i + |some| <= j < |at| && at[j] == some[|some| - 1]
  {
    if some != [] {
      var n := |some| - 1;
      PlacesOf(at, i, some[..n]);
      var j :| 0 <= j < |at| && at[j] == some[n];
      if n > 0 {
        var b :| i + n <= b < |at| && at[b] == some[..n][n - 1];
        assert some[n - 1] < some[n];
        assert b < j;
      }
    }
  }

  /** The rows before the oldest is dropped: those that stand and were never crowded
      out before this step. */
  ghost predicate AlmostHeld<K, V>(p: Policy, traces: seq<Trace<K, V>>, k: nat, n: nat)
    requires n < |traces|
  {
    Stands(p, traces, k, n + 1) && forall j :: k < j <= n ==> !Crowded(p, traces, k, j)
  }

  lemma HeldStep<K, V>(p: Policy, traces: seq<Trace<K, V>>, k: nat, n: nat)
    requires n < |traces|
    ensures Held(p, traces, k, n + 1) <==> AlmostHeld(p, traces, k, n) && !Crowded(p, traces, k, n + 1)
  {
  }

  /** Held, and left in by the step; or put in by it. */
  lemma AlmostHeldStep<K, V>(p: Policy, traces: seq<Trace<K, V>>, k: nat, n: nat)
    requires n < |traces| && Coherent(traces[n]) && p.ttl >= 0
    ensures AlmostHeld(p, traces, k, n) <==>
      (k == n && traces[n].admits.Some?) || (Held(p, traces, k, n) && LeavesIn(p, traces, k, n))
  {
    StandsStep(p, traces, k, n);
  }

  /** Dropping the oldest of one row too many takes away exactly the crowded one. */
  lemma DropsTheCrowded<K, V>(p: Policy, traces: seq<Trace<K, V>>, n: nat, at: seq<nat>, k: nat)
    requires n < |traces| && p.limit >= 1 && Increasing(at) && |at| <= p.limit + 1
    requires forall k: nat :: k in at <==> AlmostHeld(p, traces, k, n)
    requires k in at
    ensures Crowded(p, traces, k, n + 1) <==> |at| == p.limit + 1 && k == at[0]
  {
    var i :| 0 <= i < |at| && at[i] == k;
    if Crowded(p, traces, k, n + 1) {
      var newer :| CrowdedBy(p, traces, k, n + 1, newer);
      forall m | 0 <= m < |newer| ensures newer[m] in at {
        NewerIsAlmostHeld(p, traces, n, k, newer[m]);
      }
      PlacesOf(at, i, newer);
    }
    if |at| == p.limit + 1 && i == 0 {
      OldestIsCrowded(p, traces, n, at);
    }
  }

  lemma OldestIsCrowded<K, V>(p: Policy, traces: seq<Trace<K, V>>, n: nat, at: seq<nat>)
    requires n < |traces| && Increasing(at) && |at| == p.limit + 1
    requires forall k: nat :: k in at ==> AlmostHeld(p, traces, k, n)
    ensures Crowded(p, traces, at[0], n + 1)
  {
    var newer := at[1..];
    forall m | 0 <= m < |newer| ensures at[0] < newer[m] && Stands(p, traces, newer[m], n + 1) {
      assert newer[m] == at[m + 1] && at[m + 1] in at;
      assert AlmostHeld(p, traces, newer[m], n);
    }
    assert CrowdedBy(p, traces, at[0], n + 1, newer);
  }

  lemma NewerIsAlmostHeld<K, V>(p: Policy, traces: seq<Trace<K, V>>, n: nat, k: nat, y: nat)
    requires n < |traces| && k < y
    requires AlmostHeld(p, traces, k, n) && Stands(p, traces, y, n + 1)
    ensures AlmostHeld(p, traces, y, n)
  {
    forall j | y < j <= n ensures !Crowded(p, traces, y, j) {
      if Crowded(p, traces, y, j) {
        OlderIsCrowded(p, traces, k, y, j);
      }
    }
  }

  // ----- every table -------------------------------------------------------

  /** The rows of a table are exactly those held, in the order they were put in. */
  lemma {:induction false} TableHoldsTheHeld<K, V>(p: Policy, traces: seq<Trace<K, V>>, tables: seq<seq<Row<K, V>>>, n: nat)
    returns (at: seq<nat>)
    requires Leads(p, traces, tables) && n <= |traces|
    ensures Lists(traces, at, tables[n]) && Increasing(at)
    ensures forall k: nat :: k in at <==> Held(p, traces, k, n)
  {
    if n == 0 {
      at := [];
    } else {
      var before := TableHoldsTheHeld(p, traces, tables, n - 1);
      assert LeadsOn(p, traces, tables, n - 1);
      at := OneMoreStep(p, traces, n - 1, tables[n - 1], before);
    }
  }

  lemma OneMoreStep<K, V>(p: Policy, traces: seq<Trace<K, V>>, n: nat, rows: seq<Row<K, V>>, before: seq<nat>) returns (at: seq<nat>)
    requires p.ttl >= 0 && p.limit >= 1
    requires n < |traces| && Coherent(traces[n]) && |rows| <= p.limit
    requires Lists(traces, before, rows) && Increasing(before)
    requires forall k: nat :: k in before <==> Held(p, traces, k, n)
    ensures Lists(traces, at, After(p, rows, traces[n])) && Increasing(at)
    ensures forall k: nat :: k in at <==> Held(p, traces, k, n + 1)
  {
    var almost := BeforeDropping(p, traces, n, rows, before);
    at := WithoutOldest(p, traces, almost, Mid(p, rows, traces[n]));
    forall k: nat ensures k in at <==> Held(p, traces, k, n + 1) {
      HeldStep(p, traces, k, n);
      if k in almost {
        DropsTheCrowded(p, traces, n, almost, k);
      }
    }
  }

  lemma WithoutOldest<K, V>(p: Policy, traces: seq<Trace<K, V>>, almost: seq<nat>, mid: seq<Row<K, V>>) returns (at: seq<nat>)
    requires p.limit >= 1 && Lists(traces, almost, mid) && Increasing(almost) && |almost| <= p.limit + 1
    ensures Lists(traces, at, if |mid| > p.limit then mid[|mid| - p.limit..] else mid) && Increasing(at)
    ensures forall k :: k in at <==> k in almost && !(|almost| == p.limit + 1 && k == almost[0])
  {
    at := almost;
    if |almost| > p.limit {
      at := almost[1..];
      TailLists(traces, almost, mid);
    }
  }

  lemma TailLists<K, V>(traces: seq<Trace<K, V>>, at: seq<nat>, rows: seq<Row<K, V>>)
    requires Lists(traces, at, rows) && Increasing(at) && at != []
    ensures Lists(traces, at[1..], rows[1..]) && Increasing(at[1..])
    ensures forall k :: k in at[1..] <==> k in at && k != at[0]
  {
    forall i | 0 <= i < |at| - 1 ensures ListedAs(traces, at[1..][i], rows[1..][i]) {
      assert ListedAs(traces, at[i + 1], rows[i + 1]);
    }
    assert at == [at[0]] + at[1..];
    assert forall i :: 0 <= i < |at[1..]| ==> at[0] < at[1..][i];
  }

  lemma BeforeDropping<K, V>(p: Policy, traces: seq<Trace<K, V>>, n: nat, rows: seq<Row<K, V>>, before: seq<nat>)
    returns (almost: seq<nat>)
    requires p.ttl >= 0 && n < |traces| && Coherent(traces[n]) && |rows| <= p.limit
    requires Lists(traces, before, rows) && Increasing(before)
    requires forall k: nat :: k in before <==> Held(p, traces, k, n)
    ensures Lists(traces, almost, Mid(p, rows, traces[n])) && Increasing(almost) && |almost| <= p.limit + 1
    ensures forall k: nat :: k in almost <==> AlmostHeld(p, traces, k, n)
  {
    if traces[n].prunesAt.None? {
      almost := before;
    } else {
      almost := PrunedAlmost(p, traces, n, rows, before);
    }
    forall k: nat ensures k in almost <==> AlmostHeld(p, traces, k, n) {
      AlmostHeldStep(p, traces, k, n);
      assert k in before <==> Held(p, traces, k, n);
    }
  }

  lemma PrunedAlmost<K, V>(p: Policy, traces: seq<Trace<K, V>>, n: nat, rows: seq<Row<K, V>>, before: seq<nat>)
    returns (almost: seq<nat>)
    requires n < |traces| && Coherent(traces[n]) && traces[n].prunesAt.Some? && |rows| <= p.limit
    requires Lists(traces, before, rows) && Increasing(before) && forall k :: k in before ==> k < n
    ensures Lists(traces, almost, Mid(p, rows, traces[n])) && Increasing(almost) && |almost| <= p.limit + 1
    ensures forall k: nat :: k in almost <==> (k == n && traces[n].admits.Some?) || (k in before && LeavesIn(p, traces, k, n))
  {
    var trace := traces[n];
    var now := trace.prunesAt.value;
    var kept := Kept(p, before, rows, trace.removes, now);
    KeptLists(p, traces, before, rows, trace.removes, now);
    KeptRises(p, before, rows, trace.removes, now);
    assert before != [] ==> before[|before| - 1] in before;
    ListsAppend(traces, kept, Surviving(p, rows, trace.removes, now),
      if trace.admits.Some? then [n] else [], if trace.admits.Some? then [trace.admits.value] else []);
    almost := kept + if trace.admits.Some? then [n] else [];
    forall k: nat ensures k in kept <==> k in before && LeavesIn(p, traces, k, n) {
      KeptSurvive(p, traces, before, rows, trace.removes, now, k);
    }
  }

  // ----- what is found -----------------------------------------------------

  /** A fresh row of this key and value is in the table exactly when one is held. */
  lemma ListedIsHeld<K, V>(p: Policy, traces: seq<Trace<K, V>>, tables: seq<seq<Row<K, V>>>, n: nat, key: K, now: int, value: V)
    requires Leads(p, traces, tables) && n <= |traces|
    ensures (exists at :: Row(key, at, value) in tables[n] && now - at <= p.ttl)
       <==> (exists k: nat :: HeldAs(p, traces, k, n, key, now, value))
  {
    var at := TableHoldsTheHeld(p, traces, tables, n);
    var rows := tables[n];
    if since :| Row(key, since, value) in rows && now - since <= p.ttl {
      var i :| 0 <= i < |rows| && rows[i] == Row(key, since, value);
      assert ListedAs(traces, at[i], rows[i]) && at[i] in at;
      assert HeldAs(p, traces, at[i], n, key, now, value);
    }
    if k: nat :| HeldAs(p, traces, k, n, key, now, value) {
      assert k in at;
      var i :| 0 <= i < |at| && at[i] == k;
      assert ListedAs(traces, at[i], rows[i]);
      assert rows[i] == Row(key, rows[i].at, value);
    }
  }

  /** What a step has just put in is held. */
  lemma NewestIsHeld<K, V>(p: Policy, traces: seq<Trace<K, V>>, n: nat)
    requires n < |traces| && traces[n].admits.Some? && Coherent(traces[n]) && p.ttl >= 0 && p.limit >= 1
    ensures Held(p, traces, n, n + 1)
  {
    forall newer: seq<nat> | |newer| == p.limit ensures !CrowdedBy(p, traces, n, n + 1, newer) {
      assert !(n < newer[0] && Stands(p, traces, newer[0], n + 1));
    }
  }
}
