/** The stored session schedule of one route: snapshots are admitted only without
    overlaps and replace what they overlap, so stored sessions never overlap. */
module SessionStore {
  import opened Wrappers
  import opened Sorting
  import opened Timeframes
  import opened SessionSlots
  import opened SessionPages

  datatype Kind = Trading | Liquid

  /** A session interval of a snapshot, or of the store. */
  datatype Stored = Stored(kind: Kind, opens: int, closes: int, open: bool, fetchedAt: int)

  /** What a provider hands over: a kind, a status, bounds and details, each possibly
      unreadable. */
  datatype Item = Item(kind: Option<Kind>, open: Option<bool>, opens: Option<int>, closes: Option<int>, detailsOk: bool)

  const OPENING_KEY: Stored -> Key := (s: Stored) => Key(s.opens, s.closes)

  predicate Apart(a: Stored, b: Stored) {
    a.closes <= b.opens || b.closes <= a.opens
  }

  /** Sessions of one kind never overlap, and are never listed twice. */
  ghost predicate NoOverlap(rows: seq<Stored>) {
    && Filled(rows)
    && (forall i, j :: 0 <= i < j < |rows| && rows[i].kind == rows[j].kind ==> Apart(rows[i], rows[j]))
  }

  // ----- admitting a snapshot ----------------------------------------------

  /** Readable, non-empty and inside the coverage the snapshot declares. */
  predicate ItemOk(item: Item, from: int, to: int) {
    && item.kind.Some? && item.open.Some? && item.opens.Some? && item.closes.Some? && item.detailsOk
    && from <= item.opens.value < item.closes.value <= to
  }

  predicate ItemsOk(items: seq<Item>, from: int, to: int) {
    forall i :: 0 <= i < |items| ==> ItemOk(items[i], from, to)
  }

  function RowOf(item: Item, fetchedAt: int): Stored
    requires item.kind.Some? && item.open.Some? && item.opens.Some? && item.closes.Some?
  {
    Stored(item.kind.value, item.opens.value, item.closes.value, item.open.value, fetchedAt)
  }

  function RowsOf(items: seq<Item>, from: int, to: int, fetchedAt: int): (rows: seq<Stored>)
    requires ItemsOk(items, from, to)
    ensures |rows| == |items|
    ensures forall i :: 0 <= i < |items| ==> rows[i] == RowOf(items[i], fetchedAt)
  {
    seq(|items|, i requires 0 <= i < |items| => RowOf(items[i], fetchedAt))
  }

  function OfKind(rows: seq<Stored>, kind: Kind): seq<Stored> {
    if rows == [] then []
    else
      var front, last := OfKind(rows[..|rows| - 1], kind), rows[|rows| - 1];
      if last.kind == kind then front + [last] else front
  }

  /** No two neighbours overlap. */
  predicate NeighboursApart(rows: seq<Stored>) {
    forall i :: 0 < i < |rows| ==> rows[i - 1].closes <= rows[i].opens
  }

  // ----- what comparing neighbours decides ---------------------------------

  /** Non-empty sessions, any two of them apart. */
  ghost predicate AllApart(rows: seq<Stored>) {
    && Filled(rows)
    && (forall i, j :: 0 <= i < j < |rows| ==> Apart(rows[i], rows[j]))
  }

  ghost predicate ApartFrom(x: Stored, rows: seq<Stored>) {
    x.opens < x.closes && forall i :: 0 <= i < |rows| ==> Apart(x, rows[i])
  }

  lemma AllApartCons(x: Stored, rows: seq<Stored>)
    ensures AllApart([x] + rows) <==> ApartFrom(x, rows) && AllApart(rows)
  {
    var all := [x] + rows;
    if AllApart(all) {
      assert all[0] == x;
      forall i | 0 <= i < |rows| ensures rows[i].opens < rows[i].closes && Apart(x, rows[i]) {
        assert all[i + 1] == rows[i] && Apart(all[0], all[i + 1]);
      }
      forall i, j | 0 <= i < j < |rows| ensures Apart(rows[i], rows[j]) {
        assert Apart(all[i + 1], all[j + 1]);
      }
    }
    if ApartFrom(x, rows) && AllApart(rows) {
      forall i, j | 0 <= i < j < |all| ensures Apart(all[i], all[j]) {
        assert i > 0 ==> Apart(rows[i - 1], rows[j - 1]);
      }
    }
  }

  lemma AllApartSnoc(rows: seq<Stored>, x: Stored)
    ensures AllApart(rows + [x]) <==> ApartFrom(x, rows) && AllApart(rows)
  {
    var all := rows + [x];
    var n := |rows|;
    if AllApart(all) {
      assert all[n] == x;
      forall i | 0 <= i < n ensures Apart(x, rows[i]) && rows[i].opens < rows[i].closes {
        assert Apart(all[i], all[n]);
      }
      forall i, j | 0 <= i < j < n ensures Apart(rows[i], rows[j]) {
        assert Apart(all[i], all[j]);
      }
    }
    if ApartFrom(x, rows) && AllApart(rows) {
      forall i, j | 0 <= i < j < |all| ensures Apart(all[i], all[j]) {
        assert j == n ==> Apart(x, rows[i]);
      }
    }
  }

  lemma {:induction false} ApartFromInsert(x: Stored, y: Stored, rows: seq<Stored>)
    ensures ApartFrom(x, Insert(y, rows, OPENING_KEY)) <==> ApartFrom(x, rows) && Apart(x, y)
  {
    if rows == [] || KeyLeq(OPENING_KEY(y), OPENING_KEY(rows[0])) {
      ApartFromCons(x, y, rows);
    } else {
      assert rows == [rows[0]] + rows[1..];
      ApartFromInsert(x, y, rows[1..]);
      ApartFromCons(x, rows[0], Insert(y, rows[1..], OPENING_KEY));
      ApartFromCons(x, rows[0], rows[1..]);
    }
  }

  lemma ApartFromCons(x: Stored, y: Stored, rows: seq<Stored>)
    ensures ApartFrom(x, [y] + rows) <==> ApartFrom(x, rows) && Apart(x, y)
  {
    var all := [y] + rows;
    assert forall i :: 0 <= i < |rows| ==> all[i + 1] == rows[i];
    assert all[0] == y;
  }

  lemma {:induction false} InsertApart(x: Stored, rows: seq<Stored>)
    ensures AllApart(Insert(x, rows, OPENING_KEY)) <==> ApartFrom(x, rows) && AllApart(rows)
  {
    if rows == [] || KeyLeq(OPENING_KEY(x), OPENING_KEY(rows[0])) {
      AllApartCons(x, rows);
    } else {
      var first, rest := rows[0], rows[1..];
      assert rows == [first] + rest;
      InsertApart(x, rest);
      AllApartCons(first, Insert(x, rest, OPENING_KEY));
      AllApartCons(first, rest);
      ApartFromInsert(first, x, rest);
      ApartFromCons(x, first, rest);
    }
  }

  /** Sorting does not matter to whether sessions are apart. */
  lemma {:induction false} SortApart(rows: seq<Stored>)
    ensures AllApart(Sort(rows, OPENING_KEY)) <==> AllApart(rows)
  {
    if rows != [] {
      SortApart(rows[1..]);
      assert rows == [rows[0]] + rows[1..];
      AllApartCons(rows[0], rows[1..]);
      InsertApart(rows[0], Sort(rows[1..], OPENING_KEY));
      SortedApartFrom(rows[0], rows[1..]);
    }
  }

  lemma {:induction false} SortedApartFrom(x: Stored, rows: seq<Stored>)
    ensures ApartFrom(x, Sort(rows, OPENING_KEY)) <==> ApartFrom(x, rows)
  {
    if rows != [] {
      SortedApartFrom(x, rows[1..]);
      assert rows == [rows[0]] + rows[1..];
      ApartFromInsert(x, rows[0], Sort(rows[1..], OPENING_KEY));
      ApartFromCons(x, rows[0], rows[1..]);
    }
  }

  predicate Filled(rows: seq<Stored>) {
    forall k :: 0 <= k < |rows| ==> rows[k].opens < rows[k].closes
  }

  lemma {:induction false} ChainReaches(rows: seq<Stored>, i: nat, j: nat)
    requires NeighboursApart(rows) && Filled(rows) && i < j < |rows|
    ensures rows[i].closes <= rows[j].opens
    decreases j
  {
    assert rows[j - 1].closes <= rows[j].opens;
    if i < j - 1 {
      ChainReaches(rows, i, j - 1);
    }
  }

  lemma ChainIsApart(rows: seq<Stored>)
    requires NeighboursApart(rows) && Filled(rows)
    ensures AllApart(rows)
  {
    forall i, j | 0 <= i < j < |rows| ensures Apart(rows[i], rows[j]) {
      ChainReaches(rows, i, j);
    }
  }

  lemma ApartIsChain(rows: seq<Stored>)
    requires Ordered(rows, OPENING_KEY) && AllApart(rows)
    ensures NeighboursApart(rows)
  {
    forall i | 0 < i < |rows| ensures rows[i - 1].closes <= rows[i].opens {
      assert Apart(rows[i - 1], rows[i]) && rows[i].opens < rows[i].closes;
      assert KeyLeq(OPENING_KEY(rows[i - 1]), OPENING_KEY(rows[i]));
    }
  }

  /** Of ordered non-empty sessions it is enough to compare neighbours. */
  lemma NeighboursDecide(rows: seq<Stored>)
    requires Ordered(rows, OPENING_KEY) && Filled(rows)
    ensures NeighboursApart(rows) <==> AllApart(rows)
  {
    if NeighboursApart(rows) {
      ChainIsApart(rows);
    } else if AllApart(rows) {
      ApartIsChain(rows);
    }
  }

  // ----- kinds -------------------------------------------------------------

  /** Apart from every session of its own kind. */
  ghost predicate FitsIn(x: Stored, rows: seq<Stored>) {
    x.opens < x.closes && forall i :: 0 <= i < |rows| && rows[i].kind == x.kind ==> Apart(x, rows[i])
  }

  lemma NoOverlapSnoc(rows: seq<Stored>, x: Stored)
    ensures NoOverlap(rows + [x]) <==> FitsIn(x, rows) && NoOverlap(rows)
  {
    var all, n := rows + [x], |rows|;
    if NoOverlap(all) {
      assert all[n] == x;
      forall i | 0 <= i < n ensures rows[i].opens < rows[i].closes && (rows[i].kind == x.kind ==> Apart(x, rows[i])) {
        assert all[i] == rows[i];
        assert all[i].kind == all[n].kind ==> Apart(all[i], all[n]);
      }
      forall i, j | 0 <= i < j < n && rows[i].kind == rows[j].kind ensures Apart(rows[i], rows[j]) {
        assert all[i] == rows[i] && all[j] == rows[j];
      }
    }
  }

  lemma {:induction false} FitsInKind(x: Stored, rows: seq<Stored>)
    ensures FitsIn(x, rows) <==> ApartFrom(x, OfKind(rows, x.kind))
  {
    if rows != [] {
      var n := |rows| - 1;
      var front, last := rows[..n], rows[n];
      FitsInKind(x, front);
      assert rows == front + [last];
      assert FitsIn(x, rows) <==> FitsIn(x, front) && (last.kind == x.kind ==> Apart(x, last)) by {
        assert forall i :: 0 <= i < n ==> rows[i] == front[i];
      }
      ApartFromSnoc(x, OfKind(front, x.kind), last);
    }
  }

  lemma ApartFromSnoc(x: Stored, rows: seq<Stored>, y: Stored)
    ensures ApartFrom(x, rows + [y]) <==> ApartFrom(x, rows) && Apart(x, y)
  {
    var all := rows + [y];
    assert all[|rows|] == y && forall i :: 0 <= i < |rows| ==> all[i] == rows[i];
  }

  /** Checking each kind by itself decides the whole snapshot. */
  lemma {:induction false} KindsDecide(rows: seq<Stored>)
    ensures NoOverlap(rows) <==> AllApart(OfKind(rows, Trading)) && AllApart(OfKind(rows, Liquid))
  {
    if rows != [] {
      var n := |rows| - 1;
      var front, last := rows[..n], rows[n];
      assert rows == front + [last];
      KindsDecide(front);
      NoOverlapSnoc(front, last);
      FitsInKind(last, front);
      AllApartSnoc(OfKind(front, last.kind), last);
    }
  }

  lemma {:induction false} OfKindFilled(rows: seq<Stored>, kind: Kind)
    requires Filled(rows)
    ensures Filled(OfKind(rows, kind))
  {
    if rows != [] {
      OfKindFilled(rows[..|rows| - 1], kind);
    }
  }

  /** Sorts one kind and compares neighbours. */
  method KindIsApart(rows: seq<Stored>, kind: Kind) returns (apart: bool)
    requires Filled(rows)
    ensures apart <==> AllApart(OfKind(rows, kind))
  {
    var scoped := OfKind(rows, kind);
    var ordered := Sort(scoped, OPENING_KEY);
    OfKindFilled(rows, kind);
    SortKeeps(scoped, OPENING_KEY);
    forall k | 0 <= k < |ordered| ensures ordered[k].opens < ordered[k].closes {
      SameMembers(scoped, OPENING_KEY, ordered[k]);
    }
    NeighboursDecide(ordered);
    SortApart(scoped);
    for i := 0 to |ordered|
      invariant forall k :: 0 < k < i ==> ordered[k - 1].closes <= ordered[k].opens
    {
      if i > 0 && ordered[i].opens < ordered[i - 1].closes {
        return false;
      }
    }
    apart := true;
  }

  /** A session listed twice overlaps itself. */
  lemma DuplicateOverlaps(rows: seq<Stored>, i: nat, j: nat)
    requires i < j < |rows| && rows[i].kind == rows[j].kind
    requires rows[i].opens == rows[j].opens < rows[i].closes
    ensures !NoOverlap(rows)
  {
    if rows[j].opens < rows[j].closes {
      assert !Apart(rows[i], rows[j]);
    }
  }

  datatype Bounds = Bounds(kind: Kind, opens: int, closes: int)

  /** Admits exactly the snapshots whose items are readable, inside the declared
      coverage, and of which no two of one kind overlap. The separate check for
      duplicates never decides: what it refuses overlaps itself. */
  method Normalize(items: seq<Item>, from: int, to: int, fetchedAt: int) returns (r: Result<seq<Stored>>)
    ensures r.Success? <==> from < to && items != [] && ItemsOk(items, from, to) && NoOverlap(RowsOf(items, from, to, fetchedAt))
    ensures r.Success? ==> r.value == RowsOf(items, from, to, fetchedAt)
  {
    if to <= from {
      return Failure("PROVIDER_SCHEDULE_COVERAGE_RANGE_INVALID");
    }
    if items == [] {
      return Failure("PROVIDER_SCHEDULE_INTERVALS_REQUIRED");
    }
    var rows: seq<Stored>, seen: set<Bounds> := [], {};
    for i := 0 to |items|
      invariant |rows| == i
      invariant forall k :: 0 <= k < i ==> ItemOk(items[k], from, to) && rows[k] == RowOf(items[k], fetchedAt)
      invariant forall b :: b in seen <==> exists k :: 0 <= k < i && b == Bounds(rows[k].kind, rows[k].opens, rows[k].closes)
    {
      if !ItemOk(items[i], from, to) {
        return Failure("PROVIDER_SCHEDULE_INTERVAL_INVALID");
      }
      var row := RowOf(items[i], fetchedAt);
      if Bounds(row.kind, row.opens, row.closes) in seen {
        ghost var k :| 0 <= k < i && Bounds(row.kind, row.opens, row.closes) == Bounds(rows[k].kind, rows[k].opens, rows[k].closes);
        if ItemsOk(items, from, to) {
          DuplicateOverlaps(RowsOf(items, from, to, fetchedAt), k, i);
        }
        return Failure("PROVIDER_SCHEDULE_INTERVAL_DUPLICATE");
      }
      seen := seen + {Bounds(row.kind, row.opens, row.closes)};
      rows := rows + [row];
    }
    assert rows == RowsOf(items, from, to, fetchedAt);
    KindsDecide(rows);
    var trading := KindIsApart(rows, Trading);
    var liquid := KindIsApart(rows, Liquid);
    if !trading || !liquid {
      return Failure("PROVIDER_SCHEDULE_INTERVAL_OVERLAP");
    }
    r := Success(rows);
  }

  // ----- replacing what a snapshot overlaps --------------------------------

  /** From the first opening to the last close of a kind. */
  function Horizon(rows: seq<Stored>, kind: Kind): Option<Interval> {
    if rows == [] then None
    else
      var front, last := Horizon(rows[..|rows| - 1], kind), rows[|rows| - 1];
      if last.kind != kind then front
      else if front.None? then Some(Interval(last.opens, last.closes))
      else Some(Interval(
        if last.opens < front.value.from then last.opens else front.value.from,
        if last.closes > front.value.to then last.closes else front.value.to))
  }

  /** Overlaps the horizon the snapshot replaces. */
  predicate Obsolete(s: Stored, rows: seq<Stored>) {
    var horizon := Horizon(rows, s.kind);
    horizon.Some? && s.opens < horizon.value.to && s.closes > horizon.value.from
  }

  function Remaining(table: seq<Stored>, rows: seq<Stored>): seq<Stored> {
    if table == [] then []
    else
      var front, last := Remaining(table[..|table| - 1], rows), table[|table| - 1];
      if Obsolete(last, rows) then front else front + [last]
  }

  function Replaced(table: seq<Stored>, rows: seq<Stored>): seq<Stored> {
    Remaining(table, rows) + rows
  }

  lemma {:induction false} HorizonHolds(rows: seq<Stored>, kind: Kind)
    ensures forall i :: 0 <= i < |rows| && rows[i].kind == kind ==>
      Horizon(rows, kind).Some? && Horizon(rows, kind).value.from <= rows[i].opens && rows[i].closes <= Horizon(rows, kind).value.to
  {
    if rows != [] {
      var n := |rows| - 1;
      HorizonHolds(rows[..n], kind);
      assert forall i :: 0 <= i < n ==> rows[i] == rows[..n][i];
    }
  }

  /** What stays stored is apart from everything the snapshot brings. */
  lemma RemainingFits(s: Stored, rows: seq<Stored>)
    requires s.opens < s.closes && !Obsolete(s, rows)
    ensures FitsIn(s, rows)
  {
    HorizonHolds(rows, s.kind);
  }

  lemma {:induction false} RemainingMembers(table: seq<Stored>, rows: seq<Stored>, s: Stored)
    ensures s in Remaining(table, rows) <==> s in table && !Obsolete(s, rows)
  {
    if table != [] {
      RemainingMembers(table[..|table| - 1], rows, s);
      assert table == table[..|table| - 1] + [table[|table| - 1]];
    }
  }

  lemma {:induction false} RemainingKeepsFit(x: Stored, table: seq<Stored>, rows: seq<Stored>)
    requires FitsIn(x, table)
    ensures FitsIn(x, Remaining(table, rows))
  {
    if table != [] {
      var n := |table| - 1;
      var front, last := table[..n], table[n];
      assert table == front + [last];
      FitsInSnoc(x, front, last);
      RemainingKeepsFit(x, front, rows);
      FitsInSnoc(x, Remaining(front, rows), last);
    }
  }

  lemma {:induction false} RemainingKeeps(table: seq<Stored>, rows: seq<Stored>)
    requires NoOverlap(table)
    ensures NoOverlap(Remaining(table, rows))
  {
    if table != [] {
      var n := |table| - 1;
      var front, last := table[..n], table[n];
      assert table == front + [last];
      NoOverlapSnoc(front, last);
      RemainingKeeps(front, rows);
      RemainingKeepsFit(last, front, rows);
      NoOverlapSnoc(Remaining(front, rows), last);
    }
  }

  lemma FitsInSnoc(x: Stored, rows: seq<Stored>, y: Stored)
    ensures FitsIn(x, rows + [y]) <==> FitsIn(x, rows) && (y.kind == x.kind ==> Apart(x, y))
  {
    var all := rows + [y];
    assert all[|rows|] == y && forall i :: 0 <= i < |rows| ==> all[i] == rows[i];
  }

  lemma {:induction false} JoinNoOverlap(table: seq<Stored>, rows: seq<Stored>)
    requires NoOverlap(table) && NoOverlap(rows)
    requires forall i :: 0 <= i < |table| ==> FitsIn(table[i], rows)
    ensures NoOverlap(table + rows)
  {
    var all := table + rows;
    forall i, j | 0 <= i < j < |all| && all[i].kind == all[j].kind ensures Apart(all[i], all[j]) {
      if i < |table| && j >= |table| {
        assert FitsIn(table[i], rows) && rows[j - |table|] == all[j];
      }
    }
  }

  /** Replacing keeps stored sessions from overlapping; of the replaced horizons
      exactly the snapshot is left, and the rest is untouched. */
  lemma ReplaceKeeps(table: seq<Stored>, rows: seq<Stored>)
    requires NoOverlap(table) && NoOverlap(rows)
    ensures NoOverlap(Replaced(table, rows))
    ensures forall s :: s in Replaced(table, rows) <==> s in rows || (s in table && !Obsolete(s, rows))
  {
    RemainingKeeps(table, rows);
    var kept := Remaining(table, rows);
    forall s ensures s in kept <==> s in table && !Obsolete(s, rows) {
      RemainingMembers(table, rows, s);
    }
    forall i | 0 <= i < |kept| ensures FitsIn(kept[i], rows) {
      assert kept[i] in kept;
      RemainingFits(kept[i], rows);
    }
    JoinNoOverlap(kept, rows);
  }

  // ----- every stored schedule ---------------------------------------------

  /** A snapshot arrives, differing from the newest one or not, or the route's
      schedule is deleted. */
  datatype Event = Snapshot(items: seq<Item>, from: int, to: int, fetchedAt: int, changed: bool) | Delete {

    /** Whether this stores anything. */
    ghost predicate Stores() {
      && Snapshot? && changed && from < to && items != [] && ItemsOk(items, from, to)
      && NoOverlap(RowsOf(items, from, to, fetchedAt))
    }

    ghost predicate Brings(s: Stored) {
      Stores() && s in RowsOf(items, from, to, fetchedAt)
    }

    /** Takes a session out of the store, unless it brings it back. */
    ghost predicate Clears(s: Stored) {
      Delete? || (Stores() && Obsolete(s, RowsOf(items, from, to, fetchedAt)))
    }
  }

  ghost function Step(table: seq<Stored>, e: Event): seq<Stored> {
    if e.Delete? then []
    else if e.Stores() then Replaced(table, RowsOf(e.items, e.from, e.to, e.fetchedAt))
    else table
  }

  ghost function Run(events: seq<Event>): seq<Stored> {
    if events == [] then [] else Step(Run(events[..|events| - 1]), events[|events| - 1])
  }

  /** Stores an admitted snapshot that changes the schedule. */
  method Upsert(table: seq<Stored>, e: Event) returns (r: Result<seq<Stored>>)
    requires e.Snapshot?
    ensures r.Success? ==> r.value == Step(table, e)
    ensures r.Failure? ==> Step(table, e) == table
  {
    var admitted := Normalize(e.items, e.from, e.to, e.fetchedAt);
    if admitted.Failure? {
      return Failure(admitted.code);
    }
    r := Success(if e.changed then Replaced(table, admitted.value) else table);
  }

  /** Whatever snapshots arrive and whenever the schedule is deleted, the stored
      sessions of a kind never overlap. */
  lemma {:induction false} EveryReachableTable(events: seq<Event>)
    ensures NoOverlap(Run(events))
  {
    if events != [] {
      var n := |events| - 1;
      EveryReachableTable(events[..n]);
      var e := events[n];
      if e.Stores() {
        ReplaceKeeps(Run(events[..n]), RowsOf(e.items, e.from, e.to, e.fetchedAt));
      }
    }
  }

  /** The event that last touched where this session lies brought it. */
  ghost predicate BroughtLast(s: Stored, events: seq<Event>) {
    exists k ::
      && 0 <= k < |events| && events[k].Brings(s)
      && forall m :: k < m < |events| ==> events[m].Brings(s) || !events[m].Clears(s)
  }

  lemma BroughtLastStep(s: Stored, events: seq<Event>)
    requires events != []
    ensures
      var n := |events| - 1;
      BroughtLast(s, events) <==> events[n].Brings(s) || (BroughtLast(s, events[..n]) && !events[n].Clears(s))
  {
    var n := |events| - 1;
    var front := events[..n];
    if BroughtLast(s, front) && !events[n].Clears(s) {
      var k :| 0 <= k < n && front[k].Brings(s) && forall m :: k < m < n ==> front[m].Brings(s) || !front[m].Clears(s);
      assert events[k].Brings(s);
      forall m | k < m < |events| ensures events[m].Brings(s) || !events[m].Clears(s) {
        assert m < n ==> events[m] == front[m];
      }
    }
    if BroughtLast(s, events) && !events[n].Brings(s) {
      var k :| 0 <= k < |events| && events[k].Brings(s) && forall m :: k < m < |events| ==> events[m].Brings(s) || !events[m].Clears(s);
      assert front[k].Brings(s);
      forall m | k < m < n ensures front[m].Brings(s) || !front[m].Clears(s) {
        assert events[m] == front[m];
      }
    }
  }

  /** A session is stored exactly when some snapshot brought it and nothing later
      replaced its place without bringing it again. */
  lemma {:induction false} StoredIffBroughtLast(events: seq<Event>, s: Stored)
    ensures s in Run(events) <==> BroughtLast(s, events)
  {
    if events != [] {
      var n := |events| - 1;
      var e := events[n];
      StoredIffBroughtLast(events[..n], s);
      EveryReachableTable(events[..n]);
      BroughtLastStep(s, events);
      if e.Stores() {
        ReplaceKeeps(Run(events[..n]), RowsOf(e.items, e.from, e.to, e.fetchedAt));
      }
    }
  }

  // ----- reading it back ---------------------------------------------------

  /** The horizon a snapshot vouches for, where it is known. */
  type Source = Stored -> Option<Interval>

  function Overlapping(table: seq<Stored>, kind: Kind, from: int, to: int): seq<Stored> {
    if table == [] then []
    else
      var front, last := Overlapping(table[..|table| - 1], kind, from, to), table[|table| - 1];
      if last.kind == kind && last.opens < to && last.closes > from then front + [last] else front
  }

  function ReadBack(s: Stored, source: Source): Row {
    var horizon := source(s);
    Row(if s.open then Open else Closed, Some(s.opens), Some(s.closes),
      if horizon.Some? then Some(horizon.value.from) else None, if horizon.Some? then Some(horizon.value.to) else None)
  }

  /** The sessions of a kind overlapping a window, in order, at most `limit`. */
  function Selected(table: seq<Stored>, kind: Kind, from: int, to: int, limit: nat): seq<Stored> {
    var all := Sort(Overlapping(table, kind, from, to), OPENING_KEY);
    if |all| > limit then all[..limit] else all
  }

  function ReadRows(selected: seq<Stored>, source: Source): (rows: seq<Row>)
    ensures |rows| == |selected|
    ensures forall i :: 0 <= i < |rows| ==> rows[i] == ReadBack(selected[i], source)
  {
    seq(|selected|, i requires 0 <= i < |selected| => ReadBack(selected[i], source))
  }

  /** One non-empty session after the other. */
  ghost predicate Chained(rows: seq<Stored>) {
    && Filled(rows)
    && (forall i, j :: 0 <= i < j < |rows| ==> rows[i].closes <= rows[j].opens)
  }

  lemma {:induction false} OverlappingKeeps(table: seq<Stored>, kind: Kind, from: int, to: int)
    requires NoOverlap(table)
    ensures AllApart(Overlapping(table, kind, from, to))
  {
    if table != [] {
      var n := |table| - 1;
      var front, last := table[..n], table[n];
      assert table == front + [last];
      NoOverlapSnoc(front, last);
      OverlappingKeeps(front, kind, from, to);
      if last.kind == kind {
        OverlappingFits(last, front, from, to);
      }
      AllApartSnoc(Overlapping(front, kind, from, to), last);
    }
  }

  lemma {:induction false} OverlappingFits(x: Stored, table: seq<Stored>, from: int, to: int)
    requires FitsIn(x, table)
    ensures ApartFrom(x, Overlapping(table, x.kind, from, to))
  {
    if table != [] {
      var n := |table| - 1;
      assert table == table[..n] + [table[n]];
      FitsInSnoc(x, table[..n], table[n]);
      OverlappingFits(x, table[..n], from, to);
      ApartFromSnoc(x, Overlapping(table[..n], x.kind, from, to), table[n]);
    }
  }

  lemma {:induction false} OverlappingMembers(table: seq<Stored>, kind: Kind, from: int, to: int, s: Stored)
    ensures s in Overlapping(table, kind, from, to) <==> s in table && s.kind == kind && s.opens < to && s.closes > from
  {
    if table != [] {
      OverlappingMembers(table[..|table| - 1], kind, from, to, s);
      assert table == table[..|table| - 1] + [table[|table| - 1]];
    }
  }

  lemma OrderedIsChained(rows: seq<Stored>)
    requires Ordered(rows, OPENING_KEY) && AllApart(rows)
    ensures Chained(rows)
  {
    ApartIsChain(rows);
    forall i, j | 0 <= i < j < |rows| ensures rows[i].closes <= rows[j].opens {
      ChainReaches(rows, i, j);
    }
  }

  lemma ChainedPrefix(rows: seq<Stored>, n: nat)
    requires Chained(rows) && n <= |rows|
    ensures Chained(rows[..n])
  {
  }

  lemma SelectedIsChained(table: seq<Stored>, kind: Kind, from: int, to: int, limit: nat)
    requires NoOverlap(table)
    ensures Chained(Selected(table, kind, from, to, limit))
  {
    var found := Overlapping(table, kind, from, to);
    var all := Sort(found, OPENING_KEY);
    OverlappingKeeps(table, kind, from, to);
    SortApart(found);
    SortKeeps(found, OPENING_KEY);
    OrderedIsChained(all);
    if |all| > limit {
      ChainedPrefix(all, limit);
    }
  }

  lemma {:induction false} SessionsAreDisjoint(selected: seq<Stored>, source: Source)
    requires Chained(selected)
    ensures Disjoint(Sessions(ReadRows(selected, source)))
    ensures forall i :: i in Sessions(ReadRows(selected, source)) ==>
      selected != [] && i.to <= selected[|selected| - 1].closes
  {
    if selected != [] {
      var n := |selected| - 1;
      SessionsAreDisjoint(selected[..n], source);
      var rows := ReadRows(selected, source);
      assert rows[..n] == ReadRows(selected[..n], source);
      var front := Sessions(rows[..n]);
      if rows[n].Sound() && rows[n].status.Open? {
        var last := Interval(selected[n].opens, selected[n].closes);
        forall k | 0 <= k < |front| ensures front[k].to <= last.from {
          assert front[k] in front;
        }
        assert Sessions(rows) == front + [last];
      }
    }
  }

  /** An open session a known horizon vouches for. */
  predicate Tells(s: Stored, source: Source, session: Interval) {
    ReadBack(s, source).Sound() && s.open && session == Interval(s.opens, s.closes)
  }

  lemma {:induction false} SessionsTold(selected: seq<Stored>, source: Source, session: Interval)
    ensures session in Sessions(ReadRows(selected, source)) <==> exists s :: s in selected && Tells(s, source, session)
  {
    if selected != [] {
      var n := |selected| - 1;
      SessionsTold(selected[..n], source, session);
      var rows := ReadRows(selected, source);
      assert rows[..n] == ReadRows(selected[..n], source);
      assert session in Sessions(rows) <==> session in Sessions(rows[..n]) || Tells(selected[n], source, session);
      assert selected == selected[..n] + [selected[n]];
      if exists s :: s in selected && Tells(s, source, session) {
        var s :| s in selected && Tells(s, source, session);
        assert s in selected[..n] || s == selected[n];
      }
    }
  }

  /** Unless the rows are cut off, the sessions read back are exactly the open ones
      of the kind that overlap the window, were brought last and are vouched for. */
  lemma SessionsReadBack(
    events: seq<Event>, kind: Kind, from: int, to: int, rowLimit: nat, source: Source, session: Interval)
    requires |Overlapping(Run(events), kind, from, to)| <= rowLimit
    ensures session in Sessions(ReadRows(Selected(Run(events), kind, from, to, rowLimit), source)) <==>
      exists s :: Tells(s, source, session) && BroughtLast(s, events) && s.kind == kind && s.opens < to && s.closes > from
  {
    var table := Run(events);
    var found := Overlapping(table, kind, from, to);
    var selected := Selected(table, kind, from, to, rowLimit);
    SessionsTold(selected, source, session);
    forall s ensures s in selected <==> BroughtLast(s, events) && s.kind == kind && s.opens < to && s.closes > from {
      SameMembers(found, OPENING_KEY, s);
      OverlappingMembers(table, kind, from, to, s);
      StoredIffBroughtLast(events, s);
    }
  }

  lemma {:induction false} DisjointIsSorted(sessions: seq<Interval>)
    requires Disjoint(sessions)
    ensures Sort(sessions, INTERVAL_KEY) == sessions
  {
    if sessions != [] {
      var rest := sessions[1..];
      assert forall i :: 0 <= i < |rest| ==> rest[i] == sessions[i + 1];
      DisjointIsSorted(rest);
      if rest != [] {
        assert sessions[0].to <= sessions[1].from;
      }
      assert [sessions[0]] + rest == sessions;
    }
  }

  /** Whatever has been stored, what is read back of a kind, cut off at any row
      limit, is a run of disjoint sessions; from page to page all their slots are
      read, each once and in order, with either stamping, every timeframe and every
      page size. */
  lemma StoredSessionsAreRead(
    events: seq<Event>, kind: Kind, from: int, to: int, rowLimit: nat, source: Source,
    stamping: Stamping, timeframe: Timeframe, start: int, end: int, limit: nat)
    requires limit >= 1
    ensures
      var sessions := Sessions(Kept(ReadRows(Selected(Run(events), kind, from, to, rowLimit), source)));
      var grid := SessionGrid(stamping, timeframe);
      var read := ReadPages(Sort(sessions, INTERVAL_KEY), grid, start, end, limit);
      && Disjoint(sessions)
      && Increasing(read)
      && forall t :: t in read <==> t in Stream(sessions, grid, start, end)
  {
    var selected := Selected(Run(events), kind, from, to, rowLimit);
    EveryReachableTable(events);
    SelectedIsChained(Run(events), kind, from, to, rowLimit);
    var kept := if |selected| > ROW_LIMIT then selected[..ROW_LIMIT] else selected;
    assert Kept(ReadRows(selected, source)) == ReadRows(kept, source);
    SessionsAreDisjoint(kept, source);
    var sessions := Sessions(ReadRows(kept, source));
    DisjointIsSorted(sessions);
    DisjointSessionsAreRead(stamping, timeframe, sessions, start, end, limit);
  }

  // ----- what a replacement takes out --------------------------------------

  /** The horizon of a kind reaches from its first opening to its last close, so a
      stored session stays exactly if it closes before the one or opens after the
      other, or the schedule has no session of its kind. */
  lemma {:induction false} ObsoleteIff(s: Stored, rows: seq<Stored>)
    ensures Obsolete(s, rows) <==>
      && (exists a :: a in rows && a.kind == s.kind && s.closes > a.opens)
      && (exists b :: b in rows && b.kind == s.kind && s.opens < b.closes)
  {
    HorizonEnds(rows, s.kind);
    if exists a :: a in rows && a.kind == s.kind {
      var horizon := Horizon(rows, s.kind).value;
      var first :| first in rows && first.kind == s.kind && first.opens == horizon.from;
      var last :| last in rows && last.kind == s.kind && last.closes == horizon.to;
    }
  }

  lemma {:induction false} HorizonEnds(rows: seq<Stored>, kind: Kind)
    ensures
      var horizon := Horizon(rows, kind);
      && (horizon.Some? <==> exists a :: a in rows && a.kind == kind)
      && (horizon.Some? ==>
            && (exists a :: a in rows && a.kind == kind && a.opens == horizon.value.from)
            && (exists b :: b in rows && b.kind == kind && b.closes == horizon.value.to)
            && (forall a :: a in rows && a.kind == kind ==> horizon.value.from <= a.opens && a.closes <= horizon.value.to))
  {
    if rows != [] {
      var n := |rows| - 1;
      HorizonEnds(rows[..n], kind);
      assert forall a :: a in rows <==> a in rows[..n] || a == rows[n];
      if rows[n].kind == kind {
        assert rows[n] in rows;
      }
    }
  }

  // ----- rows that do not fit ----------------------------------------------

  /** A row limit keeps the earliest sessions: what is left out opens only after all
      of what is kept has closed. */
  lemma SelectedAreEarliest(table: seq<Stored>, kind: Kind, from: int, to: int, limit: nat, s: Stored)
    requires NoOverlap(table) && s in Overlapping(table, kind, from, to)
    ensures
      var selected := Selected(table, kind, from, to, limit);
      s in selected || (|selected| == limit && forall k :: 0 <= k < |selected| ==> selected[k].closes <= s.opens)
  {
    var found := Overlapping(table, kind, from, to);
    SortedIsChained(table, kind, from, to);
    SameMembers(found, OPENING_KEY, s);
    FirstAreEarliest(Sort(found, OPENING_KEY), limit, s);
  }

  lemma SortedIsChained(table: seq<Stored>, kind: Kind, from: int, to: int)
    requires NoOverlap(table)
    ensures Chained(Sort(Overlapping(table, kind, from, to), OPENING_KEY))
  {
    var found := Overlapping(table, kind, from, to);
    OverlappingKeeps(table, kind, from, to);
    SortApart(found);
    SortKeeps(found, OPENING_KEY);
    OrderedIsChained(Sort(found, OPENING_KEY));
  }

  lemma FirstAreEarliest(all: seq<Stored>, limit: nat, s: Stored)
    requires Chained(all) && s in all
    ensures
      var first := if |all| > limit then all[..limit] else all;
      s in first || (|first| == limit && forall k :: 0 <= k < |first| ==> first[k].closes <= s.opens)
  {
    var j :| 0 <= j < |all| && all[j] == s;
    if j < limit && limit < |all| {
      assert all[..limit][j] == s;
    }
  }

  /** Where a reader of a cut-off row list is told to go on is the end of the range, or
      the close of the last row it was given: no row it was not given opens before. */
  lemma CutCursorSkipsNothing(selected: seq<Stored>, source: Source, end: int, k: int)
    requires Chained(selected) && 2048 <= k < |selected|
    ensures
      var cursor := CutCursor(ReadRows(selected, source), end);
      && cursor.Some? && cursor.value <= end && cursor.value <= selected[k].opens
      && (cursor.value == end || forall i :: 0 <= i < 2048 ==> selected[i].closes <= cursor.value)
  {
    assert ReadRows(selected, source)[2047] == ReadBack(selected[2047], source);
    assert selected[2047].closes <= selected[k].opens;
    forall i | 0 <= i < 2048 ensures selected[i].closes <= selected[2047].closes {
      if i < 2047 {
        assert selected[i].closes <= selected[2047].opens && selected[2047].opens < selected[2047].closes;
      }
    }
  }
}
