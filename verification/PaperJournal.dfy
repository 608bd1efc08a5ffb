/** The generation-fenced paper-journal projection. */
module PaperJournal {
  import opened Wrappers

  /** A journal row; `identified` says that its instrument, route and contract
      identity are well formed. */
  datatype Row = Row(id: string, status: string, identified: bool, body: nat)

  /** Reloaded from the database only after a committed mutation advanced the
      generation, and published only if no further mutation was marked while it
      was being read. */
  datatype Journal = Journal(generation: nat, loaded: Option<nat>, orders: seq<Row>, positions: seq<Row>)

  const EMPTY := Journal(0, None, [], [])

  /** Every row is identified, has the given status, and an id of its own. */
  predicate Acceptable(rows: seq<Row>, status: string) {
    && (forall i :: 0 <= i < |rows| ==> rows[i].id != "" && rows[i].identified && rows[i].status == status)
    && (forall i, j :: 0 <= i < j < |rows| ==> rows[i].id != rows[j].id)
  }

  /** The generation to load, unless the projection is up to date. */
  function RefreshGeneration(p: Journal): Option<nat> {
    if p.loaded == Some(p.generation) then None else Some(p.generation)
  }

  function MarkCommitted(p: Journal): Journal {
    p.(generation := p.generation + 1)
  }

  /** Whether the rows were taken; refused rows leave the journal as it was. */
  function Publish(p: Journal, orders: seq<Row>, positions: seq<Row>, generation: nat): (Journal, Result<bool>) {
    if !Acceptable(orders, "pending") then (p, Failure("PAPER_ORDER_RUNTIME_INVALID"))
    else if !Acceptable(positions, "open") then (p, Failure("PAPER_POSITION_RUNTIME_INVALID"))
    else if generation > p.generation then (p, Failure("PAPER_JOURNAL_RUNTIME_GENERATION_FUTURE"))
    else if generation != p.generation then (p, Success(false))
    else (Journal(p.generation, Some(generation), orders, positions), Success(true))
  }

  /** Rows are taken exactly when every order is pending and every position open, all
      with their identity and an id of their own, and nothing was marked since the
      generation they were read for; a generation that was never marked is refused. */
  lemma PublishTakesIff(p: Journal, orders: seq<Row>, positions: seq<Row>, generation: nat)
    ensures
      var (after, r) := Publish(p, orders, positions, generation);
      var clean := AllAre(orders, "pending") && AllAre(positions, "open");
      && (r == Success(true) <==> clean && generation == p.generation)
      && (r == Success(false) <==> clean && generation < p.generation)
      && after == if r == Success(true) then Journal(generation, Some(generation), orders, positions) else p
  {
    AllAreAcceptable(orders, "pending");
    AllAreAcceptable(positions, "open");
  }

  /** Rows of one status, each identified and with an id no other has. */
  ghost predicate AllAre(rows: seq<Row>, status: string) {
    forall i :: 0 <= i < |rows| ==>
      && rows[i].status == status && rows[i].identified && rows[i].id != ""
      && forall j :: 0 <= j < |rows| && j != i ==> rows[j].id != rows[i].id
  }

  lemma AllAreAcceptable(rows: seq<Row>, status: string)
    ensures AllAre(rows, status) <==> Acceptable(rows, status)
  {
    if Acceptable(rows, status) {
      forall i, j | 0 <= i < |rows| && 0 <= j < |rows| && i != j ensures rows[i].id != rows[j].id {
        if i < j {
          assert rows[i].id != rows[j].id;
        } else {
          assert rows[j].id != rows[i].id;
        }
      }
    }
  }

  // ----- runs: commits, marks and refreshes in any order -------------------

  datatype Database = Database(orders: seq<Row>, positions: seq<Row>)

  /** One pass of the refresh loop: the generation it read first, then the version
      of the database at each of its two reads. */
  datatype Attempt = Attempt(generation: nat, orders: Option<nat>, positions: Option<nat>)

  /** `versions` is every state the database went through; `marks[k]` the version
      that the k-th mark announced; `orders` and `positions` the versions shown. */
  datatype World = World(
    journal: Journal,
    versions: seq<Database>,
    marks: seq<nat>,
    attempts: seq<Attempt>,
    orders: nat,
    positions: nat
  )

  datatype Event =
    | Commit(next: Database)
    | Mark(version: nat)
    | BeginRefresh
    | ReadOrders(attempt: nat)
    | ReadPositions(attempt: nat)
    | Offer(attempt: nat)

  function Now(w: World): nat
    requires w.versions != []
  {
    |w.versions| - 1
  }

  predicate HasBegun(w: World, attempt: nat) {
    attempt < |w.attempts|
  }

  predicate IsRead(w: World, attempt: nat) {
    HasBegun(w, attempt) && w.attempts[attempt].orders.Some? && w.attempts[attempt].positions.Some?
      && w.attempts[attempt].orders.value < |w.versions| && w.attempts[attempt].positions.value < |w.versions|
  }

  function Offered(w: World, attempt: nat): (Journal, Result<bool>)
    requires IsRead(w, attempt)
  {
    var a := w.attempts[attempt];
    Publish(w.journal, w.versions[a.orders.value].orders, w.versions[a.positions.value].positions, a.generation)
  }

  function Step(w: World, event: Event): World
    requires w.versions != []
  {
    match event
    case Commit(next) => w.(versions := w.versions + [next])
    case Mark(version) =>
      if version > Now(w) then w else w.(journal := MarkCommitted(w.journal), marks := w.marks + [version])
    case BeginRefresh =>
      var g := RefreshGeneration(w.journal);
      if g.None? then w else w.(attempts := w.attempts + [Attempt(g.value, None, None)])
    case ReadOrders(k) =>
      if HasBegun(w, k) && w.attempts[k].orders.None? then
        w.(attempts := w.attempts[k := w.attempts[k].(orders := Some(Now(w)))])
      else w
    case ReadPositions(k) =>
      if HasBegun(w, k) && w.attempts[k].orders.Some? && w.attempts[k].positions.None? then
        w.(attempts := w.attempts[k := w.attempts[k].(positions := Some(Now(w)))])
      else w
    case Offer(k) =>
      if !IsRead(w, k) then w
      else
        var (journal, taken) := Offered(w, k);
        if taken == Success(true) then
          w.(journal := journal, orders := w.attempts[k].orders.value, positions := w.attempts[k].positions.value)
        else w.(journal := journal)
  }

  /** The version includes everything the first `g` marks announced. */
  ghost predicate Includes(marks: seq<nat>, g: nat, version: nat) {
    forall k :: 0 <= k < g && k < |marks| ==> marks[k] <= version
  }

  ghost predicate AttemptOk(w: World, a: Attempt) {
    && a.generation <= w.journal.generation
    && (a.orders.Some? ==> a.orders.value < |w.versions| && Includes(w.marks, a.generation, a.orders.value))
    && (a.positions.Some? ==>
      a.orders.Some? && a.orders.value <= a.positions.value < |w.versions| && Includes(w.marks, a.generation, a.positions.value))
  }

  /** The rows shown are two reads of the database, orders first, both after every
      mutation announced by the loaded generation. */
  ghost predicate Shows(w: World) {
    w.journal.loaded.Some? ==>
      && w.journal.loaded.value <= w.journal.generation
      && w.orders <= w.positions < |w.versions|
      && w.journal.orders == w.versions[w.orders].orders
      && w.journal.positions == w.versions[w.positions].positions
      && Includes(w.marks, w.journal.loaded.value, w.orders)
  }

  ghost predicate Inv(w: World) {
    && w.versions != [] && w.journal.generation == |w.marks|
    && (forall k :: 0 <= k < |w.marks| ==> w.marks[k] < |w.versions|)
    && (forall k :: 0 <= k < |w.attempts| ==> AttemptOk(w, w.attempts[k]))
  }

  lemma StepKeepsInv(w: World, event: Event)
    requires Inv(w)
    ensures Inv(Step(w, event))
  {
    var after := Step(w, event);
    forall k | 0 <= k < |w.attempts| ensures AttemptOk(after, after.attempts[k]) {
      assert AttemptOk(w, w.attempts[k]);
    }
  }

  lemma StepKeepsShows(w: World, event: Event)
    requires Inv(w) && Shows(w)
    ensures Shows(Step(w, event))
  {
    if event.Offer? && IsRead(w, event.attempt) {
      assert AttemptOk(w, w.attempts[event.attempt]);
    }
  }

  ghost predicate IsRun(worlds: seq<World>, events: seq<Event>) {
    && |worlds| == |events| + 1
    && (exists first :: worlds[0] == World(EMPTY, [first], [], [], 0, 0))
    && (forall i :: 0 <= i < |worlds| ==> worlds[i].versions != [])
    && (forall i :: 0 <= i < |events| ==> worlds[i + 1] == Step(worlds[i], events[i]))
  }

  lemma {:induction false} EveryReachableJournal(worlds: seq<World>, events: seq<Event>, i: nat)
    requires IsRun(worlds, events) && i < |worlds|
    ensures Inv(worlds[i]) && Shows(worlds[i])
  {
    if i > 0 {
      EveryReachableJournal(worlds, events, i - 1);
      StepKeepsInv(worlds[i - 1], events[i - 1]);
      StepKeepsShows(worlds[i - 1], events[i - 1]);
    }
  }

  /** The loaded generation never goes back, and marks are never forgotten. */
  lemma {:induction false} LoadedGrows(worlds: seq<World>, events: seq<Event>, i: nat, n: nat)
    requires IsRun(worlds, events) && i <= n < |worlds|
    ensures worlds[i].marks <= worlds[n].marks && worlds[i].journal.generation <= worlds[n].journal.generation
    ensures LoadedAtLeast(worlds[i].journal, worlds[n].journal.loaded)
    decreases n - i
  {
    if i < n {
      LoadedGrows(worlds, events, i, n - 1);
      EveryReachableJournal(worlds, events, n - 1);
    }
  }

  predicate LoadedAtLeast(p: Journal, loaded: Option<nat>) {
    p.loaded.Some? ==> loaded.Some? && p.loaded.value <= loaded.value
  }

  /** An accepted attempt leaves the current generation loaded, like a loop that
      found the projection up to date. */
  lemma AcceptedIsUpToDate(w: World, attempt: nat)
    requires w.versions != [] && IsRead(w, attempt) && Offered(w, attempt).1 == Success(true)
    ensures RefreshGeneration(Step(w, Offer(attempt)).journal).None?
  {
  }

  /** A call that starts at `i`, leaves its refresh at `j` and copies the rows at `n`
      returns rows that include every mutation marked before it started. */
  lemma SnapshotIncludesItsPast(worlds: seq<World>, events: seq<Event>, i: nat, j: nat, n: nat)
    requires IsRun(worlds, events) && i <= j <= n < |worlds|
    requires RefreshGeneration(worlds[j].journal).None?
    ensures
      var w := worlds[n];
      && w.orders <= w.positions < |w.versions|
      && w.journal.orders == w.versions[w.orders].orders && w.journal.positions == w.versions[w.positions].positions
      && forall k :: 0 <= k < |worlds[i].marks| ==> worlds[i].marks[k] <= w.orders
  {
    EveryReachableJournal(worlds, events, i);
    EveryReachableJournal(worlds, events, j);
    EveryReachableJournal(worlds, events, n);
    LoadedGrows(worlds, events, i, j);
    LoadedGrows(worlds, events, j, n);
    forall k | 0 <= k < |worlds[i].marks| ensures worlds[i].marks[k] <= worlds[n].orders {
      assert worlds[n].marks[k] == worlds[i].marks[k];
    }
  }

  /** Once the newest database version has been marked and the projection is up to
      date, it is exactly the database. */
  lemma QuietMeansExact(worlds: seq<World>, events: seq<Event>, n: nat)
    requires IsRun(worlds, events) && n < |worlds|
    requires RefreshGeneration(worlds[n].journal).None?
    requires exists k :: 0 <= k < |worlds[n].marks| && worlds[n].marks[k] == Now(worlds[n])
    ensures
      var w := worlds[n];
      Database(w.journal.orders, w.journal.positions) == w.versions[Now(w)]
  {
    EveryReachableJournal(worlds, events, n);
  }

  /** Rows are taken exactly when no mutation was marked since the attempt began,
      so each refused attempt is paid for by a mark of its own. */
  lemma TakenIffUnmarked(worlds: seq<World>, events: seq<Event>, n: nat, attempt: nat)
    requires IsRun(worlds, events) && n < |worlds| && IsRead(worlds[n], attempt)
    requires
      var w, a := worlds[n], worlds[n].attempts[attempt];
      Acceptable(w.versions[a.orders.value].orders, "pending") && Acceptable(w.versions[a.positions.value].positions, "open")
    ensures
      var w, a := worlds[n], worlds[n].attempts[attempt];
      && Offered(w, attempt).1.Success?
      && (Offered(w, attempt).1.value <==> |w.marks| == a.generation)
      && (!Offered(w, attempt).1.value ==> |w.marks| > a.generation && Offered(w, attempt).0 == w.journal)
  {
    EveryReachableJournal(worlds, events, n);
    assert AttemptOk(worlds[n], worlds[n].attempts[attempt]);
  }

  /** What an up-to-date reader is shown. */
  function Shown(w: World): Database {
    Database(w.journal.orders, w.journal.positions)
  }

  /** The rows shown are those of one of the two versions read exactly when the
      commits between the two reads left the orders, or the positions, as they were;
      reads of one version always show that version. */
  lemma MixedIffBothChanged(worlds: seq<World>, events: seq<Event>, n: nat)
    requires IsRun(worlds, events) && n < |worlds| && worlds[n].journal.loaded.Some?
    ensures
      var w := worlds[n];
      && w.orders <= w.positions < |w.versions|
      && var first, second := w.versions[w.orders], w.versions[w.positions];
         && (Shown(w) == first || Shown(w) == second <==> first.orders == second.orders || first.positions == second.positions)
         && (w.orders == w.positions ==> Shown(w) == first)
  {
    EveryReachableJournal(worlds, events, n);
  }

  /** The run in which one commit falls between the two reads of a refresh. */
  function CommitBetweenReads(before: Database, after: Database): seq<Event> {
    [BeginRefresh, ReadOrders(0), Commit(after), ReadPositions(0), Offer(0)]
  }

  /** For any commit between the two reads, the projection is up to date and yet
      equals no version of the database exactly when the commit changed both the
      orders and the positions. */
  lemma TornIffBothChanged(before: Database, after: Database) returns (worlds: seq<World>)
    requires Acceptable(before.orders, "pending") && Acceptable(after.positions, "open")
    ensures IsRun(worlds, CommitBetweenReads(before, after))
    ensures
      var w := worlds[|worlds| - 1];
      && w.versions == [before, after] && RefreshGeneration(w.journal).None?
      && ((forall v :: 0 <= v < |w.versions| ==> Shown(w) != w.versions[v])
          <==> before.orders != after.orders && before.positions != after.positions)
  {
    var w0 := World(EMPTY, [before], [], [], 0, 0);
    var w1 := Step(w0, BeginRefresh);
    var w2 := Step(w1, ReadOrders(0));
    var w3 := Step(w2, Commit(after));
    var w4 := Step(w3, ReadPositions(0));
    var w5 := Step(w4, Offer(0));
    worlds := [w0, w1, w2, w3, w4, w5];
    assert w4.attempts == [Attempt(0, Some(0), Some(1))] && w4.versions == [before, after];
    assert w5.journal == Journal(0, Some(0), before.orders, after.positions);
    assert w5.versions[0] == before && w5.versions[1] == after;
  }

  // ----- the object --------------------------------------------------------

  class PaperJournalRuntime {
    var generation: nat
    var loadedGeneration: int
    var pendingOrders: seq<Row>
    var openPositions: seq<Row>

    ghost predicate Valid()
      reads this
    {
      -1 <= loadedGeneration <= generation
    }

    function State(): Journal
      reads this
      requires Valid()
    {
      Journal(generation, if loadedGeneration == -1 then None else Some(loadedGeneration), pendingOrders, openPositions)
    }

    constructor ()
      ensures Valid() && State() == EMPTY
    {
      generation, loadedGeneration, pendingOrders, openPositions := 0, -1, [], [];
    }

    /** Checks the rows one by one. */
    method FreezeRows(rows: seq<Row>, status: string) returns (ok: bool)
      ensures ok <==> Acceptable(rows, status)
    {
      var ids: set<string> := {};
      for i := 0 to |rows|
        invariant Acceptable(rows[..i], status)
        invariant forall id :: id in ids <==> exists k :: 0 <= k < i && rows[k].id == id
      {
        if rows[i].id == "" || !rows[i].identified || rows[i].status != status || rows[i].id in ids {
          return false;
        }
        ids := ids + {rows[i].id};
      }
      assert rows[..|rows|] == rows;
      ok := true;
    }

    method Mark() returns (marked: nat)
      requires Valid()
      modifies this`generation
      ensures Valid() && State() == MarkCommitted(old(State())) && marked == generation
    {
      generation := generation + 1;
      marked := generation;
    }

    method PublishSnapshot(orders: seq<Row>, positions: seq<Row>, given: nat) returns (r: Result<bool>)
      requires Valid()
      modifies this
      ensures Valid() && (State(), r) == Publish(old(State()), orders, positions, given)
    {
      var ordersOk := FreezeRows(orders, "pending");
      if !ordersOk {
        return Failure("PAPER_ORDER_RUNTIME_INVALID");
      }
      var positionsOk := FreezeRows(positions, "open");
      if !positionsOk {
        return Failure("PAPER_POSITION_RUNTIME_INVALID");
      }
      if given > generation {
        return Failure("PAPER_JOURNAL_RUNTIME_GENERATION_FUTURE");
      }
      if given != generation {
        return Success(false);
      }
      pendingOrders, openPositions, loadedGeneration := orders, positions, given;
      r := Success(true);
    }
  }
}
