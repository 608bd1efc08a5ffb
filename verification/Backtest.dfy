/** The single-run backtest and the shared-analysis run of several variants, which
    analyses each window once and must give every variant its own single run. */
module Backtest {
  import opened Wrappers
  import opened TradeSimulation

  /** Closed bars, lower-timeframe bars for execution (possibly none), and the
      analysis of a window ending at its signal bar. */
  datatype Market = Market(bars: seq<Bar>, fast: seq<Bar>, analyze: seq<Bar> -> Result<Option<Plan>>)

  /** `lookback` zero means the whole history. */
  datatype Options = Options(warmup: int, horizon: nat, step: int, maxSignals: Option<int>, lookback: int)

  datatype Variant = Variant(id: string, invert: set<string>, multiplier: real, mode: Mode)

  datatype Key = Key(setup: string, side: Side, ts: int)

  datatype Book = Book(trades: seq<Trade>, seen: set<Key>)

  const NEW_BOOK := Book([], {})

  /** Which plans a single run lets through: its source and edge filters. */
  type Filter = (Plan, Bar) -> bool

  predicate AllowAll(plan: Plan, bar: Bar) {
    true
  }

  // ----- the schedule ------------------------------------------------------

  function First(o: Options): int {
    if o.warmup > 2 then o.warmup else 2
  }

  function Stride(o: Options): int {
    if o.step > 1 then o.step else 1
  }

  function Last(m: Market, o: Options): int {
    if |m.bars| - o.horizon - 1 > 0 then |m.bars| - o.horizon - 1 else 0
  }

  predicate Scheduled(m: Market, o: Options, index: int) {
    2 <= index <= Last(m, o)
  }

  function Window(m: Market, o: Options, index: int): seq<Bar>
    requires Scheduled(m, o, index)
  {
    var start := if o.lookback != 0 && index + 1 - o.lookback > 0 then index + 1 - o.lookback else 0;
    if start > index + 1 then [] else m.bars[start..index + 1]
  }

  function Between(fast: seq<Bar>, from: int, to: int): seq<Bar> {
    if fast == [] then []
    else
      var front, last := Between(fast[..|fast| - 1], from, to), fast[|fast| - 1];
      if last.ts >= from && last.closesAt <= to then front + [last] else front
  }

  /** The bars a trade is simulated on: the horizon after the signal bar. */
  function Execution(m: Market, o: Options, index: int): seq<Bar>
    requires Scheduled(m, o, index)
  {
    var parent := m.bars[index + 1..index + 1 + o.horizon];
    if m.fast == [] || parent == [] then parent
    else Between(m.fast, m.bars[index].closesAt, parent[|parent| - 1].closesAt)
  }

  // ----- one signal --------------------------------------------------------

  function Planned(v: Variant, base: Option<Plan>): Result<Option<Plan>> {
    if base.None? then Success(None)
    else
      var plan := Widened(if base.value.source in v.invert then Inverted(base.value) else base.value, v.multiplier, v.mode);
      if plan.Failure? then Failure(plan.code) else Success(Some(plan.value))
  }

  predicate Full(o: Options, book: Book) {
    o.maxSignals.Some? && |book.trades| >= o.maxSignals.value
  }

  function Booked(m: Market, o: Options, book: Book, index: int, plan: Plan): Book
    requires Scheduled(m, o, index)
  {
    var trade := TradeOf(plan, Execution(m, o, index));
    Book(if trade.Some? then book.trades + [trade.value] else book.trades,
      book.seen + {Key(plan.setup, plan.side, m.bars[index].ts)})
  }

  /** The book after a simulated signal; none if the signal was skipped. */
  function Consider(m: Market, o: Options, v: Variant, allowed: Filter, book: Book, index: int, base: Option<Plan>): Result<Option<Book>>
    requires Scheduled(m, o, index)
  {
    var planned := Planned(v, base);
    if planned.Failure? then Failure(planned.code)
    else if planned.value.None? then Success(None)
    else
      var plan := planned.value.value;
      if !allowed(plan, m.bars[index]) || Key(plan.setup, plan.side, m.bars[index].ts) in book.seen then Success(None)
      else Success(Some(Booked(m, o, book, index, plan)))
  }

  // ----- the single run ----------------------------------------------------

  function SingleFrom(m: Market, o: Options, v: Variant, allowed: Filter, book: Book, index: int): Result<seq<Trade>>
    requires index >= 2
    decreases Last(m, o) - index
  {
    if index > Last(m, o) then Success(book.trades)
    else
      var base := m.analyze(Window(m, o, index));
      if base.Failure? then Failure(base.code)
      else
        var considered := Consider(m, o, v, allowed, book, index, base.value);
        if considered.Failure? then Failure(considered.code)
        else if considered.value.None? then SingleFrom(m, o, v, allowed, book, index + Stride(o))
        else if Full(o, considered.value.value) then Success(considered.value.value.trades)
        else SingleFrom(m, o, v, allowed, considered.value.value, index + Stride(o))
  }

  function Single(m: Market, o: Options, v: Variant): Result<seq<Trade>> {
    SingleFrom(m, o, v, AllowAll, NEW_BOOK, First(o))
  }

  // ----- no lookahead ------------------------------------------------------

  lemma {:induction false} TradesOnlyGrow(m: Market, o: Options, v: Variant, allowed: Filter, book: Book, index: int)
    requires index >= 2 && SingleFrom(m, o, v, allowed, book, index).Success?
    ensures book.trades <= SingleFrom(m, o, v, allowed, book, index).value
    decreases Last(m, o) - index
  {
    if index <= Last(m, o) {
      var base := m.analyze(Window(m, o, index));
      var considered := Consider(m, o, v, allowed, book, index, base.value);
      if considered.value.None? {
        TradesOnlyGrow(m, o, v, allowed, book, index + Stride(o));
      } else if !Full(o, considered.value.value) {
        TradesOnlyGrow(m, o, v, allowed, considered.value.value, index + Stride(o));
      }
    }
  }

  /** A signal is decided by bars up to its own, and simulated within its horizon. */
  lemma SameSignal(m: Market, longer: Market, o: Options, index: int)
    requires m.bars <= longer.bars && m.fast == longer.fast && Scheduled(m, o, index)
    ensures Scheduled(longer, o, index)
    ensures Window(m, o, index) == Window(longer, o, index)
    ensures Execution(m, o, index) == Execution(longer, o, index) && m.bars[index] == longer.bars[index]
  {
    assert m.bars == longer.bars[..|m.bars|];
  }

  /** More history never changes what was already traded: the run over a longer
      series starts with exactly the trades of the run over its beginning. */
  lemma {:induction false} LongerHistoryOnlyAppends(
      m: Market, longer: Market, o: Options, v: Variant, allowed: Filter, book: Book, index: int)
    requires m.bars <= longer.bars && m.fast == longer.fast && m.analyze == longer.analyze
    requires index >= 2 && SingleFrom(longer, o, v, allowed, book, index).Success?
    ensures SingleFrom(m, o, v, allowed, book, index).Success?
    ensures SingleFrom(m, o, v, allowed, book, index).value <= SingleFrom(longer, o, v, allowed, book, index).value
    decreases Last(m, o) - index
  {
    if index <= Last(m, o) {
      SameSignal(m, longer, o, index);
      var base := m.analyze(Window(m, o, index));
      var considered := Consider(longer, o, v, allowed, book, index, base.value);
      assert considered == Consider(m, o, v, allowed, book, index, base.value);
      if considered.value.None? {
        LongerHistoryOnlyAppends(m, longer, o, v, allowed, book, index + Stride(o));
      } else if !Full(o, considered.value.value) {
        LongerHistoryOnlyAppends(m, longer, o, v, allowed, considered.value.value, index + Stride(o));
      }
    } else {
      TradesOnlyGrow(longer, o, v, allowed, book, index);
    }
  }

  // ----- shared-analysis variants ------------------------------------------

  /** Variants by id: unnamed ones are ignored, a repeated id takes the last. */
  function Chosen(variants: seq<Variant>): (c: map<string, Variant>)
    ensures forall id :: id in c ==> c[id].id == id
  {
    if variants == [] then map[]
    else
      var front, last := Chosen(variants[..|variants| - 1]), variants[|variants| - 1];
      if last.id == "" then front else front[last.id := last]
  }

  /** The limit under which both runs agree. */
  predicate LimitIsPositive(o: Options) {
    o.maxSignals.Some? ==> o.maxSignals.value >= 1
  }

  /** A variant's book is on the way to its single run's result, or has it. */
  ghost predicate Tracks(m: Market, o: Options, v: Variant, book: Book, index: int)
    requires index >= 2
  {
    Single(m, o, v) == if Full(o, book) then Success(book.trades) else SingleFrom(m, o, v, AllowAll, book, index)
  }

  ghost predicate AllTrack(m: Market, o: Options, chosen: map<string, Variant>, books: map<string, Book>, todo: set<Variant>, index: int, next: int)
    requires index >= 2 && next >= 2
  {
    forall id :: id in chosen ==>
      && id in books
      && Tracks(m, o, chosen[id], books[id], if chosen[id] in todo then index else next)
      && (chosen[id] in todo ==> !Full(o, books[id]))
  }

  /** One variant's turn at one index. */
  lemma TrackOne(m: Market, o: Options, v: Variant, book: Book, index: int, base: Option<Plan>)
    requires Scheduled(m, o, index) && m.analyze(Window(m, o, index)) == Success(base)
    requires Tracks(m, o, v, book, index) && !Full(o, book)
    ensures
      var considered := Consider(m, o, v, AllowAll, book, index, base);
      if considered.Failure? then Single(m, o, v).Failure?
      else Tracks(m, o, v, if considered.value.Some? then considered.value.value else book, index + Stride(o))
  {
  }

  /** What the shared run promises of its result. */
  ghost predicate Matches(m: Market, o: Options, chosen: map<string, Variant>, r: Result<map<string, seq<Trade>>>) {
    match r
    case Success(trades) =>
      trades.Keys == chosen.Keys && forall id :: id in chosen ==> Single(m, o, chosen[id]) == Success(trades[id])
    case Failure(_) => exists id :: id in chosen && Single(m, o, chosen[id]).Failure?
  }

  predicate NoTrades(chosen: map<string, Variant>, r: Result<map<string, seq<Trade>>>) {
    r.Success? && r.value.Keys == chosen.Keys && forall id :: id in chosen ==> r.value[id] == []
  }

  /** One analysed window for every active variant, each keeping its own book. */
  method RunIndex(m: Market, o: Options, chosen: map<string, Variant>, start: map<string, Book>, active: set<Variant>, index: int)
    returns (r: Result<map<string, Book>>)
    requires Scheduled(m, o, index) && start.Keys == chosen.Keys && active != {} && active <= chosen.Values
    requires forall id :: id in chosen ==> chosen[id].id == id
    requires AllTrack(m, o, chosen, start, active, index, index + Stride(o))
    ensures r.Failure? ==> exists id :: id in chosen && Single(m, o, chosen[id]).Failure?
    ensures r.Success? ==>
      r.value.Keys == chosen.Keys && AllTrack(m, o, chosen, r.value, {}, index, index + Stride(o))
  {
    var base := m.analyze(Window(m, o, index));
    if base.Failure? {
      var v :| v in active;
      assert Tracks(m, o, chosen[v.id], start[v.id], index);
      return Failure(base.code);
    }
    var books, todo := start, active;
    while todo != {}
      invariant todo <= chosen.Values && books.Keys == chosen.Keys
      invariant AllTrack(m, o, chosen, books, todo, index, index + Stride(o))
      decreases |todo|
    {
      var v :| v in todo;
      var book := books[v.id];
      assert chosen[v.id] == v;
      TrackOne(m, o, v, book, index, base.value);
      var considered := ConsiderSignal(m, o, v, book, index, base.value);
      if considered.Failure? {
        return Failure(considered.code);
      }
      todo := todo - {v};
      if considered.value.Some? {
        books := books[v.id := considered.value.value];
      }
    }
    r := Success(books);
  }

  method ConsiderSignal(m: Market, o: Options, v: Variant, book: Book, index: int, base: Option<Plan>) returns (r: Result<Option<Book>>)
    requires Scheduled(m, o, index)
    ensures r == Consider(m, o, v, AllowAll, book, index, base)
  {
    var planned := Planned(v, base);
    if planned.Failure? {
      return Failure(planned.code);
    }
    if planned.value.None? {
      return Success(None);
    }
    var plan := planned.value.value;
    var key := Key(plan.setup, plan.side, m.bars[index].ts);
    if key in book.seen {
      return Success(None);
    }
    var trade := SimulateTrade(plan, Execution(m, o, index));
    r := Success(Some(Book(if trade.Some? then book.trades + [trade.value] else book.trades, book.seen + {key})));
  }

  /** The variants whose book is not full yet. */
  function Active(o: Options, chosen: map<string, Variant>, books: map<string, Book>): set<Variant>
    requires books.Keys == chosen.Keys
  {
    set id | id in chosen && !Full(o, books[id]) :: chosen[id]
  }

  lemma ActiveTrack(m: Market, o: Options, chosen: map<string, Variant>, books: map<string, Book>, index: int, other: int)
    requires index >= 2 && other >= 2 && books.Keys == chosen.Keys
    requires forall id :: id in chosen ==> chosen[id].id == id
    requires AllTrack(m, o, chosen, books, {}, other, index)
    ensures Active(o, chosen, books) <= chosen.Values
    ensures AllTrack(m, o, chosen, books, Active(o, chosen, books), index, index + Stride(o))
  {
    forall id | id in chosen ensures chosen[id] in Active(o, chosen, books) <==> !Full(o, books[id]) {
    }
  }

  /** The limit given, every variant's trades are those of its own single run, and
      the shared run fails exactly when one of the single runs does. */
  method RunVariants(m: Market, o: Options, variants: seq<Variant>) returns (r: Result<map<string, seq<Trade>>>)
    ensures LimitIsPositive(o) ==> Matches(m, o, Chosen(variants), r)
    ensures !LimitIsPositive(o) ==> NoTrades(Chosen(variants), r)
  {
    var chosen := Chosen(variants);
    var books: map<string, Book> := map id | id in chosen :: NEW_BOOK;
    var index := First(o);
    while index <= Last(m, o)
      invariant index >= 2 && books.Keys == chosen.Keys
      invariant LimitIsPositive(o) ==> AllTrack(m, o, chosen, books, {}, 2, index)
      invariant !LimitIsPositive(o) ==> books == map id | id in chosen :: NEW_BOOK
      decreases Last(m, o) - index
    {
      var active := Active(o, chosen, books);
      if active == {} {
        break;
      }
      if LimitIsPositive(o) {
        ActiveTrack(m, o, chosen, books, index, 2);
      }
      var next := RunIndex(m, o, chosen, books, active, index);
      if next.Failure? {
        return Failure(next.code);
      }
      books := next.value;
      index := index + Stride(o);
    }
    r := Success(map id | id in chosen :: books[id].trades);
  }

  // ----- when the limit is not positive ------------------------------------

  /** Four bars that all touch the entry of the one plan the analysis gives. */
  function Touching(): Market {
    var bar := (ts: int) => Bar(ts, ts + 1, 1.0, 3.0, 2.0);
    Market([bar(0), bar(1), bar(2), bar(3)], [], _ => Success(Some(Plan("s", "breakout", Long, 2.0, 1.0, 3.0, false))))
  }

  const PLAIN := Variant("plain", {}, 1.0, Keep)

  /** The agreement needs a positive limit, whatever the other limits would be: for
      each one that is not, this market's single run trades and the shared run
      cannot. */
  lemma SharedRunNeedsPositiveLimit(o: Options)
    requires !LimitIsPositive(o) && o.warmup <= 2 && o.horizon == 1 && o.lookback == 0
    ensures
      var chosen := Chosen([PLAIN]);
      && chosen == map["plain" := PLAIN]
      && Single(Touching(), o, PLAIN).Success? && |Single(Touching(), o, PLAIN).value| == 1
      && forall r :: NoTrades(chosen, r) ==> !Matches(Touching(), o, chosen, r)
  {
    var m := Touching();
    var plan := Plan("s", "breakout", Long, 2.0, 1.0, 3.0, false);
    assert Chosen([PLAIN]) == Chosen([])["plain" := PLAIN];
    assert Last(m, o) == 2 && Scheduled(m, o, 2);
    assert m.bars[3..4] == [m.bars[3]];
    assert Execution(m, o, 2) == [m.bars[3]];
    assert OpensAt(plan, [m.bars[3]], 0) == 0;
    assert TradeOf(plan, Execution(m, o, 2)).Some?;
    assert Planned(PLAIN, Some(plan)) == Success(Some(plan));
    forall r: Result<map<string, seq<Trade>>> | NoTrades(Chosen([PLAIN]), r) ensures !Matches(m, o, Chosen([PLAIN]), r) {
      assert "plain" in Chosen([PLAIN]) && r.value["plain"] == [];
    }
  }

  // ----- which variants run ------------------------------------------------

  ghost predicate IsLastAt(variants: seq<Variant>, v: Variant, i: int) {
    0 <= i < |variants| && variants[i] == v && forall j :: i < j < |variants| ==> variants[j].id != v.id
  }

  lemma IsLastStep(variants: seq<Variant>, v: Variant)
    requires variants != []
    ensures
      var n := |variants| - 1;
      (exists i :: IsLastAt(variants, v, i))
        <==> v == variants[n] || (variants[n].id != v.id && exists i :: IsLastAt(variants[..n], v, i))
  {
    var n := |variants| - 1;
    if v == variants[n] {
      assert IsLastAt(variants, v, n);
    }
    if i :| IsLastAt(variants, v, i) && v != variants[n] {
      assert IsLastAt(variants[..n], v, i);
    }
    if i :| IsLastAt(variants[..n], v, i) && variants[n].id != v.id {
      assert IsLastAt(variants, v, i) by {
        forall j | i < j < |variants| ensures variants[j].id != v.id {
          assert j < n ==> variants[..n][j] == variants[j];
        }
      }
    }
  }

  /** A variant runs exactly when it has an id and no later one has the same. */
  lemma {:induction false} ChosenAreLast(variants: seq<Variant>, v: Variant)
    ensures v.id in Chosen(variants) && Chosen(variants)[v.id] == v <==> v.id != "" && exists i :: IsLastAt(variants, v, i)
  {
    if variants != [] {
      IsLastStep(variants, v);
      ChosenAreLast(variants[..|variants| - 1], v);
    }
  }
}
