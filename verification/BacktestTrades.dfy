/** Which trades a run makes: the signal each one comes from, the bars it is
    simulated on, and that no signal is left out. */
module BacktestTrades {
  import opened Wrappers
  import opened Subsequences
  import opened Timeframes
  import opened TradeSimulation
  import opened Backtest

  // ----- a signal and its bars ---------------------------------------------

  /** An index the run stops at, with a whole horizon after it. */
  ghost predicate Visited(m: Market, o: Options, index: int) {
    var first, stride := if o.warmup > 2 then o.warmup else 2, if o.step > 1 then o.step else 1;
    first <= index && (index - first) % stride == 0 && index + o.horizon < |m.bars|
  }

  /** The bars up to and including the signal's, at most `lookback` of them. */
  ghost predicate EndsAt(m: Market, o: Options, index: int, window: seq<Bar>)
    requires 0 <= index < |m.bars|
  {
    && |window| == (if o.lookback == 0 || o.lookback > index + 1 then index + 1 else if o.lookback < 0 then 0 else o.lookback)
    && forall k :: 0 <= k < |window| ==> window[k] == m.bars[index + 1 - |window| + k]
  }

  /** The analysis of those bars gives a plan, which the variant turns around if it
      inverts its source, and then widens. */
  ghost predicate Signals(m: Market, o: Options, v: Variant, index: int, plan: Plan)
    requires 0 <= index < |m.bars|
  {
    exists window, base: Plan ::
      && EndsAt(m, o, index, window) && m.analyze(window) == Success(Some(base))
      && Widened(if base.source in v.invert then Inverted(base) else base, v.multiplier, v.mode) == Success(plan)
  }

  /** The bars after the signal's, to the end of the horizon: those of the series
      itself, or all the faster ones that lie between its close and theirs, in order. */
  ghost predicate Follows(m: Market, o: Options, index: int, bars: seq<Bar>)
    requires 0 <= index && index + o.horizon < |m.bars|
  {
    if m.fast == [] then
      |bars| == o.horizon && forall k :: 0 <= k < o.horizon ==> bars[k] == m.bars[index + 1 + k]
    else if o.horizon == 0 then bars == []
    else
      && Subsequence(bars, m.fast)
      && forall b :: multiset(bars)[b] ==
           if m.bars[index].closesAt <= b.ts && b.closesAt <= m.bars[index + o.horizon].closesAt then multiset(m.fast)[b] else 0
  }

  /** A trade a signal makes. */
  ghost predicate Makes(m: Market, o: Options, v: Variant, allowed: Filter, index: int, trade: Trade) {
    && Visited(m, o, index)
    && Signals(m, o, v, index, trade.plan) && allowed(trade.plan, m.bars[index])
    && exists bars :: Follows(m, o, index, bars) && TradeOf(trade.plan, bars) == Some(trade)
  }

  // ----- what the run computes ---------------------------------------------

  lemma WindowEnds(m: Market, o: Options, index: int, window: seq<Bar>)
    requires Scheduled(m, o, index)
    ensures EndsAt(m, o, index, window) <==> window == Window(m, o, index)
  {
  }

  lemma PlannedSignals(m: Market, o: Options, v: Variant, index: int, plan: Plan)
    requires Scheduled(m, o, index)
    ensures
      var base := m.analyze(Window(m, o, index));
      Signals(m, o, v, index, plan) <==> base.Success? && Planned(v, base.value) == Success(Some(plan))
  {
    var w := Window(m, o, index);
    WindowEnds(m, o, index, w);
    if Signals(m, o, v, index, plan) {
      var window, base: Plan :| EndsAt(m, o, index, window) && m.analyze(window) == Success(Some(base))
        && Widened(if base.source in v.invert then Inverted(base) else base, v.multiplier, v.mode) == Success(plan);
      WindowEnds(m, o, index, window);
    }
  }

  lemma {:induction false} BetweenCounts(fast: seq<Bar>, from: int, to: int, b: Bar)
    ensures multiset(Between(fast, from, to))[b] == if from <= b.ts && b.closesAt <= to then multiset(fast)[b] else 0
  {
    if fast != [] {
      var n := |fast| - 1;
      BetweenCounts(fast[..n], from, to, b);
      assert fast == fast[..n] + [fast[n]];
    }
  }

  lemma {:induction false} BetweenIsSubsequence(fast: seq<Bar>, from: int, to: int)
    ensures Subsequence(Between(fast, from, to), fast)
  {
    if fast == [] {
      EmptySubsequence<Bar>([]);
    } else {
      var n := |fast| - 1;
      BetweenIsSubsequence(fast[..n], from, to);
      assert fast == fast[..n] + [fast[n]];
      var front := Between(fast[..n], from, to);
      BothGrow(front, fast[..n], fast[n]);
      assert front + ([fast[n]] + []) == front + [fast[n]];
      CutOut(front, [fast[n]], [], fast);
      assert front + [] == front;
    }
  }

  lemma ExecutionFollows(m: Market, o: Options, index: int)
    requires Scheduled(m, o, index)
    ensures index + o.horizon < |m.bars| && Follows(m, o, index, Execution(m, o, index))
  {
    var parent := m.bars[index + 1..index + 1 + o.horizon];
    if m.fast != [] && o.horizon > 0 {
      var from, to := m.bars[index].closesAt, m.bars[index + o.horizon].closesAt;
      assert parent[o.horizon - 1] == m.bars[index + o.horizon];
      BetweenIsSubsequence(m.fast, from, to);
      forall b ensures multiset(Between(m.fast, from, to))[b] ==
        if from <= b.ts && b.closesAt <= to then multiset(m.fast)[b] else 0
      {
        BetweenCounts(m.fast, from, to, b);
      }
    }
  }

  /** There is only one such list of bars. */
  lemma FilteredIsUnique(bars: seq<Bar>, fast: seq<Bar>, from: int, to: int)
    requires Subsequence(bars, fast)
    requires forall b :: multiset(bars)[b] == if from <= b.ts && b.closesAt <= to then multiset(fast)[b] else 0
    ensures bars == Between(fast, from, to)
  {
    var between := Between(fast, from, to);
    forall b ensures multiset(bars)[b] == multiset(between)[b] {
      BetweenCounts(fast, from, to, b);
    }
    assert multiset(bars) == multiset(between);
    assert |multiset(bars)| == |bars| && |multiset(between)| == |between|;
    forall b | b in bars ensures from <= b.ts && b.closesAt <= to {
      assert b in multiset(bars);
    }
    FilteredSubsequence(bars, fast, from, to);
    SameLength(bars, between);
  }

  /** What lies between, of a sub-sequence, is a sub-sequence of what lies between. */
  lemma {:induction false} FilteredSubsequence(bars: seq<Bar>, fast: seq<Bar>, from: int, to: int)
    requires Subsequence(bars, fast) && forall b :: b in bars ==> from <= b.ts && b.closesAt <= to
    ensures Subsequence(bars, Between(fast, from, to))
    decreases |fast|
  {
    if fast == [] {
      SubsequenceCounts(bars, fast);
    } else {
      var at :| Embeds(at, bars, fast);
      var n, k := |fast| - 1, |bars| - 1;
      var front := Between(fast[..n], from, to);
      if bars != [] && at[k] == n {
        assert Embeds(at[..k], bars[..k], fast[..n]);
        FilteredSubsequence(bars[..k], fast[..n], from, to);
        assert bars[k] in bars && bars == bars[..k] + [fast[n]];
        BothGrow(bars[..k], front, fast[n]);
      } else {
        assert Embeds(at, bars, fast[..n]);
        FilteredSubsequence(bars, fast[..n], from, to);
        WholeGrows(bars, front, fast[n]);
      }
    }
  }

  lemma WholeGrows(s: seq<Bar>, t: seq<Bar>, x: Bar)
    requires Subsequence(s, t)
    ensures Subsequence(s, t + [x])
  {
    var at :| Embeds(at, s, t);
    assert Embeds(at, s, t + [x]);
  }

  lemma SameLength(s: seq<Bar>, t: seq<Bar>)
    requires Subsequence(s, t) && |s| == |t|
    ensures s == t
  {
    var at :| Embeds(at, s, t);
    forall i | 0 <= i < |s| ensures s[i] == t[i] {
      PlacesRise(at, |t|, i);
    }
  }

  /** As many rising places as there are, so each is its own. */
  lemma {:induction false} PlacesRise(at: seq<int>, n: nat, i: nat)
    requires |at| == n && i < n && (forall j, k :: 0 <= j < k < |at| ==> at[j] < at[k])
    requires forall j :: 0 <= j < |at| ==> 0 <= at[j] < n
    ensures at[i] == i
  {
    AtLeast(at, i);
    AtMostFromEnd(at, n, i);
  }

  lemma {:induction false} AtLeast(at: seq<int>, i: nat)
    requires i < |at| && (forall j, k :: 0 <= j < k < |at| ==> at[j] < at[k]) && 0 <= at[0]
    ensures i <= at[i]
  {
    if i > 0 {
      AtLeast(at, i - 1);
    }
  }

  lemma {:induction false} AtMostFromEnd(at: seq<int>, n: nat, i: nat)
    requires i < |at| == n && (forall j, k :: 0 <= j < k < |at| ==> at[j] < at[k]) && at[n - 1] < n
    ensures at[i] <= i
    decreases n - i
  {
    if i < n - 1 {
      AtMostFromEnd(at, n, i + 1);
    }
  }

  lemma FollowsIsExecution(m: Market, o: Options, index: int, bars: seq<Bar>)
    requires Scheduled(m, o, index) && Follows(m, o, index, bars)
    ensures bars == Execution(m, o, index)
  {
    if m.fast != [] && o.horizon > 0 {
      var parent := m.bars[index + 1..index + 1 + o.horizon];
      assert parent[o.horizon - 1] == m.bars[index + o.horizon];
      FilteredIsUnique(bars, m.fast, m.bars[index].closesAt, m.bars[index + o.horizon].closesAt);
    }
  }

  // ----- the run, signal by signal -----------------------------------------

  /** On the schedule, or past its end. */
  ghost predicate OnTrack(o: Options, index: int) {
    var first, stride := if o.warmup > 2 then o.warmup else 2, if o.step > 1 then o.step else 1;
    first <= index && (index - first) % stride == 0
  }

  lemma NextOnTrack(o: Options, index: int)
    requires OnTrack(o, index)
    ensures OnTrack(o, index + Stride(o))
    ensures forall j :: index < j < index + Stride(o) ==> !OnTrack(o, j)
  {
    var first, stride := if o.warmup > 2 then o.warmup else 2, if o.step > 1 then o.step else 1;
    var d := index - first;
    forall j | index < j < index + stride ensures !OnTrack(o, j) {
      Residue(d, stride, j - index);
      assert j - first == d + (j - index);
    }
    Residue(d, stride, stride);
    assert index + stride - first == d + stride;
  }

  lemma Residue(d: int, stride: int, r: int)
    requires stride > 0 && d % stride == 0 && 0 < r <= stride
    ensures (d + r) % stride == if r == stride then 0 else r
  {
    var q := d / stride;
    assert d == stride * q;
    if r == stride {
      assert stride * q + stride == stride * (q + 1);
      DivisionIsUnique(stride, q + 1, 0);
    } else {
      DivisionIsUnique(stride, q, r);
    }
  }

  lemma VisitedIsScheduled(m: Market, o: Options, index: int)
    requires OnTrack(o, index)
    ensures Visited(m, o, index) <==> Scheduled(m, o, index)
  {
  }

  /** An allowed signal with this key was simulated before the index. */
  ghost predicate Earlier(m: Market, o: Options, v: Variant, allowed: Filter, index: int, key: Key) {
    exists j, plan ::
      && j < index && Visited(m, o, j) && Signals(m, o, v, j, plan) && allowed(plan, m.bars[j])
      && key == Key(plan.setup, plan.side, m.bars[j].ts)
  }

  ghost predicate SeenAreEarlier(m: Market, o: Options, v: Variant, allowed: Filter, book: Book, index: int) {
    forall key :: key in book.seen <==> Earlier(m, o, v, allowed, index, key)
  }

  /** The signals that get a trade from this one on. */
  ghost predicate FirstOfItsKey(m: Market, o: Options, v: Variant, allowed: Filter, index: int, plan: Plan)
    requires 0 <= index < |m.bars|
  {
    && Signals(m, o, v, index, plan) && allowed(plan, m.bars[index])
    && !Earlier(m, o, v, allowed, index, Key(plan.setup, plan.side, m.bars[index].ts))
  }

  ghost predicate Wins(m: Market, o: Options, v: Variant, allowed: Filter, index: int, trade: Trade) {
    Makes(m, o, v, allowed, index, trade) && FirstOfItsKey(m, o, v, allowed, index, trade.plan)
  }

  /** Everything there is to win. */
  ghost function Won(m: Market, o: Options, v: Variant, allowed: Filter): iset<(int, Trade)> {
    iset won: (int, Trade) | Wins(m, o, v, allowed, won.0, won.1)
  }

  /** The trades come from these indices, in order, and from every index of the range
      whose signal is the first of its key and makes a trade. */
  ghost predicate TradesAt(won: iset<(int, Trade)>, from: int, to: int, at: seq<int>, trades: seq<Trade>) {
    && |at| == |trades|
    && (forall i :: 0 <= i < |at| ==> from <= at[i] < to && (at[i], trades[i]) in won)
    && (forall i, j :: 0 <= i < j < |at| ==> at[i] < at[j])
    && (forall one :: one in won && from <= one.0 < to ==> one.0 in at)
  }

  /** What the run does at one index, in those terms. */
  lemma SkipsOrSimulates(m: Market, o: Options, v: Variant, allowed: Filter, book: Book, index: int, base: Option<Plan>)
    requires Scheduled(m, o, index) && OnTrack(o, index) && SeenAreEarlier(m, o, v, allowed, book, index)
    requires m.analyze(Window(m, o, index)) == Success(base) && Consider(m, o, v, allowed, book, index, base).Success?
    ensures
      var considered := Consider(m, o, v, allowed, book, index, base).value;
      && (considered.None? ==> forall plan :: !FirstOfItsKey(m, o, v, allowed, index, plan))
      && (considered.Some? ==>
            var plan := Planned(v, base).value.value;
            && (forall other :: FirstOfItsKey(m, o, v, allowed, index, other) <==> other == plan)
            && considered.value == Booked(m, o, book, index, plan))
  {
    forall plan ensures Signals(m, o, v, index, plan) <==> Planned(v, base) == Success(Some(plan)) {
      PlannedSignals(m, o, v, index, plan);
    }
  }

  /** After an index everything allowed up to it counts as seen. */
  lemma SeenStep(m: Market, o: Options, v: Variant, allowed: Filter, book: Book, index: int, base: Option<Plan>)
    requires Scheduled(m, o, index) && OnTrack(o, index) && SeenAreEarlier(m, o, v, allowed, book, index)
    requires m.analyze(Window(m, o, index)) == Success(base) && Consider(m, o, v, allowed, book, index, base).Success?
    ensures
      var considered := Consider(m, o, v, allowed, book, index, base).value;
      SeenAreEarlier(m, o, v, allowed, if considered.Some? then considered.value else book, index + Stride(o))
  {
    var considered := Consider(m, o, v, allowed, book, index, base).value;
    var after := if considered.Some? then considered.value else book;
    VisitedIsScheduled(m, o, index);
    forall key ensures key in after.seen <==> Earlier(m, o, v, allowed, index + Stride(o), key) {
      EarlierStep(m, o, v, allowed, index, key);
      forall plan ensures Signals(m, o, v, index, plan) <==> Planned(v, base) == Success(Some(plan)) {
        PlannedSignals(m, o, v, index, plan);
      }
    }
  }

  lemma EarlierStep(m: Market, o: Options, v: Variant, allowed: Filter, index: int, key: Key)
    requires Scheduled(m, o, index) && OnTrack(o, index)
    ensures Earlier(m, o, v, allowed, index + Stride(o), key) <==>
      || Earlier(m, o, v, allowed, index, key)
      || exists plan :: Signals(m, o, v, index, plan) && allowed(plan, m.bars[index]) && key == Key(plan.setup, plan.side, m.bars[index].ts)
  {
    NextOnTrack(o, index);
    VisitedIsScheduled(m, o, index);
    if Earlier(m, o, v, allowed, index + Stride(o), key) {
      var j, plan :| j < index + Stride(o) && Visited(m, o, j) && Signals(m, o, v, j, plan) && allowed(plan, m.bars[j])
        && key == Key(plan.setup, plan.side, m.bars[j].ts);
      assert j <= index by {
        assert OnTrack(o, j);
      }
    }
  }

  /** A signal's trade is the one over the bars that follow it. */
  lemma MakesItsTrade(m: Market, o: Options, v: Variant, allowed: Filter, index: int, plan: Plan, trade: Trade)
    requires Scheduled(m, o, index) && OnTrack(o, index)
    requires Signals(m, o, v, index, plan) && allowed(plan, m.bars[index])
    ensures trade.plan == plan ==>
      (Makes(m, o, v, allowed, index, trade) <==> TradeOf(plan, Execution(m, o, index)) == Some(trade))
    ensures TradeOf(plan, Execution(m, o, index)) == Some(trade) ==> trade.plan == plan
  {
    VisitedIsScheduled(m, o, index);
    ExecutionFollows(m, o, index);
    if Makes(m, o, v, allowed, index, trade) && trade.plan == plan {
      var bars :| Follows(m, o, index, bars) && TradeOf(trade.plan, bars) == Some(trade);
      FollowsIsExecution(m, o, index, bars);
    }
  }

  /** One index in front of a range. */
  lemma OneMoreIndex(won: iset<(int, Trade)>, index: int, next: int, to: int, at: seq<int>, trades: seq<Trade>, made: Option<Trade>)
    requires index < next <= to && TradesAt(won, next, to, at, trades)
    requires forall one :: one in won && index < one.0 ==> next <= one.0
    requires forall trade :: (index, trade) in won <==> made == Some(trade)
    ensures made.None? ==> TradesAt(won, index, to, at, trades)
    ensures made.Some? ==> TradesAt(won, index, to, [index] + at, [made.value] + trades)
  {
    forall one | one in won && index <= one.0 < to ensures one.0 in at || (made == Some(one.1) && one.0 == index) {
      assert one == (one.0, one.1);
    }
    if made.Some? {
      var all, gains := [index] + at, [made.value] + trades;
      forall i | 0 <= i < |all| ensures index <= all[i] < to && (all[i], gains[i]) in won {
        assert i > 0 ==> all[i] == at[i - 1] && gains[i] == trades[i - 1];
      }
    }
  }

  /** From one index on: which signals the run trades, and why it ends. */
  lemma {:induction false} TradesFrom(m: Market, o: Options, v: Variant, allowed: Filter, book: Book, index: int)
    returns (at: seq<int>, to: int)
    requires index >= 2 && OnTrack(o, index) && SeenAreEarlier(m, o, v, allowed, book, index)
    requires SingleFrom(m, o, v, allowed, book, index).Success?
    ensures index <= to && Extends(o, Won(m, o, v, allowed), book.trades, index, to, at, SingleFrom(m, o, v, allowed, book, index).value)
    ensures VisitedBelow(m, o, to) || Filled(o, SingleFrom(m, o, v, allowed, book, index).value)
    decreases Last(m, o) - index
  {
    var won, trades := Won(m, o, v, allowed), SingleFrom(m, o, v, allowed, book, index).value;
    if index > Last(m, o) {
      at, to := [], index;
      NothingYet(o, won, book.trades, to);
      NoneVisited(m, o, index);
    } else {
      var next, made, ends := OneIndex(m, o, v, allowed, book, index);
      if ends {
        at, to := [], index + Stride(o);
        NothingYet(o, won, next.trades, to);
      } else {
        at, to := TradesFrom(m, o, v, allowed, next, index + Stride(o));
      }
      NoneBetween(m, o, v, allowed, index);
      ExtendsOneMore(o, won, book.trades, index, index + Stride(o), to, at, trades, made);
      at := if made.Some? then [index] + at else at;
    }
  }

  /** One turn of the run: the book after it, the trade won, and whether it ends. */
  lemma OneIndex(m: Market, o: Options, v: Variant, allowed: Filter, book: Book, index: int)
    returns (next: Book, made: Option<Trade>, ends: bool)
    requires Scheduled(m, o, index) && OnTrack(o, index) && SeenAreEarlier(m, o, v, allowed, book, index)
    requires SingleFrom(m, o, v, allowed, book, index).Success?
    ensures OnTrack(o, index + Stride(o)) && SeenAreEarlier(m, o, v, allowed, next, index + Stride(o))
    ensures forall trade :: (index, trade) in Won(m, o, v, allowed) <==> made == Some(trade)
    ensures next.trades == if made.Some? then book.trades + [made.value] else book.trades
    ensures if ends then Filled(o, next.trades) && SingleFrom(m, o, v, allowed, book, index) == Success(next.trades)
            else
              && SingleFrom(m, o, v, allowed, book, index) == SingleFrom(m, o, v, allowed, next, index + Stride(o))
              && (made.Some? ==> !Filled(o, next.trades))
  {
    var base := m.analyze(Window(m, o, index)).value;
    var considered := Consider(m, o, v, allowed, book, index, base).value;
    next := if considered.Some? then considered.value else book;
    ends := considered.Some? && Full(o, next);
    SeenStep(m, o, v, allowed, book, index, base);
    NextOnTrack(o, index);
    made := MadeAt(m, o, v, allowed, book, index, base);
  }

  /** The trades of a range of indices after some earlier ones. */
  ghost predicate Extends(
      o: Options, won: iset<(int, Trade)>, before: seq<Trade>, from: int, to: int, at: seq<int>, trades: seq<Trade>) {
    && before <= trades
    && TradesAt(won, from, to, at, trades[|before|..])
    && (o.maxSignals.Some? ==> |trades| <= |before| + 1 || |trades| <= o.maxSignals.value)
  }

  ghost predicate VisitedBelow(m: Market, o: Options, to: int) {
    forall j :: Visited(m, o, j) ==> j < to
  }

  /** There are as many trades as there may be. */
  predicate Filled(o: Options, trades: seq<Trade>) {
    o.maxSignals.Some? && |trades| >= o.maxSignals.value
  }

  lemma NoneVisited(m: Market, o: Options, index: int)
    requires index > Last(m, o) && index >= 2
    ensures VisitedBelow(m, o, index)
  {
    forall j | Visited(m, o, j) ensures j < index {
      assert OnTrack(o, j);
      VisitedIsScheduled(m, o, j);
    }
  }

  lemma NoneBetween(m: Market, o: Options, v: Variant, allowed: Filter, index: int)
    requires OnTrack(o, index)
    ensures forall one :: one in Won(m, o, v, allowed) && index < one.0 ==> index + Stride(o) <= one.0
  {
    NextOnTrack(o, index);
    forall one | one in Won(m, o, v, allowed) && index < one.0 ensures index + Stride(o) <= one.0 {
      WonOnTrack(m, o, v, allowed, one.0, one.1);
    }
  }

  lemma WonOnTrack(m: Market, o: Options, v: Variant, allowed: Filter, index: int, trade: Trade)
    requires (index, trade) in Won(m, o, v, allowed)
    ensures OnTrack(o, index) && First(o) <= index
  {
    assert Visited(m, o, index);
  }

  lemma NothingYet(o: Options, won: iset<(int, Trade)>, before: seq<Trade>, to: int)
    ensures Extends(o, won, before, to, to, [], before)
  {
    assert before[|before|..] == [];
  }

  /** One index in front, with the trade it made or none. */
  lemma ExtendsOneMore(
      o: Options, won: iset<(int, Trade)>, before: seq<Trade>, index: int, next: int, to: int, at: seq<int>, trades: seq<Trade>,
      made: Option<Trade>)
    requires index < next <= to
    requires Extends(o, won, if made.Some? then before + [made.value] else before, next, to, at, trades)
    requires forall one :: one in won && index < one.0 ==> next <= one.0
    requires forall trade :: (index, trade) in won <==> made == Some(trade)
    requires o.maxSignals.Some? && made.Some? && |trades| > |before| + 1 ==> |trades| <= o.maxSignals.value
    ensures Extends(o, won, before, index, to, if made.Some? then [index] + at else at, trades)
  {
    var sofar := if made.Some? then before + [made.value] else before;
    OneMoreIndex(won, index, next, to, at, trades[|sofar|..], made);
    if made.Some? {
      assert trades[|before|..] == [made.value] + trades[|sofar|..];
    }
  }

  /** The trade won at one index, if any. */
  lemma MadeAt(m: Market, o: Options, v: Variant, allowed: Filter, book: Book, index: int, base: Option<Plan>) returns (made: Option<Trade>)
    requires Scheduled(m, o, index) && OnTrack(o, index) && SeenAreEarlier(m, o, v, allowed, book, index)
    requires m.analyze(Window(m, o, index)) == Success(base) && Consider(m, o, v, allowed, book, index, base).Success?
    ensures forall trade :: (index, trade) in Won(m, o, v, allowed) <==> made == Some(trade)
    ensures
      var considered := Consider(m, o, v, allowed, book, index, base).value;
      var next := if considered.Some? then considered.value else book;
      next.trades == if made.Some? then book.trades + [made.value] else book.trades
  {
    var considered := Consider(m, o, v, allowed, book, index, base).value;
    SkipsOrSimulates(m, o, v, allowed, book, index, base);
    if considered.None? {
      made := None;
    } else {
      var plan := Planned(v, base).value.value;
      assert FirstOfItsKey(m, o, v, allowed, index, plan);
      made := TradeOf(plan, Execution(m, o, index));
      forall trade ensures (index, trade) in Won(m, o, v, allowed) <==> made == Some(trade) {
        MakesItsTrade(m, o, v, allowed, index, plan, trade);
      }
    }
  }

  // ----- the whole run -----------------------------------------------------

  /** Every trade of a run comes from its own signal, in order, and is the trade of
      its plan over the bars that follow the signal's; of the signals up to where the
      run ends none is left out that is the first of its key and makes a trade; and
      the run ends early only with as many trades as it may make. */
  ghost predicate TradesItsSignals(m: Market, o: Options, v: Variant, allowed: Filter, trades: seq<Trade>) {
    && (o.maxSignals.Some? ==> |trades| <= 1 || |trades| <= o.maxSignals.value)
    && exists at, to ::
         && TradesAt(Won(m, o, v, allowed), 2, to, at, trades)
         && (VisitedBelow(m, o, to) || Filled(o, trades))
  }

  lemma RunTradesItsSignals(m: Market, o: Options, v: Variant, allowed: Filter)
    requires SingleFrom(m, o, v, allowed, NEW_BOOK, First(o)).Success?
    ensures TradesItsSignals(m, o, v, allowed, SingleFrom(m, o, v, allowed, NEW_BOOK, First(o)).value)
  {
    assert OnTrack(o, First(o)) by {
      assert 0 % Stride(o) == 0;
    }
    var at, to := TradesFrom(m, o, v, allowed, NEW_BOOK, First(o));
    var trades := SingleFrom(m, o, v, allowed, NEW_BOOK, First(o)).value;
    assert trades[0..] == trades;
    forall one | one in Won(m, o, v, allowed) ensures First(o) <= one.0 {
      WonOnTrack(m, o, v, allowed, one.0, one.1);
    }
    assert TradesAt(Won(m, o, v, allowed), 2, to, at, trades);
  }

  /** The run itself, trading as just described. */
  method RunBacktest(m: Market, o: Options, v: Variant, allowed: Filter) returns (r: Result<seq<Trade>>)
    ensures r == SingleFrom(m, o, v, allowed, NEW_BOOK, First(o))
    ensures r.Success? ==> TradesItsSignals(m, o, v, allowed, r.value)
  {
    if SingleFrom(m, o, v, allowed, NEW_BOOK, First(o)).Success? {
      RunTradesItsSignals(m, o, v, allowed);
    }
    var trades: seq<Trade>, seen: set<Key> := [], {};
    var index := First(o);
    while index <= Last(m, o)
      invariant index >= 2
      invariant SingleFrom(m, o, v, allowed, NEW_BOOK, First(o)) == SingleFrom(m, o, v, allowed, Book(trades, seen), index)
      decreases Last(m, o) - index
    {
      var base := m.analyze(Window(m, o, index));
      if base.Failure? {
        return Failure(base.code);
      }
      var planned := Planned(v, base.value);
      if planned.Failure? {
        return Failure(planned.code);
      }
      if planned.value.Some? {
        var plan, bar := planned.value.value, m.bars[index];
        var key := Key(plan.setup, plan.side, bar.ts);
        if allowed(plan, bar) && key !in seen {
          seen := seen + {key};
          var trade := SimulateTrade(plan, Execution(m, o, index));
          if trade.Some? {
            trades := trades + [trade.value];
          }
          if o.maxSignals.Some? && |trades| >= o.maxSignals.value {
            return Success(trades);
          }
        }
      }
      index := index + Stride(o);
    }
    r := Success(trades);
  }

  /** With no faster bars a trade opens on a bar after its signal's, within the
      horizon; with faster ones, on one that opens no earlier than the signal closes. */
  lemma NoTradeOpensOnItsSignal(m: Market, o: Options, v: Variant, allowed: Filter, index: int, trade: Trade)
    requires Makes(m, o, v, allowed, index, trade)
    ensures m.fast == [] ==> exists k :: index < k <= index + o.horizon && trade.openedAt == m.bars[k].ts
    ensures m.fast != [] ==> exists b :: b in m.fast && trade.openedAt == b.ts && m.bars[index].closesAt <= b.ts
  {
    var bars :| Follows(m, o, index, bars) && TradeOf(trade.plan, bars) == Some(trade);
    var entry := OpensOn(trade, bars);
    if m.fast == [] {
      assert bars[entry] == m.bars[index + 1 + entry];
    } else {
      FollowingIsLater(m, o, index, bars, bars[entry]);
    }
  }

  lemma OpensOn(trade: Trade, bars: seq<Bar>) returns (k: nat)
    requires TradeOf(trade.plan, bars) == Some(trade)
    ensures k < |bars| && trade.openedAt == bars[k].ts
  {
    ExitIsFirst(trade.plan, bars);
    k := OpensAt(trade.plan, bars, 0);
  }

  lemma FollowingIsLater(m: Market, o: Options, index: int, bars: seq<Bar>, b: Bar)
    requires 0 <= index && index + o.horizon < |m.bars| && m.fast != []
    requires Follows(m, o, index, bars) && b in bars
    ensures b in m.fast && m.bars[index].closesAt <= b.ts
  {
    assert b in multiset(bars);
    assert b in multiset(m.fast);
  }

  /** The run cannot go on at this index: its analysis fails, or the variant cannot
      widen its plan. */
  ghost predicate FailsAt(m: Market, o: Options, v: Variant, at: int, code: string) {
    Visited(m, o, at) && exists window ::
      && EndsAt(m, o, at, window)
      && var analysis := m.analyze(window);
         if analysis.Failure? then analysis.code == code
         else analysis.value.Some? && (v.mode.Unknown? || v.multiplier <= 0.0)
  }

  lemma FailsHere(m: Market, o: Options, v: Variant, allowed: Filter, book: Book, index: int, code: string)
    requires Scheduled(m, o, index) && OnTrack(o, index)
    requires
      var base := m.analyze(Window(m, o, index));
      if base.Failure? then base.code == code else Consider(m, o, v, allowed, book, index, base.value) == Failure(code)
    ensures FailsAt(m, o, v, index, code)
  {
    VisitedIsScheduled(m, o, index);
    WindowEnds(m, o, index, Window(m, o, index));
  }

  /** A run that fails does so at an index it visits. */
  lemma {:induction false} FailsAtAnIndex(m: Market, o: Options, v: Variant, allowed: Filter, book: Book, index: int) returns (at: int)
    requires index >= 2 && OnTrack(o, index) && SingleFrom(m, o, v, allowed, book, index).Failure?
    ensures index <= at && FailsAt(m, o, v, at, SingleFrom(m, o, v, allowed, book, index).code)
    decreases Last(m, o) - index
  {
    var base := m.analyze(Window(m, o, index));
    if base.Success? && Consider(m, o, v, allowed, book, index, base.value).Success? {
      var considered := Consider(m, o, v, allowed, book, index, base.value).value;
      NextOnTrack(o, index);
      at := FailsAtAnIndex(m, o, v, allowed, if considered.Some? then considered.value else book, index + Stride(o));
    } else {
      at := index;
      FailsHere(m, o, v, allowed, book, index, SingleFrom(m, o, v, allowed, book, index).code);
    }
  }
}
