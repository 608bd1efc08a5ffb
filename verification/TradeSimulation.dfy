/** Trade plans, their transformations, and the outcome of one plan over the bars
    that follow its signal. Prices are exact; display rounding is left out. */
module TradeSimulation {
  import opened Wrappers

  /** A confirmed bar; `closesAt` is when it is first observable. */
  datatype Bar = Bar(ts: int, closesAt: int, low: real, high: real, close: real)

  datatype Side = Long | Short | Neither

  datatype Plan = Plan(source: string, setup: string, side: Side, entry: real, stop: real, target: real, inverted: bool)

  /** How widening treats the target; anything else is refused. */
  datatype Mode = Keep | PreserveRr | Unknown

  function Abs(x: real): real {
    if x < 0.0 then -x else x
  }

  function Risk(plan: Plan): real {
    Abs(plan.entry - plan.stop)
  }

  function Reward(plan: Plan): real {
    Abs(plan.target - plan.entry)
  }

  // ----- transformations ---------------------------------------------------

  function Opposite(side: Side): Side {
    match side
    case Long => Short
    case Short => Long
    case Neither => Neither
  }

  function Inverted(plan: Plan): Plan {
    plan.(side := Opposite(plan.side), stop := plan.target, target := plan.stop, inverted := true)
  }

  function Widened(plan: Plan, multiplier: real, mode: Mode): Result<Plan> {
    if multiplier <= 0.0 then Failure("stop_multiplier must be positive")
    else if mode.Unknown? then Failure("target_mode must be 'keep' or 'preserve-rr'")
    else if multiplier == 1.0 || Risk(plan) <= 0.0 || Reward(plan) <= 0.0 || plan.side.Neither? then Success(plan)
    else if plan.side.Long? then
      Success(plan.(stop := plan.entry - Risk(plan) * multiplier,
                    target := if mode.Keep? then plan.target else plan.entry + Reward(plan) * multiplier))
    else
      Success(plan.(stop := plan.entry + Risk(plan) * multiplier,
                    target := if mode.Keep? then plan.target else plan.entry - Reward(plan) * multiplier))
  }

  /** Stop and target on the sides they belong to. */
  predicate WellFormed(plan: Plan) {
    match plan.side
    case Long => plan.stop < plan.entry < plan.target
    case Short => plan.target < plan.entry < plan.stop
    case Neither => false
  }

  /** Inverting keeps a plan well formed, swaps risk and reward, and undoes itself. */
  lemma InversionLaws(plan: Plan)
    ensures WellFormed(Inverted(plan)) <==> WellFormed(plan)
    ensures Risk(Inverted(plan)) == Reward(plan) && Reward(Inverted(plan)) == Risk(plan)
    ensures Inverted(Inverted(plan)) == plan.(inverted := true)
  {
  }

  lemma PositiveProduct(x: real, m: real)
    requires x > 0.0 && m > 0.0
    ensures x * m > 0.0
  {
  }

  /** Widening scales the risk, keeps a plan well formed, and in the ratio-preserving
      mode scales the reward with it. */
  lemma WideningLaws(plan: Plan, m: real, mode: Mode)
    requires WellFormed(plan) && m > 0.0 && !mode.Unknown?
    ensures Widened(plan, m, mode).Success?
    ensures
      var wide := Widened(plan, m, mode).value;
      && WellFormed(wide) && wide.entry == plan.entry && wide.side == plan.side
      && Risk(wide) == Risk(plan) * m
      && Reward(wide) == if mode.Keep? then Reward(plan) else Reward(plan) * m
  {
    PositiveProduct(Risk(plan), m);
    PositiveProduct(Reward(plan), m);
  }

  /** Widening twice is widening by the product. */
  lemma WideningComposes(plan: Plan, m: real, n: real, mode: Mode)
    requires WellFormed(plan) && m > 0.0 && n > 0.0 && !mode.Unknown?
    ensures m * n > 0.0 && Widened(plan, m, mode).Success?
    ensures Widened(Widened(plan, m, mode).value, n, mode) == Widened(plan, m * n, mode)
  {
    PositiveProduct(m, n);
    WideningLaws(plan, m, mode);
    var once := Widened(plan, m, mode).value;
    SameScale(Risk(plan), Risk(once), m, n);
    SameScale(Reward(plan), Reward(once), m, n);
    SameWidening(plan, once, n, m * n, mode);
  }

  lemma SameScale(x: real, once: real, m: real, n: real)
    ensures once == x * m ==> once * n == x * (m * n)
  {
  }

  /** Widening two plans to the same risk and the same reward. */
  lemma SameWidening(plan: Plan, once: Plan, n: real, k: real, mode: Mode)
    requires WellFormed(plan) && WellFormed(once) && n > 0.0 && k > 0.0 && !mode.Unknown?
    requires once == plan.(stop := once.stop, target := once.target)
    requires Risk(once) * n == Risk(plan) * k
    requires if mode.Keep? then Reward(once) == Reward(plan) else Reward(once) * n == Reward(plan) * k
    ensures Widened(once, n, mode) == Widened(plan, k, mode)
  {
    var a := WidenedMeasures(once, n, mode);
    var b := WidenedMeasures(plan, k, mode);
    SamePlan(a, b);
  }

  lemma WidenedMeasures(plan: Plan, m: real, mode: Mode) returns (wide: Plan)
    requires WellFormed(plan) && m > 0.0 && !mode.Unknown?
    ensures Widened(plan, m, mode) == Success(wide) && WellFormed(wide)
    ensures wide == plan.(stop := wide.stop, target := wide.target)
    ensures Risk(wide) == Risk(plan) * m && Reward(wide) == if mode.Keep? then Reward(plan) else Reward(plan) * m
  {
    WideningLaws(plan, m, mode);
    wide := Widened(plan, m, mode).value;
  }

  lemma SamePlan(p: Plan, q: Plan)
    requires WellFormed(p) && WellFormed(q)
    requires p.source == q.source && p.setup == q.setup && p.side == q.side && p.entry == q.entry && p.inverted == q.inverted
    requires Risk(p) == Risk(q) && Reward(p) == Reward(q)
    ensures p == q
  {
  }

  // ----- one trade ---------------------------------------------------------

  datatype Reason = Stop | Target | Timeout

  datatype Trade = Trade(
    plan: Plan,
    openedAt: int,
    closedAt: int,
    exitPrice: real,
    reason: Reason,
    pnl: real,
    mfe: real,
    mae: real,
    rMultiple: real,
    holdBars: nat
  )

  predicate Touches(plan: Plan, bar: Bar) {
    bar.low <= plan.entry <= bar.high
  }

  predicate StopHit(plan: Plan, bar: Bar) {
    if plan.side.Long? then bar.low <= plan.stop else bar.high >= plan.stop
  }

  predicate TargetHit(plan: Plan, bar: Bar) {
    if plan.side.Long? then bar.high >= plan.target else bar.low <= plan.target
  }

  predicate Exits(plan: Plan, bar: Bar) {
    StopHit(plan, bar) || TargetHit(plan, bar)
  }

  function Favourable(plan: Plan, bar: Bar): real {
    if plan.side.Long? then bar.high - plan.entry else plan.entry - bar.low
  }

  function Adverse(plan: Plan, bar: Bar): real {
    if plan.side.Long? then bar.low - plan.entry else plan.entry - bar.high
  }

  /** Index of the first bar, from `i` on, that touches the entry, or the number of bars. */
  function OpensAt(plan: Plan, bars: seq<Bar>, i: nat): (o: nat)
    requires i <= |bars|
    ensures i <= o <= |bars|
    decreases |bars| - i
  {
    if i == |bars| || Touches(plan, bars[i]) then i else OpensAt(plan, bars, i + 1)
  }

  /** Index of the first bar, from `i` on, that hits stop or target. */
  function ClosesAt(plan: Plan, bars: seq<Bar>, i: nat): (c: nat)
    requires i <= |bars|
    ensures i <= c <= |bars|
    decreases |bars| - i
  {
    if i == |bars| || Exits(plan, bars[i]) then i else ClosesAt(plan, bars, i + 1)
  }

  lemma {:induction false} OpensAtFirst(plan: Plan, bars: seq<Bar>, i: nat)
    requires i <= |bars|
    ensures
      var o := OpensAt(plan, bars, i);
      (forall k :: i <= k < o ==> !Touches(plan, bars[k])) && (o < |bars| ==> Touches(plan, bars[o]))
    decreases |bars| - i
  {
    if i < |bars| && !Touches(plan, bars[i]) {
      OpensAtFirst(plan, bars, i + 1);
    }
  }

  lemma {:induction false} ClosesAtFirst(plan: Plan, bars: seq<Bar>, i: nat)
    requires i <= |bars|
    ensures
      var c := ClosesAt(plan, bars, i);
      (forall k :: i <= k < c ==> !Exits(plan, bars[k])) && (c < |bars| ==> Exits(plan, bars[c]))
    decreases |bars| - i
  {
    if i < |bars| && !Exits(plan, bars[i]) {
      ClosesAtFirst(plan, bars, i + 1);
    }
  }

  /** The furthest the price went the trade's way, at least zero. */
  function Best(plan: Plan, bars: seq<Bar>): real {
    if bars == [] then 0.0
    else
      var front, last := Best(plan, bars[..|bars| - 1]), Favourable(plan, bars[|bars| - 1]);
      if last > front then last else front
  }

  /** The furthest it went against the trade, at most zero. */
  function Worst(plan: Plan, bars: seq<Bar>): real {
    if bars == [] then 0.0
    else
      var front, last := Worst(plan, bars[..|bars| - 1]), Adverse(plan, bars[|bars| - 1]);
      if last < front then last else front
  }

  /** The excursions bound every bar held, and are reached by one of them or zero. */
  lemma {:induction false} ExcursionsBound(plan: Plan, bars: seq<Bar>)
    ensures Worst(plan, bars) <= 0.0 <= Best(plan, bars)
    ensures forall b :: b in bars ==> Worst(plan, bars) <= Adverse(plan, b) && Favourable(plan, b) <= Best(plan, bars)
    ensures Best(plan, bars) != 0.0 ==> exists b :: b in bars && Favourable(plan, b) == Best(plan, bars)
    ensures Worst(plan, bars) != 0.0 ==> exists b :: b in bars && Adverse(plan, b) == Worst(plan, bars)
  {
    if bars != [] {
      var n := |bars| - 1;
      ExcursionsBound(plan, bars[..n]);
      assert forall b :: b in bars <==> b in bars[..n] || b == bars[n];
    }
  }

  function Pnl(plan: Plan, exitPrice: real): real {
    if plan.side.Long? then exitPrice - plan.entry else plan.entry - exitPrice
  }

  function TradeFrom(plan: Plan, held: seq<Bar>, price: real, reason: Reason): Trade
    requires held != [] && Risk(plan) > 0.0
  {
    Trade(plan, held[0].ts, held[|held| - 1].ts, price, reason, Pnl(plan, price), Best(plan, held), Worst(plan, held),
      Pnl(plan, price) / Risk(plan), |held|)
  }

  /** The trade a plan makes over the bars after its signal, if it is ever entered:
      from the first touch of the entry to the first stop or target, the stop going
      first, or to the last bar's close. */
  function TradeOf(plan: Plan, bars: seq<Bar>): Option<Trade> {
    var o := OpensAt(plan, bars, 0);
    if Risk(plan) <= 0.0 || o == |bars| then None
    else
      var c := ClosesAt(plan, bars, o);
      if c == |bars| then Some(TradeFrom(plan, bars[o..], bars[|bars| - 1].close, Timeout))
      else if StopHit(plan, bars[c]) then Some(TradeFrom(plan, bars[o..c + 1], plan.stop, Stop))
      else Some(TradeFrom(plan, bars[o..c + 1], plan.target, Target))
  }

  method SimulateTrade(plan: Plan, bars: seq<Bar>) returns (t: Option<Trade>)
    ensures t == TradeOf(plan, bars)
  {
    var risk := Risk(plan);
    if risk <= 0.0 {
      return None;
    }
    var inPosition, openedAt, mfe, mae, holdBars := false, 0, 0.0, 0.0, 0;
    ghost var o := OpensAt(plan, bars, 0);
    var i := 0;
    var hit := Timeout;
    while i < |bars| && hit.Timeout?
      invariant i <= |bars| && (inPosition <==> i > o)
      invariant !inPosition ==> OpensAt(plan, bars, i) == o
      invariant !inPosition ==> holdBars == 0 && mfe == 0.0 && mae == 0.0 && hit.Timeout?
      invariant inPosition ==> Holding(plan, bars[o..i], openedAt, mfe, mae, holdBars)
      invariant inPosition && hit.Timeout? ==> ClosesAt(plan, bars, o) == ClosesAt(plan, bars, i)
      invariant inPosition && !hit.Timeout? ==> ClosesAt(plan, bars, o) == i - 1
      invariant hit.Stop? ==> StopHit(plan, bars[i - 1])
      invariant hit.Target? ==> !StopHit(plan, bars[i - 1])
      decreases |bars| - i
    {
      var bar := bars[i];
      i := i + 1;
      if !inPosition {
        if !Touches(plan, bar) {
          continue;
        }
        inPosition, openedAt := true, bar.ts;
      }
      holdBars := holdBars + 1;
      mfe := if Favourable(plan, bar) > mfe then Favourable(plan, bar) else mfe;
      mae := if Adverse(plan, bar) < mae then Adverse(plan, bar) else mae;
      hit := if StopHit(plan, bar) then Stop else if TargetHit(plan, bar) then Target else Timeout;
      HoldMore(plan, bars, o, i);
    }
    if !inPosition {
      return None;
    }
    var last := bars[i - 1];
    var price := if hit.Stop? then plan.stop else if hit.Target? then plan.target else last.close;
    t := Some(Trade(plan, openedAt, last.ts, price, hit, Pnl(plan, price), mfe, mae, Pnl(plan, price) / risk, holdBars));
    HeldToEnd(bars, o, i);
  }

  lemma HeldToEnd(bars: seq<Bar>, o: nat, i: nat)
    requires o < i <= |bars|
    ensures bars[o..i][|bars[o..i]| - 1] == bars[i - 1]
    ensures i == |bars| ==> bars[o..i] == bars[o..]
  {
  }

  lemma HoldMore(plan: Plan, bars: seq<Bar>, o: nat, i: nat)
    requires o < i <= |bars|
    ensures
      var held, bar := bars[o..i - 1], bars[i - 1];
      && |bars[o..i]| == |held| + 1 && bars[o..i][0] == bars[o]
      && Best(plan, bars[o..i]) == (if Favourable(plan, bar) > Best(plan, held) then Favourable(plan, bar) else Best(plan, held))
      && Worst(plan, bars[o..i]) == if Adverse(plan, bar) < Worst(plan, held) then Adverse(plan, bar) else Worst(plan, held)
  {
    assert bars[o..i][..i - 1 - o] == bars[o..i - 1] && bars[o..i][i - 1 - o] == bars[i - 1];
  }

  /** What the loop has accumulated about the bars held so far. */
  ghost predicate Holding(plan: Plan, held: seq<Bar>, openedAt: int, mfe: real, mae: real, holdBars: nat) {
    held != [] && openedAt == held[0].ts && holdBars == |held| && mfe == Best(plan, held) && mae == Worst(plan, held)
  }

  // ----- what the outcome means --------------------------------------------

  /** A bar's close lies in its range. */
  predicate SoundBar(bar: Bar) {
    bar.low <= bar.close <= bar.high
  }

  /** A well-formed plan's result never lies outside what the price reached, loses
      exactly its risk at the stop, and gains exactly its reward at the target. */
  lemma OutcomeIsBounded(plan: Plan, bars: seq<Bar>)
    requires WellFormed(plan) && TradeOf(plan, bars).Some?
    requires forall k :: 0 <= k < |bars| ==> SoundBar(bars[k])
    ensures
      var t := TradeOf(plan, bars).value;
      && t.mae <= t.pnl <= t.mfe
      && (t.reason.Stop? ==> t.pnl == -Risk(plan) && t.rMultiple == -1.0)
      && (t.reason.Target? ==> t.pnl == Reward(plan) && t.rMultiple == Reward(plan) / Risk(plan))
  {
    var o := OpensAt(plan, bars, 0);
    var c := ClosesAt(plan, bars, o);
    ClosesAtFirst(plan, bars, o);
    MinusOne(Pnl(plan, plan.stop), Risk(plan));
    if c == |bars| {
      LastHeld(plan, bars[o..]);
    } else {
      LastHeld(plan, bars[o..c + 1]);
    }
  }

  lemma MinusOne(x: real, risk: real)
    requires risk > 0.0
    ensures x == -risk ==> x / risk == -1.0
  {
  }

  lemma LastHeld(plan: Plan, held: seq<Bar>)
    requires held != [] && WellFormed(plan)
    ensures
      var last, mae, mfe := held[|held| - 1], Worst(plan, held), Best(plan, held);
      && (SoundBar(last) ==> mae <= Pnl(plan, last.close) <= mfe)
      && (StopHit(plan, last) ==> mae <= Pnl(plan, plan.stop) <= mfe)
      && (TargetHit(plan, last) ==> mae <= Pnl(plan, plan.target) <= mfe)
  {
    ExcursionsBound(plan, held);
    assert held[|held| - 1] in held;
  }

  /** No bar before the exit hit the stop or the target, and a target exit means
      that its bar did not hit the stop. */
  lemma ExitIsFirst(plan: Plan, bars: seq<Bar>)
    requires TradeOf(plan, bars).Some?
    ensures
      var t, o := TradeOf(plan, bars).value, OpensAt(plan, bars, 0);
      && o + t.holdBars <= |bars| && t.openedAt == bars[o].ts && Touches(plan, bars[o])
      && (forall k :: 0 <= k < o ==> !Touches(plan, bars[k]))
      && (forall k :: o <= k < o + t.holdBars - 1 ==> !Exits(plan, bars[k]))
      && t.closedAt == bars[o + t.holdBars - 1].ts
      && match t.reason
         case Stop => StopHit(plan, bars[o + t.holdBars - 1])
         case Target => TargetHit(plan, bars[o + t.holdBars - 1]) && !StopHit(plan, bars[o + t.holdBars - 1])
         case Timeout => o + t.holdBars == |bars| && !Exits(plan, bars[|bars| - 1]) && t.exitPrice == bars[|bars| - 1].close
  {
    OpensAtFirst(plan, bars, 0);
    ClosesAtFirst(plan, bars, OpensAt(plan, bars, 0));
  }

  // ----- by the prices themselves ------------------------------------------

  /** A trade opens on the first bar whose range holds the entry, and closes on the
      first from there on whose range reaches the stop, or else the target; at the
      stop's or the target's price, or at the last close. Its result is the distance
      from the entry, and its multiple that distance over the risk. */
  lemma TradeByPrices(plan: Plan, bars: seq<Bar>)
    requires WellFormed(plan) && TradeOf(plan, bars).Some?
    ensures
      var t := TradeOf(plan, bars).value;
      exists o, c :: OpensAndCloses(plan, bars, o, c, t)
    ensures
      var t := TradeOf(plan, bars).value;
      && t.plan == plan
      && t.pnl == (if plan.side.Long? then t.exitPrice - plan.entry else plan.entry - t.exitPrice)
      && t.rMultiple == t.pnl / (if plan.entry > plan.stop then plan.entry - plan.stop else plan.stop - plan.entry)
  {
    var t, o := TradeOf(plan, bars).value, OpensAt(plan, bars, 0);
    ExitIsFirst(plan, bars);
    ExitPrice(plan, bars);
    TradeMeasures(plan, bars);
    var c := o + t.holdBars - 1;
    forall k | 0 <= k < o ensures Outside(plan, bars[k]) {
      assert !Touches(plan, bars[k]);
    }
    forall k | o <= k < c ensures !ReachesStop(plan, bars[k]) && !ReachesTarget(plan, bars[k]) {
      assert !Exits(plan, bars[k]);
    }
    assert OpensAndCloses(plan, bars, o, c, t);
  }

  lemma ExitPrice(plan: Plan, bars: seq<Bar>)
    requires TradeOf(plan, bars).Some?
    ensures
      var t := TradeOf(plan, bars).value;
      (t.reason.Stop? ==> t.exitPrice == plan.stop) && (t.reason.Target? ==> t.exitPrice == plan.target)
      && t.holdBars >= 1
  {
  }

  lemma TradeMeasures(plan: Plan, bars: seq<Bar>)
    requires WellFormed(plan) && TradeOf(plan, bars).Some?
    ensures
      var t := TradeOf(plan, bars).value;
      && t.plan == plan
      && t.pnl == (if plan.side.Long? then t.exitPrice - plan.entry else plan.entry - t.exitPrice)
      && Risk(plan) == (if plan.entry > plan.stop then plan.entry - plan.stop else plan.stop - plan.entry)
      && t.rMultiple == t.pnl / Risk(plan)
  {
  }

  /** The entry lies outside the bar's range. */
  predicate Outside(plan: Plan, bar: Bar) {
    plan.entry < bar.low || bar.high < plan.entry
  }

  ghost predicate OpensAndCloses(plan: Plan, bars: seq<Bar>, o: int, c: int, t: Trade) {
    && 0 <= o <= c < |bars| && t.openedAt == bars[o].ts && t.closedAt == bars[c].ts && t.holdBars == c - o + 1
    && bars[o].low <= plan.entry <= bars[o].high
    && (forall k :: 0 <= k < o ==> Outside(plan, bars[k]))
    && (forall k :: o <= k < c ==> !ReachesStop(plan, bars[k]) && !ReachesTarget(plan, bars[k]))
    && ClosesFor(plan, bars, c, t)
  }

  predicate ReachesStop(plan: Plan, bar: Bar) {
    (plan.side.Long? && bar.low <= plan.stop) || (plan.side.Short? && plan.stop <= bar.high)
  }

  predicate ReachesTarget(plan: Plan, bar: Bar) {
    (plan.side.Long? && plan.target <= bar.high) || (plan.side.Short? && bar.low <= plan.target)
  }

  predicate ClosesFor(plan: Plan, bars: seq<Bar>, c: nat, t: Trade)
    requires c < |bars|
  {
    match t.reason
    case Stop => ReachesStop(plan, bars[c]) && t.exitPrice == plan.stop
    case Target => ReachesTarget(plan, bars[c]) && !ReachesStop(plan, bars[c]) && t.exitPrice == plan.target
    case Timeout =>
      c == |bars| - 1 && !ReachesStop(plan, bars[c]) && !ReachesTarget(plan, bars[c]) && t.exitPrice == bars[c].close
  }

  /** The excursions are measured from the entry to the highs and lows of the bars held:
      no bar goes further, and zero or one of them goes as far. */
  lemma {:induction false} ExcursionsByPrices(plan: Plan, bars: seq<Bar>)
    ensures
      var up := (b: Bar) => if plan.side.Long? then b.high - plan.entry else plan.entry - b.low;
      var down := (b: Bar) => if plan.side.Long? then b.low - plan.entry else plan.entry - b.high;
      && (forall b :: b in bars ==> up(b) <= Best(plan, bars) && Worst(plan, bars) <= down(b))
      && (Best(plan, bars) == 0.0 || exists b :: b in bars && Best(plan, bars) == up(b))
      && (Worst(plan, bars) == 0.0 || exists b :: b in bars && Worst(plan, bars) == down(b))
      && Worst(plan, bars) <= 0.0 <= Best(plan, bars)
  {
    ExcursionsBound(plan, bars);
  }

  /** A trade reports the excursions of exactly the bars it held. */
  lemma TradeReportsExcursions(plan: Plan, bars: seq<Bar>)
    requires TradeOf(plan, bars).Some?
    ensures
      var t, o := TradeOf(plan, bars).value, OpensAt(plan, bars, 0);
      o + t.holdBars <= |bars| && t.mfe == Best(plan, bars[o..o + t.holdBars]) && t.mae == Worst(plan, bars[o..o + t.holdBars])
  {
    var o := OpensAt(plan, bars, 0);
    assert bars[o..] == bars[o..|bars|];
  }

  /** Widening is refused exactly for a multiplier that is not positive or a target mode
      it does not know; by one it leaves the plan alone. */
  lemma WideningRefusesIff(plan: Plan, multiplier: real, mode: Mode)
    ensures Widened(plan, multiplier, mode).Failure? <==> multiplier <= 0.0 || (mode != Keep && mode != PreserveRr)
    ensures !mode.Unknown? ==> Widened(plan, 1.0, mode) == Success(plan)
  {
  }
}
