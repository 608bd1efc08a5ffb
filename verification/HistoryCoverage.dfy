/** Provider-complete coverage receipts, and the interval algebra over them.
    Instants are integers (microseconds); every range is half-open. */
module HistoryCoverage {
  import opened Wrappers
  import opened Sorting
  import opened Timeframes

  const RECEIPT_CONTRACT_VERSION := 2
  const REQUEST_CONTRACT_VERSION := 2
  const ADMISSION_CONTRACT_VERSION := 2

  /** The authority dimensions that make one receipt eligible. */
  datatype Contract = Contract(
    provider: string,
    instrumentId: string,
    routeFingerprint: string,
    timeframe: Timeframe,
    receiptContractVersion: int,
    requestContractVersion: int,
    admissionContractVersion: int,
    requestMode: string,
    providerSource: string,
    providerContractId: string,
    providerContractType: string,
    dataType: string
  )

  datatype Receipt = Receipt(
    contract: Contract,
    coveredFrom: int,
    coveredTo: int,
    responseCount: nat,
    completedAt: int,
    providerLimit: Option<int>
  ) {
    /** What the frozen dataclass checks on construction. */
    predicate Valid() {
      && coveredFrom < coveredTo <= completedAt
      && (providerLimit.Some? ==> 0 < providerLimit.value && responseCount < providerLimit.value)
    }

    predicate Covers(t: int) {
      coveredFrom <= t < coveredTo
    }
  }

  datatype Range = Range(from: int, to: int) {
    predicate Holds(t: int) {
      from <= t < to
    }
  }

  /** Some receipt covers the instant. */
  ghost predicate Covered(t: int, receipts: seq<Receipt>) {
    exists i :: 0 <= i < |receipts| && receipts[i].Covers(t)
  }

  ghost predicate InRanges(t: int, ranges: seq<Range>) {
    exists i :: 0 <= i < |ranges| && ranges[i].Holds(t)
  }

  /** Non-empty ranges in increasing order with a real hole between any two. */
  ghost predicate Separated(ranges: seq<Range>) {
    && (forall i :: 0 <= i < |ranges| ==> ranges[i].from < ranges[i].to)
    && (forall i, j :: 0 <= i < j < |ranges| ==> ranges[i].to < ranges[j].from)
  }

  predicate OneContract(receipts: seq<Receipt>) {
    forall r :: r in receipts ==> r.contract == receipts[0].contract
  }

  ghost predicate AllValid(receipts: seq<Receipt>) {
    forall i :: 0 <= i < |receipts| ==> receipts[i].Valid()
  }

  /** `ranges` is the union of the receipts: same instants, maximal pieces. */
  ghost predicate IsUnion(ranges: seq<Range>, receipts: seq<Receipt>) {
    && Separated(ranges)
    && forall t :: InRanges(t, ranges) <==> Covered(t, receipts)
  }

  const RANGE_KEY: Receipt -> Key := (r: Receipt) => Key(r.coveredFrom, r.coveredTo)

  /** Merges overlapping or adjacent receipts; mixed contracts are refused. */
  method HistoryCoverageUnion(receipts: seq<Receipt>) returns (r: Result<seq<Range>>)
    requires AllValid(receipts)
    ensures r.Success? <==> OneContract(receipts)
    ensures r.Success? ==> IsUnion(r.value, receipts)
  {
    if receipts == [] {
      return Success([]);
    }
    if exists x :: x in receipts && x.contract != receipts[0].contract {
      return Failure("history coverage union requires one exact contract");
    }
    var sorted := Sort(receipts, RANGE_KEY);
    SortKeeps(receipts, RANGE_KEY);
    var merged: seq<Range> := [];
    for i := 0 to |sorted|
      invariant IsUnion(merged, sorted[..i])
      invariant if i == 0 then merged == []
        else merged != [] && merged[|merged| - 1].from <= sorted[i - 1].coveredFrom
    {
      var receipt := sorted[i];
      ghost var before := merged;
      if merged == [] || receipt.coveredFrom > merged[|merged| - 1].to {
        merged := merged + [Range(receipt.coveredFrom, receipt.coveredTo)];
      } else {
        var last := merged[|merged| - 1];
        merged := merged[..|merged| - 1]
          + [Range(last.from, if last.to < receipt.coveredTo then receipt.coveredTo else last.to)];
      }
      SameMembers(receipts, RANGE_KEY, receipt);
      assert i > 0 ==> KeyLeq(RANGE_KEY(sorted[i - 1]), RANGE_KEY(sorted[i]));
      MergeStep(before, merged, sorted, i);
    }
    assert sorted[..|sorted|] == sorted;
    CoveredIsOrderFree(sorted, receipts);
    r := Success(merged);
  }

  /** The next list of the merge loop. */
  function Merge(ranges: seq<Range>, receipt: Receipt): seq<Range> {
    if ranges == [] || receipt.coveredFrom > ranges[|ranges| - 1].to then
      ranges + [Range(receipt.coveredFrom, receipt.coveredTo)]
    else
      var last := ranges[|ranges| - 1];
      ranges[..|ranges| - 1]
        + [Range(last.from, if last.to < receipt.coveredTo then receipt.coveredTo else last.to)]
  }

  lemma MergeStep(before: seq<Range>, merged: seq<Range>, sorted: seq<Receipt>, i: nat)
    requires i < |sorted| && sorted[i].Valid()
    requires IsUnion(before, sorted[..i]) && merged == Merge(before, sorted[i])
    requires before != [] ==> before[|before| - 1].from <= sorted[i].coveredFrom
    ensures IsUnion(merged, sorted[..i + 1])
    ensures merged != [] && merged[|merged| - 1].from <= sorted[i].coveredFrom
  {
    forall t ensures InRanges(t, merged) <==> Covered(t, sorted[..i + 1]) {
      MergeKeepsInstants(before, sorted[i], t);
      CoveredExtends(sorted, i);
      assert InRanges(t, before) <==> Covered(t, sorted[..i]);
    }
  }

  /** One merge step adds exactly the receipt's instants. */
  lemma MergeKeepsInstants(before: seq<Range>, receipt: Receipt, t: int)
    requires Separated(before) && receipt.Valid()
    requires before != [] ==> before[|before| - 1].from <= receipt.coveredFrom
    ensures InRanges(t, Merge(before, receipt)) <==> InRanges(t, before) || receipt.Covers(t)
  {
    var merged := Merge(before, receipt);
    var n := |merged| - 1;
    if i :| 0 <= i < |before| && before[i].Holds(t) {
      assert if i < n then merged[i].Holds(t) else merged[n].Holds(t);
    }
    if receipt.Covers(t) {
      assert merged[n].Holds(t);
    }
    if i :| 0 <= i < |merged| && merged[i].Holds(t) {
      assert receipt.Covers(t) || before[i].Holds(t);
    }
  }

  lemma CoveredExtends(receipts: seq<Receipt>, n: nat)
    requires n < |receipts|
    ensures forall t :: Covered(t, receipts[..n + 1]) <==> Covered(t, receipts[..n]) || receipts[n].Covers(t)
  {
    forall t ensures Covered(t, receipts[..n + 1]) <==> Covered(t, receipts[..n]) || receipts[n].Covers(t) {
      if Covered(t, receipts[..n]) {
        var i :| 0 <= i < n && receipts[..n][i].Covers(t);
        assert receipts[..n + 1][i].Covers(t);
      }
      if receipts[n].Covers(t) {
        assert receipts[..n + 1][n].Covers(t);
      }
      if Covered(t, receipts[..n + 1]) {
        var i :| 0 <= i < n + 1 && receipts[..n + 1][i].Covers(t);
        assert i < n ==> receipts[..n][i].Covers(t);
      }
    }
  }

  lemma CoveredIsOrderFree(a: seq<Receipt>, b: seq<Receipt>)
    requires multiset(a) == multiset(b)
    ensures forall t :: Covered(t, a) <==> Covered(t, b)
  {
    forall t ensures Covered(t, a) <==> Covered(t, b) {
      CoveredByMember(t, a, b);
      CoveredByMember(t, b, a);
    }
  }

  lemma CoveredByMember(t: int, a: seq<Receipt>, b: seq<Receipt>)
    requires multiset(a) == multiset(b)
    ensures Covered(t, a) ==> Covered(t, b)
  {
    if Covered(t, a) {
      var i :| 0 <= i < |a| && a[i].Covers(t);
      assert a[i] in multiset(b);
      var j :| 0 <= j < |b| && b[j] == a[i];
    }
  }

  /** Two separated lists with the same instants are the same list. */
  lemma {:induction false} SeparatedIsCanonical(a: seq<Range>, b: seq<Range>)
    requires Separated(a) && Separated(b)
    requires forall t :: InRanges(t, a) <==> InRanges(t, b)
    ensures a == b
    decreases |a|
  {
    HeadIsIn(a);
    HeadIsIn(b);
    if a != [] {
      assert InRanges(a[0].from, b);
      assert InRanges(b[0].from, a);
      HeadEnds(a, b);
      HeadEnds(b, a);
      forall t ensures InRanges(t, a[1..]) <==> InRanges(t, b[1..]) {
        TailInstants(a, t);
        TailInstants(b, t);
        assert InRanges(t, a) <==> InRanges(t, b);
      }
      SeparatedIsCanonical(a[1..], b[1..]);
      assert a == [a[0]] + a[1..] && b == [b[0]] + b[1..];
    }
  }

  lemma HeadIsIn(ranges: seq<Range>)
    ensures Separated(ranges) && ranges != [] ==> InRanges(ranges[0].from, ranges)
  {
    if Separated(ranges) && ranges != [] {
      assert ranges[0].Holds(ranges[0].from);
    }
  }

  lemma EndIsOutside(ranges: seq<Range>, i: nat)
    requires Separated(ranges) && i < |ranges|
    ensures !InRanges(ranges[i].to, ranges)
  {
    forall j | 0 <= j < |ranges| ensures !ranges[j].Holds(ranges[i].to) {
      assert i < j || i == j || j < i;
    }
  }

  lemma HeadEnds(a: seq<Range>, b: seq<Range>)
    requires a != [] && b != [] && Separated(a) && Separated(b)
    requires a[0].from == b[0].from
    requires forall t :: InRanges(t, a) <==> InRanges(t, b)
    ensures b[0].to <= a[0].to
  {
    EndIsOutside(a, 0);
    assert a[0].to < b[0].to ==> b[0].Holds(a[0].to);
    assert InRanges(a[0].to, b) <==> InRanges(a[0].to, a);
  }

  lemma TailInstants(a: seq<Range>, t: int)
    requires a != [] && Separated(a)
    ensures InRanges(t, a[1..]) <==> InRanges(t, a) && a[0].to <= t
  {
    if InRanges(t, a) && a[0].to <= t {
      var i :| 0 <= i < |a| && a[i].Holds(t);
      assert a[1..][i - 1].Holds(t);
    }
    if InRanges(t, a[1..]) {
      var i :| 0 <= i < |a[1..]| && a[1..][i].Holds(t);
      assert a[i + 1].Holds(t);
    }
  }

  /** The union depends on the covered instants alone: any reordering, repetition
      or re-splitting of the receipts gives the same list. */
  lemma UnionIsCanonical(a: seq<Range>, b: seq<Range>, receipts: seq<Receipt>, others: seq<Receipt>)
    requires IsUnion(a, receipts) && IsUnion(b, others)
    ensures a == b <==> (forall t :: Covered(t, receipts) <==> Covered(t, others))
    ensures multiset(receipts) == multiset(others) ==> a == b
  {
    if multiset(receipts) == multiset(others) {
      CoveredIsOrderFree(receipts, others);
    }
    if forall t :: Covered(t, receipts) <==> Covered(t, others) {
      forall t ensures InRanges(t, a) <==> InRanges(t, b) {
        assert InRanges(t, a) <==> Covered(t, receipts);
        assert InRanges(t, b) <==> Covered(t, others);
      }
      SeparatedIsCanonical(a, b);
    } else {
      var t :| !(Covered(t, receipts) <==> Covered(t, others));
      assert InRanges(t, a) <==> Covered(t, receipts);
      assert InRanges(t, b) <==> Covered(t, others);
    }
  }

  /** A range whose every instant lies in separated ranges lies in one of them. */
  lemma OneRangeHoldsAll(ranges: seq<Range>, start: int, end: int)
    requires Separated(ranges) && start < end
    ensures (exists i :: 0 <= i < |ranges| && ranges[i].from <= start && ranges[i].to >= end)
       <==> (forall t :: start <= t < end ==> InRanges(t, ranges))
  {
    if i :| 0 <= i < |ranges| && ranges[i].from <= start && ranges[i].to >= end {
      forall t | start <= t < end ensures InRanges(t, ranges) {
        assert ranges[i].Holds(t);
      }
    }
    if forall t :: start <= t < end ==> InRanges(t, ranges) {
      assert InRanges(start, ranges);
      var i :| 0 <= i < |ranges| && ranges[i].Holds(start);
      EndIsOutside(ranges, i);
      assert ranges[i].to >= end;
    }
  }

  /** Whether the receipts cover every instant of a non-empty range. */
  method HistoryRangeIsCovered(receipts: seq<Receipt>, start: int, end: int) returns (r: Result<bool>)
    requires AllValid(receipts)
    ensures r.Success? <==> start < end && OneContract(receipts)
    ensures r.Success? ==> (r.value <==> forall t :: start <= t < end ==> Covered(t, receipts))
  {
    if end <= start {
      return Failure("history coverage query range must be non-empty");
    }
    var union := HistoryCoverageUnion(receipts);
    if union.Failure? {
      return Failure(union.code);
    }
    var ranges := union.value;
    OneRangeHoldsAll(ranges, start, end);
    assert (forall t :: start <= t < end ==> InRanges(t, ranges))
      <==> (forall t :: start <= t < end ==> Covered(t, receipts)) by {
      assert forall t :: InRanges(t, ranges) <==> Covered(t, receipts);
    }
    r := Success(exists i :: 0 <= i < |ranges| && ranges[i].from <= start && ranges[i].to >= end);
  }

  /** The instants of `[start, end)` no receipt covers, as maximal ranges. */
  ghost predicate IsUncovered(gaps: seq<Range>, receipts: seq<Receipt>, start: int, end: int) {
    && Separated(gaps)
    && forall t :: InRanges(t, gaps) <==> start <= t < end && !Covered(t, receipts)
  }

  /** The gaps listed are exactly the uncovered instants below the cursor. */
  ghost predicate SweptTo(gaps: seq<Range>, union: seq<Range>, start: int, cursor: int) {
    && Separated(gaps)
    && (gaps != [] ==> gaps[|gaps| - 1].to <= cursor)
    && forall t :: InRanges(t, gaps) <==> start <= t < cursor && !InRanges(t, union)
  }

  /** A hole between the cursor and the next piece is one more gap. */
  lemma SweepOverHole(gaps: seq<Range>, union: seq<Range>, start: int, cursor: int, to: int, i: nat)
    requires Separated(union) && SweptTo(gaps, union, start, cursor)
    requires start <= cursor < to && i <= |union|
    requires gaps != [] ==> gaps[|gaps| - 1].to < cursor
    requires forall k :: 0 <= k < i ==> union[k].to <= cursor
    requires i < |union| ==> to <= union[i].from
    ensures SweptTo(gaps + [Range(cursor, to)], union, start, to)
  {
    var more := gaps + [Range(cursor, to)];
    forall t ensures InRanges(t, more) <==> start <= t < to && !InRanges(t, union) {
      if cursor <= t < to {
        assert more[|gaps|].Holds(t);
        forall k | 0 <= k < |union| ensures !union[k].Holds(t) {
          assert k >= i ==> union[i].from <= union[k].from;
        }
      }
      if InRanges(t, gaps) {
        var k :| 0 <= k < |gaps| && gaps[k].Holds(t);
        assert more[k].Holds(t);
      }
      if InRanges(t, more) {
        var k :| 0 <= k < |more| && more[k].Holds(t);
        assert k < |gaps| ==> gaps[k].Holds(t);
      }
    }
  }

  /** Moving the cursor over covered instants adds no gap. */
  lemma SweepOverPiece(gaps: seq<Range>, union: seq<Range>, start: int, cursor: int, to: int, i: nat)
    requires SweptTo(gaps, union, start, cursor)
    requires start <= cursor <= to && i < |union|
    requires union[i].from <= cursor && to <= union[i].to
    ensures SweptTo(gaps, union, start, to)
  {
    forall t ensures InRanges(t, gaps) <==> start <= t < to && !InRanges(t, union) {
      if cursor <= t < to {
        assert union[i].Holds(t);
      }
    }
  }

  /** Subtracts the receipt union from one range. */
  method HistoryUncoveredRanges(receipts: seq<Receipt>, start: int, end: int) returns (r: Result<seq<Range>>)
    requires AllValid(receipts)
    ensures r.Success? <==> start < end && OneContract(receipts)
    ensures r.Success? ==> IsUncovered(r.value, receipts, start, end)
    ensures r.Success? ==> (r.value == [] <==> forall t :: start <= t < end ==> Covered(t, receipts))
  {
    if end <= start {
      return Failure("history coverage query range must be non-empty");
    }
    var covered := HistoryCoverageUnion(receipts);
    if covered.Failure? {
      return Failure(covered.code);
    }
    var union := covered.value;
    var cursor := start;
    var uncovered: seq<Range> := [];
    var i := 0;
    while i < |union|
      invariant 0 <= i <= |union|
      invariant start <= cursor < end
      invariant SweptTo(uncovered, union, start, cursor)
      invariant uncovered != [] ==> uncovered[|uncovered| - 1].to < cursor
      invariant forall k :: 0 <= k < i ==> union[k].to <= cursor
    {
      var piece := union[i];
      if piece.to <= cursor {
        i := i + 1;
        continue;
      }
      if piece.from >= end {
        break;
      }
      var clippedFrom := if piece.from < start then start else piece.from;
      var clippedTo := if piece.to < end then piece.to else end;
      ghost var reached := cursor;
      if clippedFrom > cursor {
        SweepOverHole(uncovered, union, start, cursor, clippedFrom, i);
        uncovered := uncovered + [Range(cursor, clippedFrom)];
        reached := clippedFrom;
      }
      SweepOverPiece(uncovered, union, start, reached, clippedTo, i);
      cursor := if cursor < clippedTo then clippedTo else cursor;
      if cursor >= end {
        break;
      }
      i := i + 1;
    }
    if cursor < end {
      SweepOverHole(uncovered, union, start, cursor, end, i);
      uncovered := uncovered + [Range(cursor, end)];
    }
    GapsAreComplement(uncovered, union, receipts, start, end);
    r := Success(uncovered);
  }

  lemma GapsAreComplement(gaps: seq<Range>, union: seq<Range>, receipts: seq<Receipt>, start: int, end: int)
    requires SweptTo(gaps, union, start, end) && IsUnion(union, receipts)
    ensures IsUncovered(gaps, receipts, start, end)
    ensures gaps == [] <==> forall t :: start <= t < end ==> Covered(t, receipts)
  {
    forall t ensures InRanges(t, gaps) <==> start <= t < end && !Covered(t, receipts) {
      assert InRanges(t, union) <==> Covered(t, receipts);
    }
    if gaps != [] {
      assert gaps[0].Holds(gaps[0].from);
      assert InRanges(gaps[0].from, gaps);
    } else {
      forall t | start <= t < end ensures Covered(t, receipts) {
        assert !InRanges(t, gaps);
      }
    }
  }

  /** The gaps are the only separated list that complements the receipts. */
  lemma UncoveredIsCanonical(a: seq<Range>, b: seq<Range>, receipts: seq<Receipt>, start: int, end: int)
    requires IsUncovered(a, receipts, start, end) && IsUncovered(b, receipts, start, end)
    ensures a == b
  {
    forall t ensures InRanges(t, a) <==> InRanges(t, b) {
      assert InRanges(t, a) <==> start <= t < end && !Covered(t, receipts);
    }
    SeparatedIsCanonical(a, b);
  }
}
