/** Timestamp discontinuities of a confirmed series inside a requested range. */
module HistoryGaps {
  import opened Wrappers
  import opened Timeframes
  import opened HistoryCoverage

  datatype Stamp = Stamp(ts: int, closed: bool)

  /** A closed bar on a slot boundary of the requested range. */
  predicate Counts(stamp: Stamp, timeframe: Timeframe, from: int, to: int) {
    stamp.closed && timeframe.Aligned(stamp.ts) && from <= stamp.ts < to
  }

  /** The instant lies in the slot of some counted bar. */
  ghost predicate InSlot(t: int, bars: seq<Stamp>, timeframe: Timeframe, from: int, to: int) {
    exists b :: b in bars && Counts(b, timeframe, from, to) && b.ts <= t < b.ts + timeframe.Slot()
  }

  predicate Increasing(times: seq<int>) {
    forall i, j :: 0 <= i < j < |times| ==> times[i] < times[j]
  }

  /** The times of a set of closed bars in increasing order. */
  method SortedTimes(bars: set<Stamp>) returns (ordered: seq<int>)
    requires forall b :: b in bars ==> b.closed
    ensures Increasing(ordered)
    ensures forall t :: t in ordered <==> Stamp(t, true) in bars
  {
    var left := bars;
    ordered := [];
    while left != {}
      invariant left <= bars
      invariant Increasing(ordered)
      invariant forall t :: t in ordered <==> Stamp(t, true) in bars && Stamp(t, true) !in left
      invariant forall i, b :: 0 <= i < |ordered| && b in left ==> ordered[i] < b.ts
      decreases |left|
    {
      var least := Earliest(left);
      ordered := ordered + [least.ts];
      left := left - {least};
    }
  }

  method Earliest(bars: set<Stamp>) returns (least: Stamp)
    requires bars != {} && forall b :: b in bars ==> b.closed
    ensures least in bars && forall b :: b in bars && b != least ==> least.ts < b.ts
  {
    least :| least in bars;
    var left := bars - {least};
    while left != {}
      invariant left <= bars && least in bars
      invariant forall b :: b in bars && b !in left && b != least ==> least.ts < b.ts
      decreases |left|
    {
      var b :| b in left;
      if b.ts < least.ts {
        least := b;
      }
      left := left - {b};
    }
  }

  /** Slots of the first `n` times are exactly what lies in no gap below the cursor. */
  ghost predicate InFirst(t: int, times: seq<int>, n: nat, slot: int)
    requires n <= |times|
  {
    exists k :: 0 <= k < n && times[k] <= t < times[k] + slot
  }

  ghost predicate Swept(gaps: seq<Range>, times: seq<int>, n: nat, slot: int, start: int, cursor: int) {
    && n <= |times|
    && Separated(gaps)
    && (gaps != [] ==> gaps[|gaps| - 1].to <= cursor)
    && forall t :: InRanges(t, gaps) <==>
         start <= t < cursor && !InFirst(t, times, n, slot)
  }

  /** Aligned times are whole slots apart, so no two slots overlap. */
  lemma SlotsApart(timeframe: Timeframe, a: int, b: int)
    requires timeframe.Aligned(a) && timeframe.Aligned(b) && a < b
    ensures a + timeframe.Slot() <= b
  {
    AlignedDistance(timeframe, a, b);
    var u, k := timeframe.Slot(), (b - a) / timeframe.Slot();
    assert b - a == u * k;
    ProductGrows(u, k);
  }

  /** One more bar: the hole before it, if any, becomes a gap. */
  lemma SweepBar(gaps: seq<Range>, times: seq<int>, n: nat, slot: int, start: int, cursor: int)
    requires Swept(gaps, times, n, slot, start, cursor) && n < |times| && slot > 0
    requires start <= cursor <= times[n] && Increasing(times)
    requires forall k :: 0 <= k < n ==> times[k] + slot <= cursor
    requires gaps != [] ==> gaps[|gaps| - 1].to < cursor
    ensures Swept(WithHole(gaps, cursor, times[n]), times, n + 1, slot, start, times[n] + slot)
  {
    var more := WithHole(gaps, cursor, times[n]);
    forall t
      ensures InRanges(t, more) <==> start <= t < times[n] + slot && !InFirst(t, times, n + 1, slot)
    {
      HoleInstants(gaps, cursor, times[n], t);
      assert InRanges(t, gaps) <==> start <= t < cursor && !InFirst(t, times, n, slot);
      assert InFirst(t, times, n + 1, slot) <==> InFirst(t, times, n, slot) || times[n] <= t < times[n] + slot;
    }
  }

  /** The gaps with one more appended if it is not empty. */
  function WithHole(gaps: seq<Range>, from: int, to: int): seq<Range> {
    if from < to then gaps + [Range(from, to)] else gaps
  }

  lemma HoleInstants(gaps: seq<Range>, from: int, to: int, t: int)
    ensures InRanges(t, WithHole(gaps, from, to)) <==> InRanges(t, gaps) || from <= t < to
  {
    var more := WithHole(gaps, from, to);
    if i :| 0 <= i < |gaps| && gaps[i].Holds(t) {
      assert more[i].Holds(t);
    }
    if from <= t < to {
      assert more[|gaps|].Holds(t);
    }
    if i :| 0 <= i < |more| && more[i].Holds(t) {
      assert i < |gaps| ==> gaps[i].Holds(t);
    }
  }

  /** The counted bars, and their times in order. */
  ghost predicate TimesOf(ordered: seq<int>, bars: seq<Stamp>, timeframe: Timeframe, from: int, to: int) {
    && Increasing(ordered)
    && forall t :: t in ordered <==> Stamp(t, true) in bars && Counts(Stamp(t, true), timeframe, from, to)
  }

  /** An instant the requested envelopes include. */
  ghost predicate Wanted(t: int, ordered: seq<int>, includePrefix: bool, includeTail: bool) {
    && (includePrefix || (ordered != [] && ordered[0] <= t))
    && (includeTail || (ordered != [] && t < ordered[|ordered| - 1]))
  }

  ghost predicate InTimes(t: int, ordered: seq<int>, slot: int) {
    InFirst(t, ordered, |ordered|, slot)
  }

  lemma SlotsAreTimes(ordered: seq<int>, bars: seq<Stamp>, timeframe: Timeframe, from: int, to: int, t: int)
    requires TimesOf(ordered, bars, timeframe, from, to)
    ensures InTimes(t, ordered, timeframe.Slot()) <==> InSlot(t, bars, timeframe, from, to)
  {
    if k :| 0 <= k < |ordered| && ordered[k] <= t < ordered[k] + timeframe.Slot() {
      assert ordered[k] in ordered;
      assert Stamp(ordered[k], true) in bars;
    }
    if b :| b in bars && Counts(b, timeframe, from, to) && b.ts <= t < b.ts + timeframe.Slot() {
      assert b == Stamp(b.ts, true) && b.ts in ordered;
    }
  }

  /** Times at least one slot apart, the last slot ending inside the range. */
  ghost predicate Spaced(ordered: seq<int>, slot: int, from: int, to: int) {
    && slot > 0 && ordered != []
    && (forall i, j :: 0 <= i < j < |ordered| ==> ordered[i] + slot <= ordered[j])
    && from <= ordered[0] && ordered[|ordered| - 1] + slot <= to
  }

  lemma AlignedTimesAreSpaced(ordered: seq<int>, timeframe: Timeframe, from: int, to: int)
    requires Increasing(ordered) && ordered != [] && timeframe.Aligned(to)
    requires forall i :: 0 <= i < |ordered| ==> timeframe.Aligned(ordered[i]) && from <= ordered[i] < to
    ensures Spaced(ordered, timeframe.Slot(), from, to)
  {
    forall i, j | 0 <= i < j < |ordered| ensures ordered[i] + timeframe.Slot() <= ordered[j] {
      SlotsApart(timeframe, ordered[i], ordered[j]);
    }
    SlotsApart(timeframe, ordered[|ordered| - 1], to);
  }

  /** The sweep over the ordered times of one range. */
  method SweepTimes(ordered: seq<int>, slot: int, from: int, to: int, includePrefix: bool, includeTail: bool)
    returns (gaps: seq<Range>)
    requires Spaced(ordered, slot, from, to)
    ensures Separated(gaps)
    ensures forall t :: InRanges(t, gaps) <==>
      from <= t < to && !InTimes(t, ordered, slot) && Wanted(t, ordered, includePrefix, includeTail)
  {
    var cursor;
    gaps, cursor := SweepToLast(ordered, slot, from, to, includePrefix);
    EnvelopeInstants(gaps, ordered, slot, from, to, includePrefix, includeTail);
    if includeTail && cursor < to {
      gaps := gaps + [Range(cursor, to)];
    }
  }

  /** The prefix envelope and the loop over the ordered times. */
  method SweepToLast(ordered: seq<int>, slot: int, from: int, to: int, includePrefix: bool)
    returns (gaps: seq<Range>, cursor: int)
    requires Spaced(ordered, slot, from, to)
    ensures cursor == ordered[|ordered| - 1] + slot
    ensures gaps != [] ==> gaps[|gaps| - 1].to < cursor
    ensures Swept(gaps, ordered, |ordered|, slot, if includePrefix then from else ordered[0], cursor)
  {
    ghost var start := if includePrefix then from else ordered[0];
    gaps := if includePrefix && ordered[0] > from then [Range(from, ordered[0])] else [];
    cursor := ordered[0] + slot;
    FirstBar(ordered, slot, start, gaps);
    gaps, cursor := SweepRest(gaps, ordered, slot, start, from, to);
  }

  /** The loop over all but the first time. */
  method SweepRest(prefix: seq<Range>, ordered: seq<int>, slot: int, ghost start: int, ghost from: int, ghost to: int)
    returns (gaps: seq<Range>, cursor: int)
    requires Spaced(ordered, slot, from, to) && start <= ordered[0]
    requires SweptPast(prefix, ordered, 1, slot, start, ordered[0] + slot)
    ensures SweptPast(gaps, ordered, |ordered|, slot, start, cursor)
  {
    gaps, cursor := prefix, ordered[0] + slot;
    for i := 1 to |ordered|
      invariant SweptPast(gaps, ordered, i, slot, start, cursor)
    {
      var timestamp := ordered[i];
      NextBar(gaps, ordered, i, slot, start, cursor, from, to);
      if timestamp > cursor {
        gaps := gaps + [Range(cursor, timestamp)];
      }
      cursor := if cursor < timestamp + slot then timestamp + slot else cursor;
    }
  }

  /** The first `n` bars are swept and the cursor stands at the end of the last one's slot. */
  ghost predicate SweptPast(gaps: seq<Range>, ordered: seq<int>, n: nat, slot: int, start: int, cursor: int) {
    && 0 < n <= |ordered| && cursor == ordered[n - 1] + slot
    && (gaps != [] ==> gaps[|gaps| - 1].to < cursor)
    && Swept(gaps, ordered, n, slot, start, cursor)
  }

  lemma FirstBar(ordered: seq<int>, slot: int, start: int, gaps: seq<Range>)
    requires Increasing(ordered) && ordered != [] && start <= ordered[0] && slot > 0
    requires gaps == WithHole([], start, ordered[0])
    ensures SweptPast(gaps, ordered, 1, slot, start, ordered[0] + slot)
  {
    SweepBar([], ordered, 0, slot, start, start);
  }

  lemma NextBar(gaps: seq<Range>, ordered: seq<int>, n: nat, slot: int, start: int, cursor: int, from: int, to: int)
    requires Spaced(ordered, slot, from, to) && n < |ordered|
    requires start <= ordered[0] && SweptPast(gaps, ordered, n, slot, start, cursor)
    ensures cursor <= ordered[n]
    ensures SweptPast(WithHole(gaps, cursor, ordered[n]), ordered, n + 1, slot, start, ordered[n] + slot)
  {
    SlotsEnd(ordered, n, slot, cursor);
    SweepBar(gaps, ordered, n, slot, start, cursor);
  }

  lemma SlotsEnd(ordered: seq<int>, n: nat, slot: int, cursor: int)
    requires Increasing(ordered) && 0 < n <= |ordered| && cursor == ordered[n - 1] + slot
    ensures forall k :: 0 <= k < n ==> ordered[k] + slot <= cursor
  {
  }

  /** Adding the tail envelope, if asked for, completes the gaps. */
  lemma EnvelopeInstants(gaps: seq<Range>, ordered: seq<int>, slot: int, from: int, to: int,
                         includePrefix: bool, includeTail: bool)
    requires slot > 0 && ordered != [] && Increasing(ordered) && from <= ordered[0]
    requires ordered[|ordered| - 1] + slot <= to
    requires
      var start, cursor := if includePrefix then from else ordered[0], ordered[|ordered| - 1] + slot;
      Swept(gaps, ordered, |ordered|, slot, start, cursor)
    ensures
      var all := if includeTail then WithHole(gaps, ordered[|ordered| - 1] + slot, to) else gaps;
      forall t :: InRanges(t, all) <==>
        from <= t < to && !InTimes(t, ordered, slot) && Wanted(t, ordered, includePrefix, includeTail)
  {
    var last, start := ordered[|ordered| - 1], if includePrefix then from else ordered[0];
    var all := if includeTail then WithHole(gaps, last + slot, to) else gaps;
    forall t ensures InRanges(t, all) <==>
      from <= t < to && !InTimes(t, ordered, slot) && Wanted(t, ordered, includePrefix, includeTail)
    {
      HoleInstants(gaps, last + slot, to, t);
      assert InRanges(t, gaps) <==> start <= t < last + slot && !InTimes(t, ordered, slot);
      assert last <= t < last + slot ==> InTimes(t, ordered, slot);
      assert t >= last + slot ==> !InTimes(t, ordered, slot);
    }
  }

  /** Gap envelopes of a bounded confirmed series: exactly the instants of the
      range in no counted bar's slot, less the part before the first bar or after
      the last one when that envelope is not asked for. Without any bar the whole
      range is one gap as soon as either envelope is asked for. */
  method ConfirmedHistoryGapRanges(bars: seq<Stamp>, timeframe: Timeframe, from: int, to: int,
                                   includePrefix: bool, includeTail: bool)
    returns (r: Result<seq<Range>>, ghost ordered: seq<int>)
    ensures r.Success? <==> from < to && timeframe.Aligned(from) && timeframe.Aligned(to)
    ensures r.Success? ==> TimesOf(ordered, bars, timeframe, from, to) && Separated(r.value)
    ensures r.Success? && ordered != [] ==>
      forall t :: InRanges(t, r.value) <==>
        && from <= t < to && !InSlot(t, bars, timeframe, from, to)
        && Wanted(t, ordered, includePrefix, includeTail)
    ensures r.Success? && ordered == [] ==>
      r.value == if includePrefix || includeTail then [Range(from, to)] else []
  {
    ordered := [];
    if to <= from {
      return Failure("requested history range must be non-empty"), [];
    }
    if !timeframe.Aligned(from) || !timeframe.Aligned(to) {
      return Failure("requested history range must be timeframe-aligned"), [];
    }
    var counted := set b | b in bars && Counts(b, timeframe, from, to);
    var times := SortedTimes(counted);
    ordered := times;
    assert TimesOf(times, bars, timeframe, from, to);
    if times == [] {
      return Success(if includePrefix || includeTail then [Range(from, to)] else []), ordered;
    }
    assert forall i :: 0 <= i < |times| ==> times[i] in times;
    AlignedTimesAreSpaced(times, timeframe, from, to);
    var gaps := SweepTimes(times, timeframe.Slot(), from, to, includePrefix, includeTail);
    forall t ensures InTimes(t, times, timeframe.Slot()) <==> InSlot(t, bars, timeframe, from, to) {
      SlotsAreTimes(times, bars, timeframe, from, to, t);
    }
    r := Success(gaps);
  }
}
