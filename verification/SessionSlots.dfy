/** Expected bar slots of a range, page by page, and how far a schedule is verified. */
module SessionSlots {
  import opened Wrappers
  import opened Sorting
  import opened Timeframes

  // ----- rows of a stored schedule -----------------------------------------

  datatype Status = Open | Closed | OtherStatus

  /** A stored session interval; unreadable timestamps are absent. */
  datatype Row = Row(status: Status, opens: Option<int>, closes: Option<int>, sourceStart: Option<int>, sourceEnd: Option<int>) {
    /** A session inside the horizon its provider snapshot vouches for. */
    predicate Sound() {
      && !status.OtherStatus?
      && opens.Some? && closes.Some? && opens.value < closes.value
      && sourceStart.Some? && sourceEnd.Some?
      && sourceStart.value <= opens.value && closes.value <= sourceEnd.value
    }
  }

  datatype Interval = Interval(from: int, to: int)

  function Authorities(rows: seq<Row>): seq<Interval> {
    if rows == [] then []
    else
      var front, last := Authorities(rows[..|rows| - 1]), rows[|rows| - 1];
      if last.Sound() then front + [Interval(last.sourceStart.value, last.sourceEnd.value)] else front
  }

  function Sessions(rows: seq<Row>): seq<Interval> {
    if rows == [] then []
    else
      var front, last := Sessions(rows[..|rows| - 1]), rows[|rows| - 1];
      if last.Sound() && last.status.Open? then front + [Interval(last.opens.value, last.closes.value)] else front
  }

  const INTERVAL_KEY: Interval -> Key := (i: Interval) => Key(i.from, i.to)

  ghost predicate Vouched(t: int, intervals: seq<Interval>) {
    exists i :: i in intervals && i.from <= t < i.to
  }

  /** Every instant of a session counted is vouched for by its own snapshot. */
  lemma {:induction false} SessionsAreVouched(rows: seq<Row>, session: Interval, t: int)
    requires session in Sessions(rows) && session.from <= t < session.to
    ensures Vouched(t, Authorities(rows))
  {
    var n := |rows| - 1;
    var front := Authorities(rows[..n]);
    if session in Sessions(rows[..n]) {
      SessionsAreVouched(rows[..n], session, t);
      var i :| i in front && i.from <= t < i.to;
      assert i in Authorities(rows);
    } else {
      var own := Interval(rows[n].sourceStart.value, rows[n].sourceEnd.value);
      assert own in Authorities(rows) && own.from <= t < own.to;
    }
  }

  // ----- the verified prefix -----------------------------------------------

  /** Everything from `start` to `reach` is vouched for, and `reach` is not unless
      the sweep got to the end. */
  ghost predicate IsReach(reach: int, intervals: seq<Interval>, start: int, end: int) {
    && start <= reach
    && (forall t :: start <= t < reach ==> Vouched(t, intervals))
    && (reach < end ==> !Vouched(reach, intervals))
  }

  /** Pushes the verified prefix as far as the intervals allow. */
  method Sweep(intervals: seq<Interval>, start: int, end: int) returns (reach: int)
    requires start < end
    ensures IsReach(reach, intervals, start, end)
  {
    var sorted := Sort(intervals, INTERVAL_KEY);
    SortKeeps(intervals, INTERVAL_KEY);
    forall i ensures i in sorted <==> i in intervals {
      SameMembers(intervals, INTERVAL_KEY, i);
    }
    reach := start;
    var k := 0;
    while k < |sorted| && reach < end && sorted[k].from <= reach
      invariant 0 <= k <= |sorted| && start <= reach
      invariant forall t :: start <= t < reach ==> Vouched(t, intervals)
      invariant forall j :: 0 <= j < k ==> sorted[j].to <= reach
    {
      if sorted[k].to > reach {
        assert sorted[k] in intervals;
        reach := sorted[k].to;
      }
      k := k + 1;
    }
    if reach < end {
      forall i | i in intervals ensures !(i.from <= reach < i.to) {
        var j :| 0 <= j < |sorted| && sorted[j] == i;
        if k <= j {
          assert KeyLeq(INTERVAL_KEY(sorted[k]), INTERVAL_KEY(sorted[j]));
        }
      }
    }
  }

  datatype Verification = Verification(verified: bool, until: Option<int>)

  /** The stored rows can be relied on at all. */
  predicate Reliable(rows: seq<Row>, truncated: bool) {
    rows != [] && !truncated && forall r :: r in rows ==> r.Sound()
  }

  lemma {:induction false} AllSound(rows: seq<Row>)
    ensures forall i :: i in Authorities(rows) ==>
      exists r :: r in rows && r.Sound() && i == Interval(r.sourceStart.value, r.sourceEnd.value)
  {
    if rows != [] {
      AllSound(rows[..|rows| - 1]);
      assert forall r :: r in rows[..|rows| - 1] ==> r in rows;
      assert rows[|rows| - 1] in rows;
    }
  }

  /** A schedule is verified for a range exactly when its rows are all sound and the
      snapshots behind them vouch for every instant of the range; the verified
      prefix is the longest one they vouch for. */
  method Verify(rows: seq<Row>, truncated: bool, start: int, end: int) returns (v: Verification)
    requires start < end
    ensures v.verified <==> Reliable(rows, truncated) && forall t :: start <= t < end ==> Vouched(t, Authorities(rows))
    ensures v.until.Some? <==> Reliable(rows, truncated) && Vouched(start, Authorities(rows))
    ensures v.until.Some? ==>
      && start < v.until.value <= end
      && (forall t :: start <= t < v.until.value ==> Vouched(t, Authorities(rows)))
      && (v.until.value < end ==> !Vouched(v.until.value, Authorities(rows)))
    ensures v.verified ==> v.until == Some(end)
  {
    var reliable, authority := CheckRows(rows);
    if rows == [] || truncated || !reliable {
      return Verification(false, None);
    }
    var reach := Sweep(authority, start, end);
    assert reach < end ==> !Vouched(reach, authority);
    v := Verification(reach >= end, if reach > start then Some(if reach < end then reach else end) else None);
  }

  method CheckRows(rows: seq<Row>) returns (sound: bool, authority: seq<Interval>)
    ensures sound <==> forall r :: r in rows ==> r.Sound()
    ensures authority == Authorities(rows)
  {
    sound, authority := true, [];
    for i := 0 to |rows|
      invariant sound <==> forall k :: 0 <= k < i ==> rows[k].Sound()
      invariant authority == Authorities(rows[..i])
    {
      assert rows[..i + 1][..i] == rows[..i];
      if rows[i].Sound() {
        authority := authority + [Interval(rows[i].sourceStart.value, rows[i].sourceEnd.value)];
      } else {
        sound := false;
      }
    }
    assert rows[..|rows|] == rows;
  }

  // ----- pages of slots ----------------------------------------------------

  predicate Increasing(s: seq<int>) {
    forall i, j :: 0 <= i < j < |s| ==> s[i] < s[j]
  }

  /** At most `limit` slots, and the next one if there are more. */
  datatype Page = Page(slots: seq<int>, cursor: Option<int>)

  function PageOf(slots: seq<int>, limit: nat): Page {
    if |slots| > limit then Page(slots[..limit], Some(slots[limit])) else Page(slots, None)
  }

  // ----- continuous sessions -----------------------------------------------

  function CeilTo(t: int, step: int): int
    requires step > 0
  {
    if t % step == 0 then t else (t / step + 1) * step
  }

  /** Consecutive whole slots that close by `end`. */
  function SlotsFrom(s: int, end: int, step: int): seq<int>
    requires step > 0
    decreases end - s
  {
    if s + step > end then [] else [s] + SlotsFrom(s + step, end, step)
  }

  lemma CeilToIs(t: int, step: int)
    requires step > 0
    ensures t <= CeilTo(t, step) < t + step && CeilTo(t, step) % step == 0
  {
    var q := t / step;
    assert t == step * q + t % step;
    assert (q + 1) * step == step * (q + 1);
    Multiples(step, q + 1);
  }

  lemma NextMultiple(a: int, b: int, step: int)
    requires step > 0 && a % step == 0 && a < b
    ensures (a + step) % step == 0
    ensures b % step == 0 ==> a + step <= b
  {
    var p, q := a / step, b / step;
    assert a == step * p;
    assert a + step == step * (p + 1);
    Multiples(step, p + 1);
    if b % step == 0 {
      assert step * q - step * p == step * (q - p);
      ProductGrows(step, q - p);
    }
  }

  lemma {:induction false} SlotsFromIncrease(s: int, end: int, step: int)
    requires step > 0
    ensures Increasing(SlotsFrom(s, end, step))
    ensures forall i :: 0 <= i < |SlotsFrom(s, end, step)| ==> SlotsFrom(s, end, step)[i] >= s
    decreases end - s
  {
    if s + step <= end {
      SlotsFromIncrease(s + step, end, step);
    }
  }

  /** A whole slot, not before `s`, closed by `end`. */
  predicate IsSlot(x: int, s: int, end: int, step: int)
    requires step > 0
  {
    x % step == 0 && s <= x && x + step <= end
  }

  lemma SlotStep(x: int, s: int, end: int, step: int)
    requires step > 0 && s % step == 0 && s + step <= end
    ensures IsSlot(x, s, end, step) <==> x == s || IsSlot(x, s + step, end, step)
  {
    if x % step == 0 && s < x {
      NextMultiple(s, x, step);
    }
  }

  lemma ListStep(x: int, s: int, end: int, step: int)
    requires step > 0 && s + step <= end
    ensures x in SlotsFrom(s, end, step) <==> x == s || x in SlotsFrom(s + step, end, step)
  {
  }

  /** The slots listed are exactly those. */
  lemma {:induction false} SlotsFromIs(s: int, end: int, step: int, x: int)
    requires step > 0 && s % step == 0
    ensures x in SlotsFrom(s, end, step) <==> IsSlot(x, s, end, step)
    decreases end - s
  {
    if s + step <= end {
      NextMultiple(s, s + step, step);
      SlotsFromIs(s + step, end, step, x);
      ListStep(x, s, end, step);
      SlotStep(x, s, end, step);
    }
  }

  function SlotCount(s: int, end: int, step: int): nat
    requires step > 0
  {
    if end <= s then 0 else (end - s) / step
  }

  lemma CountStep(s: int, end: int, step: int)
    requires step > 0 && s + step <= end
    ensures SlotCount(s, end, step) == 1 + SlotCount(s + step, end, step)
  {
    var q, r := (end - s) / step, (end - s) % step;
    assert end - s == step * q + r;
    assert end - s - step == step * (q - 1) + r;
    DivisionIsUnique(step, q - 1, r);
  }

  lemma ShiftOne(s: int, step: int, k: nat)
    ensures s + step + (k - 1) * step == s + k * step
  {
  }

  /** The listing in closed form. */
  lemma {:induction false} SlotsFromAt(s: int, end: int, step: int, k: nat)
    requires step > 0
    ensures |SlotsFrom(s, end, step)| == SlotCount(s, end, step)
    ensures k < SlotCount(s, end, step) ==> SlotsFrom(s, end, step)[k] == s + k * step
    decreases end - s
  {
    if s + step <= end {
      CountStep(s, end, step);
      SlotsFromAt(s + step, end, step, if k == 0 then 0 else k - 1);
      ShiftOne(s, step, k);
    } else if s < end {
      DivisionIsUnique(step, 0, end - s);
    }
  }

  lemma {:induction false} SlotsFromDrop(s: int, end: int, step: int, n: nat)
    requires step > 0 && n < |SlotsFrom(s, end, step)|
    ensures SlotsFrom(SlotsFrom(s, end, step)[n], end, step) == SlotsFrom(s, end, step)[n..]
    decreases n
  {
    if n > 0 {
      SlotsFromDrop(s + step, end, step, n - 1);
    }
  }

  function ContinuousSlots(start: int, end: int, step: int): seq<int>
    requires step > 0
  {
    SlotsFrom(CeilTo(start, step), end, step)
  }

  /** A page of a continuous session, computed without listing what does not fit. */
  method ContinuousPage(start: int, end: int, step: int, limit: int) returns (page: Page)
    requires step > 0
    ensures page == PageOf(ContinuousSlots(start, end, step), if limit > 1 then limit else 1)
  {
    var bound := if limit > 1 then limit else 1;
    var first := CeilTo(start, step);
    var total := SlotCount(first, end, step);
    var returned := if total < bound then total else bound;
    forall k: nat ensures |SlotsFrom(first, end, step)| == total
      && (k < total ==> SlotsFrom(first, end, step)[k] == first + k * step)
    {
      SlotsFromAt(first, end, step, k);
    }
    var slots := seq(returned, k requires 0 <= k < returned => first + k * step);
    assert slots == SlotsFrom(first, end, step)[..returned];
    page := Page(slots, if total > returned then Some(first + returned * step) else None);
  }

  /** Reading on from each page's cursor until there is none. */
  function ContinuousPages(start: int, end: int, step: int, limit: nat): seq<int>
    requires step > 0 && limit >= 1
    decreases |ContinuousSlots(start, end, step)|
  {
    var all := ContinuousSlots(start, end, step);
    var page := PageOf(all, limit);
    if page.cursor.None? then page.slots
    else
      CursorDrops(start, end, step, limit);
      page.slots + ContinuousPages(page.cursor.value, end, step, limit)
  }

  lemma CursorDrops(start: int, end: int, step: int, n: nat)
    requires step > 0 && n < |ContinuousSlots(start, end, step)|
    ensures
      var all := ContinuousSlots(start, end, step);
      ContinuousSlots(all[n], end, step) == all[n..]
  {
    var first := CeilTo(start, step);
    var all := SlotsFrom(first, end, step);
    CeilToIs(start, step);
    SlotsFromIs(first, end, step, all[n]);
    assert all[n] in all;
    SlotsFromDrop(first, end, step, n);
  }

  /** The pages together are every aligned slot of the range, each once, in order,
      whatever the page size. */
  lemma {:induction false} PagesAreEverything(start: int, end: int, step: int, limit: nat, x: int)
    requires step > 0 && limit >= 1
    ensures ContinuousPages(start, end, step, limit) == ContinuousSlots(start, end, step)
    ensures x in ContinuousSlots(start, end, step) <==> IsSlot(x, start, end, step)
    ensures Increasing(ContinuousSlots(start, end, step))
    decreases |ContinuousSlots(start, end, step)|
  {
    var all := ContinuousSlots(start, end, step);
    CeilToIs(start, step);
    SlotsFromIs(CeilTo(start, step), end, step, x);
    SlotsFromIncrease(CeilTo(start, step), end, step);
    if start <= x < CeilTo(start, step) && x % step == 0 {
      NextMultiple(x, CeilTo(start, step), step);
    }
    if |all| > limit {
      CursorDrops(start, end, step, limit);
      PagesAreEverything(all[limit], end, step, limit, x);
      assert all == all[..limit] + all[limit..];
    }
  }
}
