/** Pages of the expected slots of a scheduled instrument: its sessions' bar
    buckets, visited session by session and cut into pages. */
module SessionPages {
  import opened Wrappers
  import opened Sorting
  import opened Timeframes
  import opened SessionSlots

  // ----- bar buckets of one session ----------------------------------------

  /** A bar bucket, or something untyped from a provider's own grid. */
  datatype Bucket = Bucket(startsAt: int, closesAt: int) | Untyped

  type Grid = Interval -> seq<Bucket>

  /** Bars on wall-clock boundaries, or with the opening partial bar stamped at the
      session open. */
  datatype Stamping = WallClock | SessionOpen

  /** Whole seconds since the epoch, truncated towards zero. */
  function EpochSeconds(t: int): int {
    if t >= 0 then t / MICROS_PER_SECOND else -(-t / MICROS_PER_SECOND)
  }

  function BucketStart(t: int, timeframe: Timeframe): int {
    (EpochSeconds(t) - EpochSeconds(t) % timeframe.Seconds()) * MICROS_PER_SECOND
  }

  /** The bucket of an instant of a session, if it has one. */
  function BucketAt(stamping: Stamping, timeframe: Timeframe, t: int, session: Interval): (r: Option<Bucket>)
    ensures r.Some? ==> r.value.Bucket? && r.value.startsAt < r.value.closesAt <= session.to
  {
    if t < session.from || t >= session.to then None
    else
      var wall := BucketStart(t, timeframe);
      var close := if wall + timeframe.Slot() < session.to then wall + timeframe.Slot() else session.to;
      var start := if stamping.SessionOpen? && wall < session.from then session.from else wall;
      if close <= wall || close <= start then None else Some(Bucket(start, close))
  }

  function BucketsFrom(stamping: Stamping, timeframe: Timeframe, cursor: int, session: Interval): seq<Bucket>
    decreases session.to - cursor
  {
    if cursor >= session.to then []
    else
      var bucket := BucketAt(stamping, timeframe, cursor, session);
      if bucket.None? || bucket.value.closesAt <= cursor then []
      else [bucket.value] + BucketsFrom(stamping, timeframe, bucket.value.closesAt, session)
  }

  lemma BucketStep(stamping: Stamping, timeframe: Timeframe, cursor: int, session: Interval, bucket: Option<Bucket>)
    requires cursor < session.to && bucket == BucketAt(stamping, timeframe, cursor, session)
    ensures BucketsFrom(stamping, timeframe, cursor, session) ==
      if bucket.None? || bucket.value.closesAt <= cursor then []
      else [bucket.value] + BucketsFrom(stamping, timeframe, bucket.value.closesAt, session)
  {
  }

  function SessionGrid(stamping: Stamping, timeframe: Timeframe): Grid {
    (session: Interval) => BucketsFrom(stamping, timeframe, session.from, session)
  }

  /** Walks a session bucket by bucket. */
  method SessionBuckets(stamping: Stamping, timeframe: Timeframe, session: Interval) returns (buckets: seq<Bucket>)
    ensures buckets == SessionGrid(stamping, timeframe)(session)
  {
    buckets := [];
    var cursor := session.from;
    ghost var rest := BucketsFrom(stamping, timeframe, cursor, session);
    ghost var all := rest;
    while cursor < session.to
      invariant rest == BucketsFrom(stamping, timeframe, cursor, session) && all == buckets + rest
      decreases session.to - cursor
    {
      var bucket := BucketAt(stamping, timeframe, cursor, session);
      BucketStep(stamping, timeframe, cursor, session, bucket);
      if bucket.None? || bucket.value.closesAt <= cursor || bucket.value.closesAt <= bucket.value.startsAt {
        break;
      }
      buckets := buckets + [bucket.value];
      cursor := bucket.value.closesAt;
      rest := BucketsFrom(stamping, timeframe, cursor, session);
    }
  }

  // ----- what the buckets of a session are ---------------------------------

  lemma BucketStartIsMultiple(t: int, timeframe: Timeframe)
    requires 0 <= t
    ensures BucketStart(t, timeframe) == t - t % timeframe.Slot()
  {
    var second, seconds, slot := MICROS_PER_SECOND, timeframe.Seconds(), timeframe.Slot();
    var s, r := t / second, t % second;
    var q, rest := s / seconds, s % seconds;
    assert slot == second * seconds;
    assert t == slot * q + (second * rest + r);
    DivisionIsUnique(slot, q, second * rest + r);
  }

  /** A bucket that starts on a boundary, or where the session does, and ends on the
      next boundary, or where the session does. */
  predicate Fits(b: Bucket, stamping: Stamping, timeframe: Timeframe, session: Interval) {
    && b.Bucket?
    && (b.startsAt % timeframe.Slot() == 0 || (stamping.SessionOpen? && b.startsAt == session.from))
    && b.closesAt == (if b.startsAt - b.startsAt % timeframe.Slot() + timeframe.Slot() < session.to
                      then b.startsAt - b.startsAt % timeframe.Slot() + timeframe.Slot() else session.to)
  }

  /** One after the other, without a hole. */
  predicate Chained(buckets: seq<Bucket>) {
    forall i :: 0 < i < |buckets| ==> Joins(buckets, i)
  }

  predicate Joins(buckets: seq<Bucket>, i: int)
    requires 0 < i < |buckets|
  {
    buckets[i].Bucket? && buckets[i - 1].Bucket? && buckets[i].startsAt == buckets[i - 1].closesAt
  }

  lemma BucketAtFits(stamping: Stamping, timeframe: Timeframe, t: int, session: Interval)
    requires 0 <= session.from <= t < session.to
    ensures
      var bucket := BucketAt(stamping, timeframe, t, session);
      && bucket.Some? && Fits(bucket.value, stamping, timeframe, session) && t < bucket.value.closesAt
      && (bucket.value.closesAt < session.to ==> bucket.value.closesAt % timeframe.Slot() == 0)
      && bucket.value.startsAt ==
           (if stamping.SessionOpen? && t - t % timeframe.Slot() < session.from then session.from else t - t % timeframe.Slot())
  {
    var slot := timeframe.Slot();
    BucketStartIsMultiple(t, timeframe);
    BoundaryBefore(t, session.from, slot);
  }

  /** The boundary at or before an instant, and the next one. */
  lemma BoundaryBefore(t: int, opening: int, slot: int)
    requires 0 < slot && opening <= t
    ensures
      var wall := t - t % slot;
      && wall % slot == 0 && (wall + slot) % slot == 0 && wall <= t < wall + slot
      && (wall < opening ==> opening - opening % slot == wall)
  {
    var q := t / slot;
    assert t == slot * q + t % slot;
    Multiples(slot, q);
    Multiples(slot, q + 1);
    assert slot * (q + 1) == slot * q + slot;
    if slot * q < opening {
      DivisionIsUnique(slot, q, opening - slot * q);
    }
  }

  /** The buckets of a session cover it from its opening to its close without a hole:
      on the boundaries of the timeframe, the last one cut at the close, the first
      reaching back to its boundary or cut at the opening, as the stamping says. */
  lemma {:induction false} BucketsTile(stamping: Stamping, timeframe: Timeframe, cursor: int, session: Interval)
    requires 0 <= session.from <= cursor < session.to
    requires cursor == session.from || cursor % timeframe.Slot() == 0
    ensures
      var buckets := BucketsFrom(stamping, timeframe, cursor, session);
      && buckets != [] && buckets[|buckets| - 1].Bucket? && buckets[|buckets| - 1].closesAt == session.to
      && (forall i :: 0 <= i < |buckets| ==> Fits(buckets[i], stamping, timeframe, session))
      && Chained(buckets)
      && buckets[0].startsAt ==
           (if stamping.SessionOpen? && cursor - cursor % timeframe.Slot() < session.from then session.from
            else cursor - cursor % timeframe.Slot())
    decreases session.to - cursor
  {
    var bucket := BucketAt(stamping, timeframe, cursor, session);
    BucketAtFits(stamping, timeframe, cursor, session);
    BucketStep(stamping, timeframe, cursor, session, bucket);
    var next := bucket.value.closesAt;
    if next < session.to {
      BucketsTile(stamping, timeframe, next, session);
      var rest := BucketsFrom(stamping, timeframe, next, session);
      ChainedCons(bucket.value, rest);
    } else {
      assert BucketsFrom(stamping, timeframe, next, session) == [];
    }
  }

  lemma ChainedCons(first: Bucket, rest: seq<Bucket>)
    requires Chained(rest) && rest != [] && first.Bucket? && rest[0].Bucket? && rest[0].startsAt == first.closesAt
    ensures Chained([first] + rest)
  {
    var all := [first] + rest;
    forall i | 0 < i < |all| ensures Joins(all, i) {
      assert all[i] == rest[i - 1];
      assert i > 1 ==> all[i - 1] == rest[i - 2] && Joins(rest, i - 1);
    }
  }

  // ----- visiting the sessions ---------------------------------------------

  predicate Usable(b: Bucket) {
    b.Bucket? && b.startsAt < b.closesAt
  }

  /** The slots of one session inside the range, up to its first unusable bucket. */
  function Candidates(buckets: seq<Bucket>, start: int, end: int): seq<int> {
    if buckets == [] || !Usable(buckets[0]) then []
    else
      var rest := Candidates(buckets[1..], start, end);
      if start <= buckets[0].startsAt && buckets[0].closesAt <= end then [buckets[0].startsAt] + rest else rest
  }

  /** The slots of all sessions, in the order they are visited. */
  function Stream(sessions: seq<Interval>, grid: Grid, start: int, end: int): seq<int> {
    if sessions == [] then [] else Candidates(grid(sessions[0]), start, end) + Stream(sessions[1..], grid, start, end)
  }

  /** The slots of a session are the openings of the buckets up to its first unusable
      one that lie in the range from opening to close. */
  lemma {:induction false} CandidatesAre(buckets: seq<Bucket>, start: int, end: int, t: int)
    ensures t in Candidates(buckets, start, end) <==> exists i :: Opens(buckets, i, t) && start <= t && buckets[i].closesAt <= end
  {
    if buckets != [] && Usable(buckets[0]) {
      var rest := buckets[1..];
      CandidatesAre(rest, start, end, t);
      forall i ensures Opens(buckets, i, t) <==> (i == 0 && buckets[0].startsAt == t) || Opens(rest, i - 1, t) {
        OpensStep(buckets, i, t);
      }
      if i :| Opens(rest, i, t) && start <= t && rest[i].closesAt <= end {
        assert Opens(buckets, i + 1, t);
      }
    }
  }

  ghost predicate Opens(buckets: seq<Bucket>, i: int, t: int) {
    0 <= i < |buckets| && (forall k :: 0 <= k <= i ==> Usable(buckets[k])) && buckets[i].startsAt == t
  }

  lemma OpensStep(buckets: seq<Bucket>, i: int, t: int)
    requires buckets != [] && Usable(buckets[0])
    ensures Opens(buckets, i, t) <==> (i == 0 && buckets[0].startsAt == t) || Opens(buckets[1..], i - 1, t)
  {
    var rest := buckets[1..];
    if Opens(rest, i - 1, t) {
      forall k | 0 <= k <= i ensures Usable(buckets[k]) {
        assert k > 0 ==> rest[k - 1] == buckets[k];
      }
    }
    if Opens(buckets, i, t) && i > 0 {
      forall k | 0 <= k <= i - 1 ensures Usable(rest[k]) {
        assert rest[k] == buckets[k + 1];
      }
    }
  }

  /** The slots of all sessions are those of each. */
  lemma {:induction false} StreamHas(sessions: seq<Interval>, grid: Grid, start: int, end: int, t: int)
    ensures t in Stream(sessions, grid, start, end) <==> exists s :: s in sessions && t in Candidates(grid(s), start, end)
  {
    if sessions != [] {
      StreamHas(sessions[1..], grid, start, end, t);
      assert sessions == [sessions[0]] + sessions[1..];
    }
  }

  /** Adds distinct slots until there are more than `limit`. */
  function Collect(found: seq<int>, stream: seq<int>, limit: nat): seq<int>
    decreases |stream|
  {
    if |found| > limit || stream == [] then found
    else Collect(if stream[0] in found then found else found + [stream[0]], stream[1..], limit)
  }

  const SLOT_KEY: int -> Key := (t: int) => Key(t, 0)

  /** The page cut from what was collected of a stream. */
  function StreamPage(stream: seq<int>, limit: nat): Page {
    PageOf(Sort(Collect([], stream, limit), SLOT_KEY), limit)
  }

  function SessionPage(sessions: seq<Interval>, grid: Grid, start: int, end: int, limit: nat): Page {
    StreamPage(Stream(Sort(sessions, INTERVAL_KEY), grid, start, end), limit)
  }

  lemma CollectFull(found: seq<int>, stream: seq<int>, limit: nat)
    requires |found| > limit
    ensures Collect(found, stream, limit) == found
  {
  }

  lemma CollectOne(found: seq<int>, slot: int, stream: seq<int>, limit: nat)
    requires |found| <= limit
    ensures Collect(found, [slot] + stream, limit) == Collect(if slot in found then found else found + [slot], stream, limit)
  {
    assert ([slot] + stream)[1..] == stream;
  }

  /** One session's buckets, in front of whatever follows. */
  method CollectSession(found: seq<int>, buckets: seq<Bucket>, start: int, end: int, limit: nat, ghost after: seq<int>)
    returns (more: seq<int>)
    requires |found| <= limit
    ensures Collect(found, Candidates(buckets, start, end) + after, limit) == Collect(more, after, limit)
  {
    more := found;
    ghost var rest := Candidates(buckets, start, end);
    var j := 0;
    assert buckets[0..] == buckets;
    while j < |buckets| && |more| <= limit
      invariant 0 <= j <= |buckets| && rest == Candidates(buckets[j..], start, end)
      invariant Collect(found, Candidates(buckets, start, end) + after, limit) == Collect(more, rest + after, limit)
      decreases |buckets| - j
    {
      var bucket := buckets[j];
      assert buckets[j..][1..] == buckets[j + 1..];
      if !Usable(bucket) {
        assert rest + after == after;
        return;
      }
      if start <= bucket.startsAt && bucket.closesAt <= end {
        ghost var tail := Candidates(buckets[j + 1..], start, end);
        assert rest + after == [bucket.startsAt] + (tail + after);
        CollectOne(more, bucket.startsAt, tail + after, limit);
        if bucket.startsAt !in more {
          more := more + [bucket.startsAt];
        }
      }
      rest := Candidates(buckets[j + 1..], start, end);
      j := j + 1;
    }
    if |more| > limit {
      CollectFull(more, rest + after, limit);
      CollectFull(more, after, limit);
    } else {
      assert rest + after == after;
    }
  }

  /** The sessions' slots, until there are more than the bound. */
  method CollectSessions(sorted: seq<Interval>, grid: Grid, start: int, end: int, bound: nat) returns (found: seq<int>)
    ensures found == Collect([], Stream(sorted, grid, start, end), bound)
  {
    found := [];
    ghost var rest := Stream(sorted, grid, start, end);
    var i := 0;
    assert sorted[0..] == sorted;
    while i < |sorted| && |found| <= bound
      invariant 0 <= i <= |sorted| && rest == Stream(sorted[i..], grid, start, end)
      invariant Collect([], Stream(sorted, grid, start, end), bound) == Collect(found, rest, bound)
    {
      assert sorted[i..][1..] == sorted[i + 1..];
      rest := Stream(sorted[i + 1..], grid, start, end);
      found := CollectSession(found, grid(sorted[i]), start, end, bound, rest);
      i := i + 1;
    }
    if |found| > bound {
      CollectFull(found, rest, bound);
    }
  }

  /** The page of a scheduled session type. */
  method SessionSlotPage(sessions: seq<Interval>, grid: Grid, start: int, end: int, limit: int) returns (page: Page)
    ensures page == SessionPage(sessions, grid, start, end, if limit > 1 then limit else 1)
  {
    var bound: nat := if limit > 1 then limit else 1;
    var found := CollectSessions(Sort(sessions, INTERVAL_KEY), grid, start, end, bound);
    var ordered := Sort(found, SLOT_KEY);
    page := if |ordered| > bound then Page(ordered[..bound], Some(ordered[bound])) else Page(ordered, None);
  }

  // ----- the whole answer for a range --------------------------------------

  const ROW_LIMIT := 2048

  datatype Coverage = Coverage(verified: bool, slots: seq<int>, truncated: bool, cursor: Option<int>, until: Option<int>)

  /** The rows looked at: a list longer than the limit is cut off. */
  function Kept(raw: seq<Row>): seq<Row> {
    if |raw| > ROW_LIMIT then raw[..ROW_LIMIT] else raw
  }

  /** Where a reader goes on when only the row list was cut off. */
  function CutCursor(raw: seq<Row>, end: int): Option<int> {
    if |raw| <= ROW_LIMIT || raw[ROW_LIMIT - 1].closes.None? then None
    else Some(if raw[ROW_LIMIT - 1].closes.value < end then raw[ROW_LIMIT - 1].closes.value else end)
  }

  const UNKNOWN := Coverage(false, [], false, None, None)

  /** Page, cursor and verification of one range. A cut-off row list is never
      verified, and always reported as truncated; with a cut-off or unsound list
      nothing is a verified prefix, else it reaches as far as the horizons vouch.
      Nothing is known without a contract, a time zone and a store. */
  method SlotCoverage(known: bool, raw: seq<Row>, grid: Grid, start: int, end: int, limit: int) returns (c: Coverage)
    ensures !known ==> c == UNKNOWN
    ensures known && start >= end ==> c == Coverage(true, [], false, None, Some(end))
    ensures known && start < end ==>
      var page := SessionPage(Sessions(Kept(raw)), grid, start, end, if limit > 1 then limit else 1);
      && c.slots == page.slots
      && c.cursor == (if page.cursor.Some? then page.cursor else CutCursor(raw, end))
      && (c.truncated <==> page.cursor.Some? || |raw| > 2048)
    ensures known && start < end ==>
      && (c.verified <==> Reliable(raw, |raw| > 2048) && forall t :: start <= t < end ==> Vouched(t, Authorities(raw)))
      && (c.until.Some? <==> Reliable(raw, |raw| > 2048) && Vouched(start, Authorities(raw)))
      && (c.until.Some? ==>
            && start < c.until.value <= end
            && (forall t :: start <= t < c.until.value ==> Vouched(t, Authorities(raw)))
            && (c.until.value < end ==> !Vouched(c.until.value, Authorities(raw))))
  {
    if !known {
      return UNKNOWN;
    }
    if start >= end {
      return Coverage(true, [], false, None, Some(end));
    }
    var cut := |raw| > ROW_LIMIT;
    var rows := if cut then raw[..ROW_LIMIT] else raw;
    var v := Verify(rows, cut, start, end);
    var page := SessionSlotPage(Sessions(rows), grid, start, end, limit);
    var cursor := page.cursor;
    if cut && cursor.None? && rows[ROW_LIMIT - 1].closes.Some? {
      var close := rows[ROW_LIMIT - 1].closes.value;
      cursor := Some(if close < end then close else end);
    }
    c := Coverage(v.verified, page.slots, page.cursor.Some? || cut, cursor, v.until);
  }

  // ----- what a page holds -------------------------------------------------

  predicate Distinct(s: seq<int>) {
    forall i, j :: 0 <= i < j < |s| ==> s[i] != s[j]
  }

  lemma {:induction false} CollectKeeps(found: seq<int>, stream: seq<int>, limit: nat)
    requires Distinct(found) && |found| <= limit + 1
    ensures
      var all := Collect(found, stream, limit);
      && Distinct(all) && |found| <= |all| <= limit + 1
      && (forall t :: t in found ==> t in all)
      && (forall t :: t in all ==> t in found || t in stream)
      && (|all| <= limit ==> forall t :: t in stream ==> t in all)
    decreases |stream|
  {
    if |found| <= limit && stream != [] {
      var next := if stream[0] in found then found else found + [stream[0]];
      CollectKeeps(next, stream[1..], limit);
      assert forall t :: t in stream <==> t == stream[0] || t in stream[1..];
    }
  }

  lemma SortDistinct(s: seq<int>)
    requires Distinct(s)
    ensures Increasing(Sort(s, SLOT_KEY)) && |Sort(s, SLOT_KEY)| == |s|
    ensures forall t :: t in Sort(s, SLOT_KEY) <==> t in s
  {
    var sorted := Sort(s, SLOT_KEY);
    SortKeeps(s, SLOT_KEY);
    forall t ensures t in sorted <==> t in s {
      SameMembers(s, SLOT_KEY, t);
    }
    assert |multiset(sorted)| == |s|;
    forall i, j | 0 <= i < j < |sorted| ensures sorted[i] < sorted[j] {
      assert KeyLeq(SLOT_KEY(sorted[i]), SLOT_KEY(sorted[j]));
      if sorted[i] == sorted[j] {
        TwiceInMultiset(sorted, i, j);
        OnceInMultiset(s, sorted[i]);
      }
    }
  }

  lemma TwiceInMultiset(s: seq<int>, i: nat, j: nat)
    requires i < j < |s| && s[i] == s[j]
    ensures multiset(s)[s[i]] >= 2
  {
    assert s == s[..j] + s[j..];
    assert s[..j][i] == s[i] && s[j..][0] == s[j];
  }

  lemma {:induction false} OnceInMultiset(s: seq<int>, t: int)
    requires Distinct(s)
    ensures multiset(s)[t] <= 1
  {
    if s != [] {
      OnceInMultiset(s[1..], t);
      assert s == [s[0]] + s[1..];
      if t == s[0] {
        assert t !in s[1..];
      }
    }
  }

  /** The page's slots are in order; with a cursor, they and it are what was
      collected, the cursor last; without one they are the whole stream. */
  lemma PageHolds(stream: seq<int>, limit: nat)
    ensures
      var page, found := StreamPage(stream, limit), Collect([], stream, limit);
      && Increasing(page.slots)
      && (forall t :: t in page.slots ==> t in stream)
      && (page.cursor.Some? <==> |found| > limit)
      && (page.cursor.None? ==> forall t :: t in stream ==> t in page.slots)
      && (page.cursor.Some? ==>
            && |page.slots| == limit && page.cursor.value in stream
            && (forall t :: t in page.slots ==> t < page.cursor.value)
            && (forall t :: t in found <==> t in page.slots || t == page.cursor.value))
  {
    var found := Collect([], stream, limit);
    CollectKeeps([], stream, limit);
    SortDistinct(found);
    CutPage(Sort(found, SLOT_KEY), limit);
  }

  lemma CutPage(ordered: seq<int>, limit: nat)
    requires Increasing(ordered) && |ordered| <= limit + 1
    ensures
      var page := PageOf(ordered, limit);
      && Increasing(page.slots)
      && (page.cursor.Some? <==> |ordered| > limit)
      && (page.cursor.None? ==> page.slots == ordered)
      && (page.cursor.Some? ==>
            && |page.slots| == limit
            && (forall t :: t in page.slots ==> t < page.cursor.value)
            && (forall t :: t in ordered <==> t in page.slots || t == page.cursor.value))
  {
    if |ordered| > limit {
      assert ordered == ordered[..limit] + [ordered[limit]];
    }
  }

  // ----- when nothing is lost ----------------------------------------------

  /** Every slot left uncollected comes at or after every collected one. */
  ghost predicate LeavesLater(stream: seq<int>, found: seq<int>) {
    forall t, f :: t in stream && t !in found && f in found ==> f <= t
  }

  ghost predicate NothingPassedOver(stream: seq<int>, limit: nat) {
    |Collect([], stream, limit)| > limit ==> LeavesLater(stream, Collect([], stream, limit))
  }

  /** Every slot is on the page or still ahead of its reader. */
  ghost predicate Keeps(page: Page, stream: seq<int>) {
    forall t :: t in stream ==> t in page.slots || (page.cursor.Some? && page.cursor.value <= t)
  }

  /** A page loses no slot exactly when, having collected more than fit, it passed
      over none that comes before what it collected. */
  lemma PageKeepsIff(stream: seq<int>, limit: nat)
    ensures Keeps(StreamPage(stream, limit), stream) <==> NothingPassedOver(stream, limit)
  {
    var page, found := StreamPage(stream, limit), Collect([], stream, limit);
    PageHolds(stream, limit);
    if |found| > limit {
      var cursor := page.cursor.value;
      assert cursor in found;
      if Keeps(page, stream) {
        forall t, f | t in stream && t !in found && f in found ensures f <= t {
          assert t !in page.slots;
        }
      }
    }
  }

  predicate NonDecreasing(s: seq<int>) {
    forall i, j :: 0 <= i < j < |s| ==> s[i] <= s[j]
  }

  lemma {:induction false} CollectInOrder(found: seq<int>, stream: seq<int>, limit: nat)
    requires NonDecreasing(stream) && forall f, t :: f in found && t in stream ==> f <= t
    ensures LeavesLater(stream, Collect(found, stream, limit))
    decreases |stream|
  {
    if |found| <= limit && stream != [] {
      var next := if stream[0] in found then found else found + [stream[0]];
      assert stream == [stream[0]] + stream[1..];
      TailInOrder(stream[0], stream[1..]);
      assert stream[0] in stream && forall t :: t in stream[1..] ==> t in stream;
      CollectInOrder(next, stream[1..], limit);
      CollectGrows(next, stream[1..], limit);
      var all := Collect(found, stream, limit);
      assert all == Collect(next, stream[1..], limit) && stream[0] in all;
      forall t, f | t in stream && t !in all && f in all ensures f <= t {
        assert t in stream[1..];
      }
    }
  }

  lemma {:induction false} CollectGrows(found: seq<int>, stream: seq<int>, limit: nat)
    ensures forall f :: f in found ==> f in Collect(found, stream, limit)
    decreases |stream|
  {
    if |found| <= limit && stream != [] {
      CollectGrows(if stream[0] in found then found else found + [stream[0]], stream[1..], limit);
    }
  }

  // ----- reading page after page -------------------------------------------

  lemma {:induction false} CandidatesInside(buckets: seq<Bucket>, start: int, end: int)
    ensures forall t :: t in Candidates(buckets, start, end) ==> start <= t < end
  {
    if buckets != [] && Usable(buckets[0]) {
      CandidatesInside(buckets[1..], start, end);
    }
  }

  lemma {:induction false} StreamInside(sessions: seq<Interval>, grid: Grid, start: int, end: int)
    ensures forall t :: t in Stream(sessions, grid, start, end) ==> start <= t < end
  {
    if sessions != [] {
      CandidatesInside(grid(sessions[0]), start, end);
      StreamInside(sessions[1..], grid, start, end);
    }
  }

  lemma CursorAdvances(sessions: seq<Interval>, grid: Grid, start: int, end: int, limit: nat)
    requires limit >= 1
    ensures
      var page := StreamPage(Stream(sessions, grid, start, end), limit);
      page.cursor.Some? ==> start < page.cursor.value < end
  {
    var stream := Stream(sessions, grid, start, end);
    PageHolds(stream, limit);
    StreamInside(sessions, grid, start, end);
    var page := StreamPage(stream, limit);
    if page.cursor.Some? {
      assert page.slots[0] in page.slots;
    }
  }

  /** Reading on from each page's cursor until there is none. */
  function ReadPages(sessions: seq<Interval>, grid: Grid, start: int, end: int, limit: nat): seq<int>
    requires limit >= 1
    decreases end - start
  {
    CursorAdvances(sessions, grid, start, end, limit);
    var page := StreamPage(Stream(sessions, grid, start, end), limit);
    if page.cursor.None? then page.slots
    else page.slots + ReadPages(sessions, grid, page.cursor.value, end, limit)
  }

  /** No page on the way passes a slot over. */
  ghost predicate Clean(sessions: seq<Interval>, grid: Grid, start: int, end: int, limit: nat)
    requires limit >= 1
    decreases end - start
  {
    CursorAdvances(sessions, grid, start, end, limit);
    var stream := Stream(sessions, grid, start, end);
    var page := StreamPage(stream, limit);
    NothingPassedOver(stream, limit) && (page.cursor.Some? ==> Clean(sessions, grid, page.cursor.value, end, limit))
  }

  /** What is at or past the cursor. */
  function From(s: seq<int>, cursor: int): seq<int> {
    if s == [] then [] else if s[0] >= cursor then [s[0]] + From(s[1..], cursor) else From(s[1..], cursor)
  }

  lemma {:induction false} FromJoins(a: seq<int>, b: seq<int>, cursor: int)
    ensures From(a + b, cursor) == From(a, cursor) + From(b, cursor)
  {
    if a == [] {
      assert a + b == b;
    } else {
      var rest := a[1..];
      assert a + b == [a[0]] + (rest + b) && (a + b)[1..] == rest + b;
      FromJoins(rest, b, cursor);
    }
  }

  lemma {:induction false} FromMembers(s: seq<int>, cursor: int, t: int)
    ensures t in From(s, cursor) <==> t in s && cursor <= t
  {
    if s != [] {
      FromMembers(s[1..], cursor, t);
    }
  }

  lemma {:induction false} FromInOrder(s: seq<int>, cursor: int)
    requires NonDecreasing(s)
    ensures NonDecreasing(From(s, cursor))
  {
    if s != [] {
      assert s == [s[0]] + s[1..];
      TailInOrder(s[0], s[1..]);
      FromInOrder(s[1..], cursor);
      forall t | t in From(s[1..], cursor) ensures s[0] <= t {
        FromMembers(s[1..], cursor, t);
      }
      HeadInOrder(s[0], From(s[1..], cursor));
    }
  }

  lemma {:induction false} CandidatesFrom(buckets: seq<Bucket>, start: int, end: int, cursor: int)
    requires start <= cursor
    ensures Candidates(buckets, cursor, end) == From(Candidates(buckets, start, end), cursor)
  {
    if buckets != [] && Usable(buckets[0]) {
      CandidatesFrom(buckets[1..], start, end, cursor);
      var rest := Candidates(buckets[1..], start, end);
      assert ([buckets[0].startsAt] + rest)[1..] == rest;
    }
  }

  /** A later start only leaves out what comes before it. */
  lemma {:induction false} StreamFrom(sessions: seq<Interval>, grid: Grid, start: int, end: int, cursor: int)
    requires start <= cursor
    ensures Stream(sessions, grid, cursor, end) == From(Stream(sessions, grid, start, end), cursor)
  {
    if sessions != [] {
      CandidatesFrom(grid(sessions[0]), start, end, cursor);
      StreamFrom(sessions[1..], grid, start, end, cursor);
      FromJoins(Candidates(grid(sessions[0]), start, end), Stream(sessions[1..], grid, start, end), cursor);
    }
  }

  /** What reading from page to page returns is in order, without repetition, and
      only what there is. */
  lemma {:induction false} ReadingIsOrdered(sessions: seq<Interval>, grid: Grid, start: int, end: int, limit: nat)
    requires limit >= 1
    ensures
      var read := ReadPages(sessions, grid, start, end, limit);
      Increasing(read) && forall t :: t in read ==> t in Stream(sessions, grid, start, end)
    decreases end - start
  {
    var stream := Stream(sessions, grid, start, end);
    var page := StreamPage(stream, limit);
    PageHolds(stream, limit);
    CursorAdvances(sessions, grid, start, end, limit);
    if page.cursor.Some? {
      var cursor := page.cursor.value;
      var more := ReadPages(sessions, grid, cursor, end, limit);
      ReadingIsOrdered(sessions, grid, cursor, end, limit);
      StreamFrom(sessions, grid, start, end, cursor);
      StreamInside(sessions, grid, cursor, end);
      forall t | t in more ensures t in stream && cursor <= t {
        FromMembers(stream, cursor, t);
      }
      JoinIncreasing(page.slots, more, cursor);
    }
  }

  lemma JoinIncreasing(a: seq<int>, b: seq<int>, between: int)
    requires Increasing(a) && Increasing(b)
    requires forall t :: t in a ==> t < between
    requires forall t :: t in b ==> between <= t
    ensures Increasing(a + b)
  {
    forall i, j | 0 <= i < |a| <= j < |a| + |b| ensures (a + b)[i] < (a + b)[j] {
      assert a[i] in a && b[j - |a|] in b;
    }
  }

  /** Reading from page to page returns every slot exactly when no page on the way
      passes one over: a slot once passed over is on no later page. */
  lemma {:induction false} EverythingIsReadIff(sessions: seq<Interval>, grid: Grid, start: int, end: int, limit: nat)
    requires limit >= 1
    ensures (forall t :: t in Stream(sessions, grid, start, end) ==> t in ReadPages(sessions, grid, start, end, limit))
       <==> Clean(sessions, grid, start, end, limit)
    decreases end - start
  {
    var stream := Stream(sessions, grid, start, end);
    var page := StreamPage(stream, limit);
    PageHolds(stream, limit);
    PageKeepsIff(stream, limit);
    CursorAdvances(sessions, grid, start, end, limit);
    if page.cursor.Some? {
      var cursor := page.cursor.value;
      var rest := Stream(sessions, grid, cursor, end);
      var more := ReadPages(sessions, grid, cursor, end, limit);
      EverythingIsReadIff(sessions, grid, cursor, end, limit);
      ReadingIsOrdered(sessions, grid, cursor, end, limit);
      StreamFrom(sessions, grid, start, end, cursor);
      forall t ensures t in rest <==> t in stream && cursor <= t {
        FromMembers(stream, cursor, t);
      }
      ReadSplits(page.slots, more, stream, rest, cursor);
    }
  }

  /** Reading all of a stream is reading its page and all of the rest. */
  lemma ReadSplits(slots: seq<int>, more: seq<int>, stream: seq<int>, rest: seq<int>, cursor: int)
    requires forall t :: t in rest <==> t in stream && cursor <= t
    requires forall t :: t in slots ==> t < cursor
    requires forall t :: t in more ==> t in rest
    ensures (forall t :: t in stream ==> t in slots + more)
       <==> Keeps(Page(slots, Some(cursor)), stream) && forall t :: t in rest ==> t in more
  {
  }

  // ----- sessions that do not overlap --------------------------------------

  lemma TailInOrder(head: int, rest: seq<int>)
    requires NonDecreasing([head] + rest)
    ensures NonDecreasing(rest) && forall t :: t in rest ==> head <= t
  {
    var all := [head] + rest;
    forall i, j | 0 <= i < j < |rest| ensures rest[i] <= rest[j] {
      assert all[i + 1] <= all[j + 1];
    }
    forall i | 0 <= i < |rest| ensures head <= rest[i] {
      assert all[0] <= all[i + 1];
    }
  }

  lemma HeadInOrder(head: int, rest: seq<int>)
    requires NonDecreasing(rest) && forall t :: t in rest ==> head <= t
    ensures NonDecreasing([head] + rest)
  {
    var all := [head] + rest;
    forall i, j | 0 <= i < j < |all| ensures all[i] <= all[j] {
      assert all[j] == rest[j - 1] && rest[j - 1] in rest;
    }
  }

  lemma BothInOrder(a: seq<int>, b: seq<int>)
    requires NonDecreasing(a) && NonDecreasing(b) && forall s, t :: s in a && t in b ==> s <= t
    ensures NonDecreasing(a + b)
  {
    forall i, j | 0 <= i < |a| <= j < |a| + |b| ensures (a + b)[i] <= (a + b)[j] {
      assert a[i] in a && b[j - |a|] in b;
    }
  }

  /** Slots that never go back are all read, whatever the page size. */
  lemma {:induction false} InOrderIsClean(sessions: seq<Interval>, grid: Grid, start: int, end: int, limit: nat)
    requires limit >= 1 && NonDecreasing(Stream(sessions, grid, start, end))
    ensures Clean(sessions, grid, start, end, limit)
    decreases end - start
  {
    var stream := Stream(sessions, grid, start, end);
    CollectInOrder([], stream, limit);
    CursorAdvances(sessions, grid, start, end, limit);
    if StreamPage(stream, limit).cursor.Some? {
      var cursor := StreamPage(stream, limit).cursor.value;
      StreamFrom(sessions, grid, start, end, cursor);
      FromInOrder(stream, cursor);
      InOrderIsClean(sessions, grid, cursor, end, limit);
    }
  }

  // ----- both stampings, over sessions that do not overlap -----------------

  lemma EpochGrows(t: int, u: int)
    requires t <= u
    ensures EpochSeconds(t) <= EpochSeconds(u)
  {
  }

  lemma FloorGrows(a: int, b: int, k: int)
    requires a <= b && k > 0
    ensures a - a % k <= b - b % k
  {
    var d := b / k - a / k;
    assert a == k * (a / k) + a % k && b == k * (b / k) + b % k;
    assert k * (b / k) - k * (a / k) == k * d;
    ProductGrows(k, d);
  }

  /** Buckets of later instants do not start earlier. */
  lemma BucketStartGrows(t: int, u: int, timeframe: Timeframe)
    requires t <= u
    ensures BucketStart(t, timeframe) <= BucketStart(u, timeframe)
  {
    EpochGrows(t, u);
    FloorGrows(EpochSeconds(t), EpochSeconds(u), timeframe.Seconds());
  }

  /** Where the bucket of an instant of a session starts. */
  function StampAt(stamping: Stamping, timeframe: Timeframe, t: int, session: Interval): int {
    if stamping.SessionOpen? && BucketStart(t, timeframe) < session.from then session.from else BucketStart(t, timeframe)
  }

  lemma StampGrows(stamping: Stamping, timeframe: Timeframe, t: int, u: int, session: Interval)
    requires t <= u
    ensures StampAt(stamping, timeframe, t, session) <= StampAt(stamping, timeframe, u, session)
  {
    BucketStartGrows(t, u, timeframe);
  }

  lemma BucketStamp(stamping: Stamping, timeframe: Timeframe, t: int, session: Interval)
    ensures
      var bucket := BucketAt(stamping, timeframe, t, session);
      bucket.Some? ==> bucket.value.startsAt == StampAt(stamping, timeframe, t, session)
  {
  }

  /** Within a session the slots never go back. */
  lemma {:induction false} SessionInOrder(stamping: Stamping, timeframe: Timeframe, cursor: int, session: Interval, start: int, end: int)
    ensures
      var slots := Candidates(BucketsFrom(stamping, timeframe, cursor, session), start, end);
      && NonDecreasing(slots)
      && forall t :: t in slots ==>
           StampAt(stamping, timeframe, cursor, session) <= t <= StampAt(stamping, timeframe, session.to, session)
    decreases session.to - cursor
  {
    if cursor < session.to {
      var bucket := BucketAt(stamping, timeframe, cursor, session);
      BucketStep(stamping, timeframe, cursor, session, bucket);
      if bucket.Some? && bucket.value.closesAt > cursor {
        var next := bucket.value.closesAt;
        BucketStamp(stamping, timeframe, cursor, session);
        StampGrows(stamping, timeframe, cursor, next, session);
        StampGrows(stamping, timeframe, cursor, session.to, session);
        SessionInOrder(stamping, timeframe, next, session, start, end);
        FrontBucket(bucket.value, BucketsFrom(stamping, timeframe, next, session), start, end);
      }
    }
  }

  /** One more bucket in front, starting no later than the others. */
  lemma FrontBucket(bucket: Bucket, rest: seq<Bucket>, start: int, end: int)
    requires Usable(bucket) && NonDecreasing(Candidates(rest, start, end))
    requires forall t :: t in Candidates(rest, start, end) ==> bucket.startsAt <= t
    ensures NonDecreasing(Candidates([bucket] + rest, start, end))
    ensures forall t :: t in Candidates([bucket] + rest, start, end) ==> t == bucket.startsAt || t in Candidates(rest, start, end)
  {
    assert ([bucket] + rest)[1..] == rest;
    HeadInOrder(bucket.startsAt, Candidates(rest, start, end));
  }

  /** Sessions in the order they are visited, none reaching into the next. */
  ghost predicate Disjoint(sessions: seq<Interval>) {
    && (forall i :: 0 <= i < |sessions| ==> sessions[i].from < sessions[i].to)
    && (forall i, j :: 0 <= i < j < |sessions| ==> sessions[i].to <= sessions[j].from)
  }

  lemma NextSessionIsLater(stamping: Stamping, timeframe: Timeframe, a: Interval, b: Interval)
    requires a.from < a.to <= b.from
    ensures StampAt(stamping, timeframe, a.to, a) <= StampAt(stamping, timeframe, b.from, b)
    ensures StampAt(stamping, timeframe, a.from, a) <= StampAt(stamping, timeframe, a.to, a)
  {
    BucketStartGrows(a.to, b.from, timeframe);
    BucketStartGrows(a.from, a.to, timeframe);
  }

  lemma {:induction false} DisjointInOrder(stamping: Stamping, timeframe: Timeframe, sessions: seq<Interval>, start: int, end: int)
    requires Disjoint(sessions)
    ensures
      var stream := Stream(sessions, SessionGrid(stamping, timeframe), start, end);
      && NonDecreasing(stream)
      && forall t :: t in stream ==> StampAt(stamping, timeframe, sessions[0].from, sessions[0]) <= t
  {
    if sessions != [] {
      var grid, first := SessionGrid(stamping, timeframe), sessions[0];
      SessionInOrder(stamping, timeframe, first.from, first, start, end);
      assert Disjoint(sessions[1..]) by {
        assert forall i :: 0 <= i < |sessions| - 1 ==> sessions[1..][i] == sessions[i + 1];
      }
      DisjointInOrder(stamping, timeframe, sessions[1..], start, end);
      if |sessions| > 1 {
        NextSessionIsLater(stamping, timeframe, first, sessions[1]);
      }
      BothInOrder(Candidates(grid(first), start, end), Stream(sessions[1..], grid, start, end));
    }
  }

  /** Sessions that do not overlap are read completely, each slot once and in order,
      with either stamping, every timeframe and every page size; a bucket shared by
      two sessions comes once. */
  lemma DisjointSessionsAreRead(stamping: Stamping, timeframe: Timeframe, sessions: seq<Interval>, start: int, end: int, limit: nat)
    requires limit >= 1 && Disjoint(sessions)
    ensures
      var grid := SessionGrid(stamping, timeframe);
      var read, stream := ReadPages(sessions, grid, start, end, limit), Stream(sessions, grid, start, end);
      Increasing(read) && forall t :: t in read <==> t in stream
  {
    var grid := SessionGrid(stamping, timeframe);
    DisjointInOrder(stamping, timeframe, sessions, start, end);
    InOrderIsClean(sessions, grid, start, end, limit);
    EverythingIsReadIff(sessions, grid, start, end, limit);
    ReadingIsOrdered(sessions, grid, start, end, limit);
  }

  // ----- sessions that do --------------------------------------------------

  const MINUTE := 60 * MICROS_PER_SECOND

  const OVERLAPPING := [Interval(0, 10 * MINUTE), Interval(3 * MINUTE, 13 * MINUTE)]

  /** Five-minute bars of two overlapping sessions: the second opens between two
      bars of the first. */
  lemma OverlappingStream()
    ensures Stream(OVERLAPPING, SessionGrid(SessionOpen, FiveMinutes), 0, 13 * MINUTE)
      == [0, 5 * MINUTE, 3 * MINUTE, 5 * MINUTE, 10 * MINUTE]
  {
    var a, b := OVERLAPPING[0], OVERLAPPING[1];
    var grid := SessionGrid(SessionOpen, FiveMinutes);
    FirstSessionBuckets();
    SecondSessionBuckets();
    var x, y, z := Bucket(0, 5 * MINUTE), Bucket(5 * MINUTE, 10 * MINUTE), Bucket(10 * MINUTE, 13 * MINUTE);
    var w := Bucket(3 * MINUTE, 5 * MINUTE);
    OneCandidate(x, [y]);
    OneCandidate(y, []);
    OneCandidate(w, [y, z]);
    OneCandidate(y, [z]);
    OneCandidate(z, []);
    assert [x] + [y] == [x, y] && [y] + [] == [y] && [w] + [y, z] == [w, y, z] && [y] + [z] == [y, z] && [z] + [] == [z];
    assert OVERLAPPING[1..] == [b] && [b][1..] == [];
    assert Stream([b], grid, 0, 13 * MINUTE) == Candidates(grid(b), 0, 13 * MINUTE) + [];
  }

  lemma OneCandidate(bucket: Bucket, rest: seq<Bucket>)
    requires Usable(bucket) && 0 <= bucket.startsAt && bucket.closesAt <= 13 * MINUTE
    ensures Candidates([bucket] + rest, 0, 13 * MINUTE) == [bucket.startsAt] + Candidates(rest, 0, 13 * MINUTE)
  {
    assert ([bucket] + rest)[1..] == rest;
  }

  lemma FirstSessionBuckets()
    ensures SessionGrid(SessionOpen, FiveMinutes)(OVERLAPPING[0])
      == [Bucket(0, 5 * MINUTE), Bucket(5 * MINUTE, 10 * MINUTE)]
  {
    var s := OVERLAPPING[0];
    assert BucketsFrom(SessionOpen, FiveMinutes, 10 * MINUTE, s) == [];
    assert BucketAt(SessionOpen, FiveMinutes, 5 * MINUTE, s) == Some(Bucket(5 * MINUTE, 10 * MINUTE));
    assert BucketsFrom(SessionOpen, FiveMinutes, 5 * MINUTE, s) == [Bucket(5 * MINUTE, 10 * MINUTE)];
    assert BucketAt(SessionOpen, FiveMinutes, 0, s) == Some(Bucket(0, 5 * MINUTE));
  }

  lemma SecondSessionBuckets()
    ensures SessionGrid(SessionOpen, FiveMinutes)(OVERLAPPING[1])
      == [Bucket(3 * MINUTE, 5 * MINUTE), Bucket(5 * MINUTE, 10 * MINUTE), Bucket(10 * MINUTE, 13 * MINUTE)]
  {
    var s := OVERLAPPING[1];
    assert BucketsFrom(SessionOpen, FiveMinutes, 13 * MINUTE, s) == [];
    assert BucketAt(SessionOpen, FiveMinutes, 10 * MINUTE, s) == Some(Bucket(10 * MINUTE, 13 * MINUTE));
    assert BucketsFrom(SessionOpen, FiveMinutes, 10 * MINUTE, s) == [Bucket(10 * MINUTE, 13 * MINUTE)];
    assert BucketAt(SessionOpen, FiveMinutes, 5 * MINUTE, s) == Some(Bucket(5 * MINUTE, 10 * MINUTE));
    assert BucketsFrom(SessionOpen, FiveMinutes, 5 * MINUTE, s) == [Bucket(5 * MINUTE, 10 * MINUTE)] + [Bucket(10 * MINUTE, 13 * MINUTE)];
    assert BucketAt(SessionOpen, FiveMinutes, 3 * MINUTE, s) == Some(Bucket(3 * MINUTE, 5 * MINUTE));
  }

  lemma OverlapCollected()
    ensures
      var stream := Stream(OVERLAPPING, SessionGrid(SessionOpen, FiveMinutes), 0, 13 * MINUTE);
      Collect([], stream, 1) == [0, 5 * MINUTE] && 3 * MINUTE in stream
  {
    var stream := Stream(OVERLAPPING, SessionGrid(SessionOpen, FiveMinutes), 0, 13 * MINUTE);
    OverlappingStream();
    var rest := [3 * MINUTE, 5 * MINUTE, 10 * MINUTE];
    assert stream == [0] + ([5 * MINUTE] + rest);
    CollectOne([], 0, [5 * MINUTE] + rest, 1);
    CollectOne([0], 5 * MINUTE, rest, 1);
    CollectFull([0, 5 * MINUTE], rest, 1);
    assert stream[2] == 3 * MINUTE;
  }

  lemma TwoCollected(stream: seq<int>, a: int, b: int)
    requires a < b && Collect([], stream, 1) == [a, b]
    ensures StreamPage(stream, 1).cursor == Some(b)
    ensures forall t :: t in StreamPage(stream, 1).slots ==> t == a
  {
    PageHolds(stream, 1);
    var found := Collect([], stream, 1);
    assert found[0] in found && found[1] in found;
    assert StreamPage(stream, 1).cursor.value in found;
  }

  /** Read one slot at a time, the second session's opening bar is never returned:
      it was passed over when the first page looked ahead. */
  lemma OverlapLosesASlot()
    ensures
      var grid := SessionGrid(SessionOpen, FiveMinutes);
      && 3 * MINUTE in Stream(OVERLAPPING, grid, 0, 13 * MINUTE)
      && !NothingPassedOver(Stream(OVERLAPPING, grid, 0, 13 * MINUTE), 1)
      && 3 * MINUTE !in ReadPages(OVERLAPPING, grid, 0, 13 * MINUTE, 1)
  {
    var grid := SessionGrid(SessionOpen, FiveMinutes);
    var stream := Stream(OVERLAPPING, grid, 0, 13 * MINUTE);
    OverlapCollected();
    var found := Collect([], stream, 1);
    assert found[1] == 5 * MINUTE && found[1] in found;
    TwoCollected(stream, 0, 5 * MINUTE);
    CursorAdvances(OVERLAPPING, grid, 0, 13 * MINUTE, 1);
    ReadingIsOrdered(OVERLAPPING, grid, 5 * MINUTE, 13 * MINUTE, 1);
    StreamInside(OVERLAPPING, grid, 5 * MINUTE, 13 * MINUTE);
  }
}
