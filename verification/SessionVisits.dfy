/** Which visiting orders are read completely whatever the page size. */
module SessionVisits {
  import opened SessionSlots
  import opened SessionPages

  function Visits(found: seq<int>, stream: seq<int>): seq<int>
    decreases |stream|
  {
    if stream == [] then found
    else Visits(if stream[0] in found then found else found + [stream[0]], stream[1..])
  }

  /** The distinct slots of a stream, in the order they are first visited. */
  function FirstVisits(stream: seq<int>): seq<int> {
    Visits([], stream)
  }

  /** From the third distinct slot onwards, none lies below one visited earlier. */
  predicate Ascends(visits: seq<int>) {
    forall i, j :: 0 <= i < j < |visits| && 2 <= j ==> visits[i] < visits[j]
  }

  ghost predicate ReadsAll(sessions: seq<Interval>, grid: Grid, start: int, end: int, limit: nat)
    requires limit >= 1
  {
    forall t :: t in Stream(sessions, grid, start, end) ==> t in ReadPages(sessions, grid, start, end, limit)
  }

  // ----- a page collects the first visits ----------------------------------

  lemma {:induction false} VisitsExtend(found: seq<int>, stream: seq<int>)
    ensures |found| <= |Visits(found, stream)| && Visits(found, stream)[..|found|] == found
    decreases |stream|
  {
    if stream != [] {
      var next := if stream[0] in found then found else found + [stream[0]];
      VisitsExtend(next, stream[1..]);
      assert next[..|found|] == found;
      assert Visits(next, stream[1..])[..|next|][..|found|] == Visits(next, stream[1..])[..|found|];
    }
  }

  lemma {:induction false} VisitsKeep(found: seq<int>, stream: seq<int>)
    requires Distinct(found)
    ensures Distinct(Visits(found, stream))
    ensures forall t :: t in Visits(found, stream) <==> t in found || t in stream
    decreases |stream|
  {
    if stream != [] {
      var next := if stream[0] in found then found else found + [stream[0]];
      VisitsKeep(next, stream[1..]);
      assert forall t :: t in stream <==> t == stream[0] || t in stream[1..];
    }
  }

  lemma {:induction false} CollectIsPrefix(found: seq<int>, stream: seq<int>, limit: nat)
    requires |found| <= limit + 1
    ensures
      var all := Visits(found, stream);
      Collect(found, stream, limit) == all[..if |all| > limit then limit + 1 else |all|]
    decreases |stream|
  {
    VisitsExtend(found, stream);
    if |found| <= limit && stream != [] {
      CollectIsPrefix(if stream[0] in found then found else found + [stream[0]], stream[1..], limit);
    }
  }

  // ----- one page ----------------------------------------------------------

  lemma AscendingPassesNothingOver(stream: seq<int>, limit: nat)
    requires limit >= 1 && Ascends(FirstVisits(stream))
    ensures NothingPassedOver(stream, limit)
  {
    var all, found := FirstVisits(stream), Collect([], stream, limit);
    CollectIsPrefix([], stream, limit);
    VisitsKeep([], stream);
    if |found| > limit {
      assert forall k :: 0 <= k < |found| ==> all[k] == found[k];
      assert forall k :: 0 <= k < |found| ==> all[k] in found;
      forall t, f | t in stream && t !in found && f in found ensures f <= t {
        assert t in all;
        var i :| 0 <= i < |found| && found[i] == f;
        var j :| 0 <= j < |all| && all[j] == t;
        assert found[i] == all[i];
      }
    }
  }

  /** The page that ends just before a slot visited too late passes it over. */
  lemma PassesNothingOverAscends(stream: seq<int>, i: nat, j: nat)
    requires i < j < |FirstVisits(stream)| && 2 <= j
    requires NothingPassedOver(stream, j - 1)
    ensures FirstVisits(stream)[i] < FirstVisits(stream)[j]
  {
    var all, found := FirstVisits(stream), Collect([], stream, j - 1);
    CollectIsPrefix([], stream, j - 1);
    VisitsKeep([], stream);
    assert found == all[..j] && found[i] == all[i];
    assert all[j] in all && all[j] !in found;
    assert all[i] in found;
  }

  // ----- every page --------------------------------------------------------

  /** Leaving out what lies before the cursor keeps the order of the visits. */
  lemma {:induction false} VisitsFrom(found: seq<int>, stream: seq<int>, cursor: int)
    ensures Visits(From(found, cursor), From(stream, cursor)) == From(Visits(found, stream), cursor)
    decreases |stream|
  {
    if stream != [] {
      var slot, rest := stream[0], stream[1..];
      var next := if slot in found then found else found + [slot];
      VisitsFrom(next, rest, cursor);
      FromMembers(found, cursor, slot);
      FromJoins(found, [slot], cursor);
      FromOne(slot, cursor);
      var before, after := From(found, cursor), From(rest, cursor);
      assert From(next, cursor) == if slot in found || slot < cursor then before else before + [slot];
      if slot >= cursor {
        VisitsOne(before, slot, after);
      }
    }
  }

  lemma VisitsOne(found: seq<int>, slot: int, stream: seq<int>)
    ensures Visits(found, [slot] + stream) == Visits(if slot in found then found else found + [slot], stream)
  {
    assert ([slot] + stream)[1..] == stream;
  }

  lemma FromOne(slot: int, cursor: int)
    ensures From([slot], cursor) == if slot >= cursor then [slot] else []
  {
    assert From([], cursor) == [];
    assert [slot][1..] == [];
  }

  /** What is left stands no earlier than before. */
  lemma {:induction false} FromPlaces(s: seq<int>, cursor: int, i: nat, j: nat) returns (p: nat, q: nat)
    requires i < j < |From(s, cursor)|
    ensures p < q < |s| && j <= q && s[p] == From(s, cursor)[i] && s[q] == From(s, cursor)[j]
  {
    var rest := s[1..];
    if s[0] < cursor {
      p, q := FromPlaces(rest, cursor, i, j);
      p, q := p + 1, q + 1;
    } else if i > 0 {
      p, q := FromPlaces(rest, cursor, i - 1, j - 1);
      p, q := p + 1, q + 1;
    } else {
      p := 0;
      q := FromPlace(rest, cursor, j - 1);
      q := q + 1;
    }
  }

  lemma {:induction false} FromPlace(s: seq<int>, cursor: int, j: nat) returns (q: nat)
    requires j < |From(s, cursor)|
    ensures j <= q < |s| && s[q] == From(s, cursor)[j]
  {
    if s[0] < cursor {
      q := FromPlace(s[1..], cursor, j);
      q := q + 1;
    } else if j > 0 {
      q := FromPlace(s[1..], cursor, j - 1);
      q := q + 1;
    } else {
      q := 0;
    }
  }

  lemma AscendsFrom(stream: seq<int>, cursor: int)
    requires Ascends(FirstVisits(stream))
    ensures Ascends(FirstVisits(From(stream, cursor)))
  {
    var all := FirstVisits(stream);
    var left := FirstVisits(From(stream, cursor));
    VisitsFrom([], stream, cursor);
    assert left == From(all, cursor);
    forall i, j | 0 <= i < j < |left| && 2 <= j ensures left[i] < left[j] {
      var p, q := FromPlaces(all, cursor, i, j);
    }
  }

  lemma {:induction false} AscendingIsClean(sessions: seq<Interval>, grid: Grid, start: int, end: int, limit: nat)
    requires limit >= 1 && Ascends(FirstVisits(Stream(sessions, grid, start, end)))
    ensures Clean(sessions, grid, start, end, limit)
    decreases end - start
  {
    var stream := Stream(sessions, grid, start, end);
    AscendingPassesNothingOver(stream, limit);
    CursorAdvances(sessions, grid, start, end, limit);
    var page := StreamPage(stream, limit);
    if page.cursor.Some? {
      var cursor := page.cursor.value;
      StreamFrom(sessions, grid, start, end, cursor);
      AscendsFrom(stream, cursor);
      AscendingIsClean(sessions, grid, cursor, end, limit);
    }
  }

  /** Sessions are read completely with every page size exactly when, from the third
      distinct slot onwards, none is visited after a later one: with a slot that is,
      the page size one below its place loses it. */
  lemma EveryPageSizeReadsIff(sessions: seq<Interval>, grid: Grid, start: int, end: int)
    ensures (forall limit: nat :: limit >= 1 ==> ReadsAll(sessions, grid, start, end, limit))
       <==> Ascends(FirstVisits(Stream(sessions, grid, start, end)))
  {
    var stream := Stream(sessions, grid, start, end);
    var all := FirstVisits(stream);
    if Ascends(all) {
      forall limit: nat | limit >= 1 ensures ReadsAll(sessions, grid, start, end, limit) {
        AscendingIsClean(sessions, grid, start, end, limit);
        EverythingIsReadIff(sessions, grid, start, end, limit);
      }
    }
    if forall limit: nat :: limit >= 1 ==> ReadsAll(sessions, grid, start, end, limit) {
      forall i, j | 0 <= i < j < |all| && 2 <= j ensures all[i] < all[j] {
        assert ReadsAll(sessions, grid, start, end, j - 1);
        EverythingIsReadIff(sessions, grid, start, end, j - 1);
        PassesNothingOverAscends(stream, i, j);
      }
    }
  }
}
