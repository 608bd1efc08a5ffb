/** The bounded, sequence-numbered inbox of quote events. */
module QuoteInbox {
  import opened AlertReplay

  datatype QuoteEvent = QuoteEvent(sequence: nat, route: Route, quote: nat)

  /** Every event ever published, numbered from one. */
  ghost predicate Numbered(history: seq<QuoteEvent>) {
    forall i :: 0 <= i < |history| ==> history[i].sequence == i + 1
  }

  /** The retained tail of the history. */
  function Retained(history: seq<QuoteEvent>, capacity: nat): seq<QuoteEvent> {
    if |history| > capacity then history[|history| - capacity..] else history
  }

  function Evicted(history: seq<QuoteEvent>, capacity: nat): nat {
    if |history| > capacity then |history| - capacity else 0
  }

  /** A deque with a maximum length drops its oldest element for a new one. */
  function Push(inbox: seq<QuoteEvent>, capacity: nat, event: QuoteEvent): seq<QuoteEvent> {
    var all := inbox + [event];
    if |all| > capacity then all[1..] else all
  }

  lemma PushRetains(history: seq<QuoteEvent>, capacity: nat, event: QuoteEvent)
    requires capacity >= 1
    ensures Push(Retained(history, capacity), capacity, event) == Retained(history + [event], capacity)
  {
  }

  datatype Page = Page(events: seq<QuoteEvent>, ceiling: nat, overflowed: bool)

  /** What a reader at `after` is entitled to. */
  function PageOf(history: seq<QuoteEvent>, capacity: nat, after: int, limit: int): Page {
    var evicted, count := Evicted(history, capacity), if limit < 1 then 1 else limit;
    var floor := if after < evicted then evicted else after;
    var from := if floor > |history| then |history| else floor;
    var to := if from + count > |history| then |history| else from + count;
    Page(history[from..to], |history|, after < evicted)
  }

  /** Events numbered above `floor`, in order. */
  function Above(events: seq<QuoteEvent>, floor: int): seq<QuoteEvent> {
    if events == [] then []
    else if events[0].sequence > floor then [events[0]] + Above(events[1..], floor)
    else Above(events[1..], floor)
  }

  lemma {:induction false} AboveIsSuffix(events: seq<QuoteEvent>, first: int, floor: int)
    requires forall i :: 0 <= i < |events| ==> events[i].sequence == first + i
    ensures
      var skip := if floor < first then 0 else if floor - first + 1 > |events| then |events| else floor - first + 1;
      Above(events, floor) == events[skip..]
  {
    if events != [] {
      AboveIsSuffix(events[1..], first + 1, floor);
    }
  }

  /** The source's filter over the inbox is the entitled page. */
  lemma FilteredPage(history: seq<QuoteEvent>, capacity: nat, after: int, limit: int)
    requires Numbered(history) && capacity >= 1
    ensures
      var inbox := Retained(history, capacity);
      var first := if inbox != [] then inbox[0].sequence else |history| + 1;
      var overflowed := after < first - 1;
      var events := Above(inbox, if overflowed then first - 1 else after);
      var count := if limit < 1 then 1 else limit;
      Page(if |events| > count then events[..count] else events, |history|, overflowed)
        == PageOf(history, capacity, after, limit)
  {
    var inbox := Retained(history, capacity);
    var first := Evicted(history, capacity) + 1;
    AboveIsSuffix(inbox, first, if after < first - 1 then first - 1 else after);
  }

  /** One cursor reader: the events consumed so far and the cursor it passes next. */
  datatype Reader = Reader(consumed: seq<QuoteEvent>, cursor: int)

  function ReadOnce(reader: Reader, page: Page): Reader {
    Reader(reader.consumed + page.events,
      if page.events == [] then reader.cursor else page.events[|page.events| - 1].sequence)
  }

  /** The inbox seen at each read only grows. */
  ghost predicate Growing(histories: seq<seq<QuoteEvent>>) {
    && (forall i :: 0 <= i < |histories| ==> Numbered(histories[i]))
    && (forall i :: 0 < i < |histories| ==> histories[i - 1] <= histories[i])
  }

  function ReadAll(reader: Reader, histories: seq<seq<QuoteEvent>>, capacity: nat, limit: int): Reader {
    if histories == [] then reader
    else
      var before := ReadAll(reader, histories[..|histories| - 1], capacity, limit);
      ReadOnce(before, PageOf(histories[|histories| - 1], capacity, before.cursor, limit))
  }

  /** None of the reads reported an overflow. */
  predicate NoOverflow(reader: Reader, histories: seq<seq<QuoteEvent>>, capacity: nat, limit: int)
    decreases |histories|
  {
    histories == []
    || (var front := histories[..|histories| - 1];
        && NoOverflow(reader, front, capacity, limit)
        && !PageOf(histories[|histories| - 1], capacity, ReadAll(reader, front, capacity, limit).cursor, limit).overflowed)
  }

  /** The reader has consumed exactly the events from its start to its cursor. */
  ghost predicate ReadUpTo(reader: Reader, start: nat, history: seq<QuoteEvent>) {
    start <= reader.cursor <= |history| && reader.consumed == history[start..reader.cursor]
  }

  lemma ReadUpToGrows(reader: Reader, start: nat, history: seq<QuoteEvent>, longer: seq<QuoteEvent>)
    requires ReadUpTo(reader, start, history) && history <= longer
    ensures ReadUpTo(reader, start, longer)
  {
    assert history[start..reader.cursor] == longer[start..reader.cursor];
  }

  /** One read without overflow continues exactly where the last one ended, and
      brings nothing only when there is nothing. */
  lemma ReadStep(reader: Reader, start: nat, history: seq<QuoteEvent>, capacity: nat, limit: int)
    requires Numbered(history) && ReadUpTo(reader, start, history)
    requires !PageOf(history, capacity, reader.cursor, limit).overflowed
    ensures
      var after := ReadOnce(reader, PageOf(history, capacity, reader.cursor, limit));
      && ReadUpTo(after, start, history)
      && (after.cursor == reader.cursor <==> reader.cursor == |history|)
  {
    var page := PageOf(history, capacity, reader.cursor, limit);
    var after := ReadOnce(reader, page);
    if page.events != [] {
      assert page.events == history[reader.cursor..reader.cursor + |page.events|];
      assert page.events[|page.events| - 1] == history[reader.cursor + |page.events| - 1];
      assert after.cursor == reader.cursor + |page.events|;
    }
  }

  lemma GrowingPrefix(histories: seq<seq<QuoteEvent>>)
    requires Growing(histories) && |histories| > 1
    ensures Growing(histories[..|histories| - 1])
    ensures histories[|histories| - 2] <= histories[|histories| - 1]
  {
  }

  /** Unless told that it overflowed, a cursor reader that polls while events keep
      arriving sees every event after its start exactly once, in order. */
  lemma {:induction false} ReaderSeesEverything(start: nat, histories: seq<seq<QuoteEvent>>, capacity: nat, limit: int)
    requires Growing(histories) && histories != [] && start <= |histories[0]|
    requires NoOverflow(Reader([], start), histories, capacity, limit)
    ensures ReadUpTo(ReadAll(Reader([], start), histories, capacity, limit), start, histories[|histories| - 1])
    decreases |histories|
  {
    var n := |histories| - 1;
    var front, last := histories[..n], histories[n];
    var before := ReadAll(Reader([], start), front, capacity, limit);
    if n > 0 {
      GrowingPrefix(histories);
      ReaderSeesEverything(start, front, capacity, limit);
      ReadUpToGrows(before, start, front[n - 1], last);
    } else {
      assert last[start..start] == [];
    }
    ReadStep(before, start, last, capacity, limit);
  }

  /** Overflow is reported exactly when an event the reader had not seen is gone. */
  lemma OverflowMeaning(history: seq<QuoteEvent>, capacity: nat, after: nat, limit: int)
    requires Numbered(history)
    ensures PageOf(history, capacity, after, limit).overflowed
       <==> exists e :: e in history && e.sequence > after && e !in Retained(history, capacity)
  {
    var evicted := Evicted(history, capacity);
    if after < evicted {
      var e := history[after];
      assert e in history && e.sequence == after + 1;
      forall i | evicted <= i < |history| ensures history[i] != e {
        assert history[i].sequence == i + 1;
      }
    }
    forall i | evicted <= i < |history| ensures history[i] in Retained(history, capacity) {
      assert Retained(history, capacity)[i - evicted] == history[i];
    }
  }
}
