/** How one repair envelope is cut into provider-bounded chunks, walked newest to
    oldest, and turned into coverage receipts. */
module HistoryChunks {
  import opened Wrappers
  import opened Timeframes
  import opened HistoryContract
  import Cov = HistoryCoverage

  // ----- the first chunk ---------------------------------------------------

  function Max(a: int, b: int): int {
    if a < b then b else a
  }

  /** The newest provider-bounded chunk of one envelope. */
  function SelectIntent(provider: string, instrumentId: string, routeFingerprint: string, timeframe: Timeframe,
                        from: int, to: int, identity: RequestIdentity, generation: nat, priority: Priority,
                        cooldown: nat, maxSpan: int, now: int): Result<Intent>
  {
    if to <= from then Failure("requested history range must be non-empty")
    else if maxSpan <= 0 || maxSpan % MICROS_PER_SECOND != 0 then
      Failure("max_request_span must be a canonical positive timedelta")
    else if !timeframe.Aligned(from) || !timeframe.Aligned(to) then
      Failure("requested history range must be timeframe-aligned")
    else if to > now then Failure("requested history range must be fully elapsed")
    else
      var maxSlots := (maxSpan / MICROS_PER_SECOND) / timeframe.Seconds();
      if maxSlots < 1 then Failure("max_request_span must contain one complete timeframe")
      else if provider == "" || instrumentId == "" || routeFingerprint == "" || !identity.Valid() then
        Failure("history repair intent must be exact")
      else
        Success(Intent(provider, instrumentId, routeFingerprint, timeframe,
          Max(from, to - maxSlots * timeframe.Slot()), to, identity, generation, priority, cooldown, from, to))
  }

  function CeilDiv(a: int, b: int): int
    requires b > 0
  {
    (a + b - 1) / b
  }

  lemma CeilOne(a: int, b: int)
    requires 0 < a <= b
    ensures CeilDiv(a, b) == 1
  {
    DivisionIsUnique(b, 1, a - 1);
  }

  lemma CeilStep(a: int, b: int)
    requires 0 < b < a
    ensures CeilDiv(a, b) == 1 + CeilDiv(a - b, b) && CeilDiv(a - b, b) >= 1
  {
    var q, r := (a - b + b - 1) / b, (a - b + b - 1) % b;
    assert a - 1 == b * q + r;
    assert b * (q + 1) == b * q + b;
    DivisionIsUnique(b, q + 1, r);
    ProductGrows(b, q - 1);
    assert b * (q - 1) == b * q - b;
  }

  lemma Distribute(u: int, a: int, b: int)
    ensures u * (a + b) == u * a + u * b
  {
  }

  lemma Associate(u: int, m: int, q: int)
    ensures u * (m * q) == (m * u) * q
  {
  }

  lemma CeilScales(n: int, m: int, u: int)
    requires 0 < m && 0 < u
    ensures m * u > 0 && CeilDiv(n * u, m * u) == CeilDiv(n, m)
  {
    ProductGrows(u, m);
    var q, r := (n + m - 1) / m, (n + m - 1) % m;
    var s := u * r + (u - 1);
    assert n * u + m * u - 1 == (m * u) * q + s by {
      Distribute(u, n, m);
      Distribute(u, n + m - 1, 1);
      Distribute(u, m * q, r);
      Associate(u, m, q);
    }
    assert 0 <= s < m * u by {
      ProductGrows(u, r);
      ProductGrows(u, m - 1 - r);
      Distribute(u, m - 1 - r, r + 1);
      Distribute(u, r, 1);
    }
    DivisionIsUnique(m * u, q, s);
  }

  /** Chunks a full walk from this chunk down to the target start takes. */
  function ChunksLeft(intent: Intent): int
    requires intent.startsAt < intent.endsAt
  {
    CeilDiv(intent.endsAt - intent.targetStartsAt, intent.Span())
  }

  /** The selected chunk is a legal intent within the provider bound, and walking
      from it takes ceil(target slots / slots per request) chunks. */
  lemma SelectedIntent(provider: string, instrumentId: string, routeFingerprint: string, timeframe: Timeframe,
                       from: int, to: int, identity: RequestIdentity, generation: nat, priority: Priority,
                       cooldown: nat, maxSpan: int, now: int)
    requires SelectIntent(provider, instrumentId, routeFingerprint, timeframe, from, to, identity, generation,
                          priority, cooldown, maxSpan, now).Success?
    ensures
      var intent := SelectIntent(provider, instrumentId, routeFingerprint, timeframe, from, to, identity,
        generation, priority, cooldown, maxSpan, now).value;
      var maxSlots := maxSpan / timeframe.Slot();
      && intent.Valid(now)
      && intent.endsAt == intent.targetEndsAt == to && intent.targetStartsAt == from
      && intent.Span() <= maxSpan
      && maxSlots >= 1
      && ChunksLeft(intent) == CeilDiv((to - from) / timeframe.Slot(), maxSlots)
  {
    var maxSlots := (maxSpan / MICROS_PER_SECOND) / timeframe.Seconds();
    SlotsOfSpan(timeframe, maxSpan);
    AlignedBefore(timeframe, to, maxSlots);
    AlignedDistance(timeframe, from, to);
    FirstChunk(from, to, timeframe.Slot(), maxSlots);
  }

  /** When a first chunk is selected, and that it carries the caller's request. */
  lemma SelectsIff(provider: string, instrumentId: string, routeFingerprint: string, timeframe: Timeframe,
                   from: int, to: int, identity: RequestIdentity, generation: nat, priority: Priority,
                   cooldown: nat, maxSpan: int, now: int)
    ensures
      var selected := SelectIntent(provider, instrumentId, routeFingerprint, timeframe, from, to, identity, generation,
        priority, cooldown, maxSpan, now);
      && (selected.Success? <==>
            && from < to <= now && timeframe.Aligned(from) && timeframe.Aligned(to)
            && maxSpan % 1_000_000 == 0 && timeframe.Slot() <= maxSpan
            && provider != "" && instrumentId != "" && routeFingerprint != "" && identity.Valid())
      && (selected.Success? ==>
            var intent := selected.value;
            && intent.provider == provider && intent.instrumentId == instrumentId && intent.routeFingerprint == routeFingerprint
            && intent.timeframe == timeframe && intent.identity == identity && intent.canonicalGeneration == generation
            && intent.priority == priority && intent.cooldown == cooldown)
  {
    if 0 < maxSpan && maxSpan % MICROS_PER_SECOND == 0 {
      SlotsOfSpan(timeframe, maxSpan);
      OneSlotFits(maxSpan, timeframe.Slot());
    }
  }

  lemma OneSlotFits(span: int, slot: int)
    requires 0 < span && 0 < slot
    ensures span / slot >= 1 <==> slot <= span
  {
    if slot > span {
      DivisionIsUnique(slot, 0, span);
    }
  }

  /** How many whole slots fit into a span of whole seconds. */
  lemma SlotsOfSpan(timeframe: Timeframe, maxSpan: int)
    requires 0 < maxSpan && maxSpan % MICROS_PER_SECOND == 0
    ensures
      var maxSlots := (maxSpan / MICROS_PER_SECOND) / timeframe.Seconds();
      maxSlots == maxSpan / timeframe.Slot() && maxSlots * timeframe.Slot() <= maxSpan
  {
    var u, seconds := timeframe.Slot(), timeframe.Seconds();
    var q := maxSpan / MICROS_PER_SECOND;
    var maxSlots := q / seconds;
    var rest := q - maxSlots * seconds;
    assert u == MICROS_PER_SECOND * seconds;
    assert maxSpan == MICROS_PER_SECOND * q == u * maxSlots + MICROS_PER_SECOND * rest;
    DivisionIsUnique(u, maxSlots, MICROS_PER_SECOND * rest);
  }

  lemma AlignedBefore(timeframe: Timeframe, to: int, slots: int)
    requires timeframe.Aligned(to)
    ensures timeframe.Aligned(to - slots * timeframe.Slot())
  {
    var u := timeframe.Slot();
    Multiples(u, -slots);
    assert -(slots * u) == u * -slots;
    AlignedDistance(timeframe, to, to - slots * u);
  }

  /** The first chunk reaches the target start in the ceiling count of chunks. */
  lemma FirstChunk(from: int, to: int, u: int, maxSlots: int)
    requires from < to && 0 < u && 1 <= maxSlots && (to - from) % u == 0
    ensures
      var first := Max(from, to - maxSlots * u);
      from <= first < to && CeilDiv(to - from, to - first) == CeilDiv((to - from) / u, maxSlots)
  {
    var bound := maxSlots * u;
    ProductGrows(u, maxSlots);
    assert bound == u * maxSlots;
    var slots := (to - from) / u;
    assert to - from == slots * u;
    if from >= to - bound {
      CeilOne(to - from, to - from);
      assert 0 < slots by { ProductGrows(u, -slots); assert u * -slots == -(slots * u); }
      assert slots <= maxSlots by {
        ProductGrows(u, slots - maxSlots);
        assert u * (slots - maxSlots) == slots * u - bound;
      }
      CeilOne(slots, maxSlots);
    } else {
      CeilScales(slots, maxSlots, u);
    }
  }

  // ----- the next chunk ----------------------------------------------------

  predicate Progressed(outcome: Outcome) {
    outcome.status.Committed? || outcome.writtenBars > 0 || outcome.deletedBars > 0 || outcome.coverageExpanded
  }

  /** The outcome lets the walk move on to older instants. */
  predicate Advances(outcome: Outcome) {
    (outcome.status.Committed? || outcome.status.NoChange?) && Progressed(outcome)
  }

  /** The next older chunk of the same envelope, if the walk continues. */
  function Continuation(intent: Intent, outcome: Outcome): Option<Intent> {
    if intent.identity.resolution.ProviderResponse? then None
    else if !Advances(outcome) || intent.startsAt <= intent.targetStartsAt then None
    else
      var nextEnd := intent.startsAt;
      Some(intent.(
        startsAt := Max(intent.targetStartsAt, nextEnd - intent.Span()),
        endsAt := nextEnd,
        canonicalGeneration := if outcome.generation.Some? then outcome.generation.value
                               else intent.canonicalGeneration))
  }

  /** The next chunk is adjacent, no longer, full unless it is the last, and
      leaves one chunk less to walk. */
  lemma ContinuationShape(intent: Intent, outcome: Outcome)
    requires intent.Nested() && Continuation(intent, outcome).Some?
    ensures
      var next := Continuation(intent, outcome).value;
      && next.Nested()
      && next.endsAt == intent.startsAt
      && next.Span() <= intent.Span()
      && (next.startsAt == next.targetStartsAt || next.Span() == intent.Span())
      && ChunksLeft(next) == ChunksLeft(intent) - 1
  {
    var next := Continuation(intent, outcome).value;
    var a, b := intent.endsAt - intent.targetStartsAt, intent.Span();
    CeilStep(a, b);
    if next.startsAt == next.targetStartsAt {
      CeilOne(a - b, b);
      CeilOne(a - b, next.Span());
    }
  }

  /** The rebuilt intent passes every constructor check again, is adjacent, no
      longer than its predecessor, and leaves one chunk less to walk. */
  lemma ContinuationIsLegal(intent: Intent, outcome: Outcome, now: int)
    requires intent.Valid(now) && Continuation(intent, outcome).Some?
    ensures
      var next := Continuation(intent, outcome).value;
      && next.Valid(now)
      && next.endsAt == intent.startsAt
      && next.Span() <= intent.Span()
      && (next.startsAt == next.targetStartsAt || next.Span() == intent.Span())
      && ChunksLeft(next) == ChunksLeft(intent) - 1
  {
    ContinuationShape(intent, outcome);
    AlignedDistance(intent.timeframe, intent.endsAt, intent.startsAt);
    AlignedDistance(intent.timeframe, intent.startsAt, intent.startsAt - intent.Span());
  }

  lemma ChunksLeftPositive(intent: Intent)
    requires intent.Nested()
    ensures ChunksLeft(intent) >= 1
    ensures ChunksLeft(intent) == 1 <==> intent.startsAt == intent.targetStartsAt
  {
    var a, b := intent.endsAt - intent.targetStartsAt, intent.Span();
    if a > b {
      CeilStep(a, b);
    } else {
      CeilOne(a, b);
    }
  }

  /** `remaining_range` is the part the walk will still visit exactly when the
      chunk itself was provider-complete. A committed but incomplete chunk also
      moves the walk on, while its own range stays listed as unsettled. */
  lemma RemainingIsStillToCome(intent: Intent, outcome: Outcome, now: int)
    requires intent.Valid(now) && outcome.intent == intent
    requires intent.identity.resolution.Exact? && Advances(outcome)
    ensures
      var toCome := match Continuation(intent, outcome)
        case None => None
        case Some(next) => Some((next.targetStartsAt, next.endsAt));
      outcome.RemainingRange() == toCome <==> outcome.ChunkComplete()
  {
  }

  /** Why the commit owner must not report a partial answer as committed: the walk
      would go on below the chunk while its own instants stay listed as remaining. */
  lemma UndemotedPartialIsLeftBehind(intent: Intent, outcome: Outcome, now: int)
    requires intent.Valid(now) && intent.identity.resolution.Exact? && intent.targetStartsAt < intent.startsAt
    requires outcome.intent == intent && outcome.status.Committed? && outcome.terminal == Some(Terminal.Incomplete)
    ensures
      var next := Continuation(intent, outcome);
      && next.Some?
      && outcome.RemainingRange() == Some((intent.targetStartsAt, intent.endsAt))
      && forall t :: ChunkHolds(intent, t) ==> next.value.endsAt <= t < outcome.RemainingRange().value.1
  {
    RemainingIsStillToCome(intent, outcome, now);
  }

  // ----- whole walks -------------------------------------------------------

  /** The chunks attempted when the attempts end as given, first chunk first. */
  function Walk(intent: Intent, outcomes: seq<Outcome>): seq<Intent>
    decreases |outcomes|
  {
    if outcomes == [] || Continuation(intent, outcomes[0]).None? then [intent]
    else [intent] + Walk(Continuation(intent, outcomes[0]).value, outcomes[1..])
  }

  /** Adjacent chunks of one envelope, newest first, none longer than the first. */
  ghost predicate Descends(chunks: seq<Intent>, now: int) {
    && chunks != []
    && (forall i :: 0 <= i < |chunks| ==> chunks[i].Valid(now) && chunks[i].Span() <= chunks[0].Span())
    && (forall i :: 0 < i < |chunks| ==>
          && chunks[i].endsAt == chunks[i - 1].startsAt
          && chunks[i] == chunks[0].(startsAt := chunks[i].startsAt, endsAt := chunks[i].endsAt,
                                     canonicalGeneration := chunks[i].canonicalGeneration))
  }

  /** A legal next chunk in front of a descending run gives a longer one. */
  lemma DescendsFrom(intent: Intent, rest: seq<Intent>, now: int)
    requires intent.Valid(now) && Descends(rest, now)
    requires rest[0].endsAt == intent.startsAt && rest[0].Span() <= intent.Span()
    requires rest[0] == intent.(startsAt := rest[0].startsAt, endsAt := rest[0].endsAt,
                                canonicalGeneration := rest[0].canonicalGeneration)
    ensures Descends([intent] + rest, now)
  {
    var chunks := [intent] + rest;
    forall i | 0 < i < |chunks|
      ensures chunks[i].Valid(now) && chunks[i].Span() <= intent.Span()
      ensures chunks[i].endsAt == chunks[i - 1].startsAt
      ensures chunks[i] == intent.(startsAt := chunks[i].startsAt, endsAt := chunks[i].endsAt,
                                   canonicalGeneration := chunks[i].canonicalGeneration)
    {
      var k := i - 1;
      assert chunks[i] == rest[k];
      assert rest[k].Valid(now) && rest[k].Span() <= rest[0].Span();
      if k > 0 {
        assert rest[k].endsAt == rest[k - 1].startsAt;
      }
    }
  }

  /** Every walk is a descending run of at most `ChunksLeft` chunks, however its
      attempts end; it reaches the target start exactly when it has that length. */
  lemma {:induction false} WalkDescends(intent: Intent, outcomes: seq<Outcome>, now: int)
    requires intent.Valid(now)
    ensures
      var chunks := Walk(intent, outcomes);
      && Descends(chunks, now) && chunks[0] == intent
      && 1 <= |chunks| <= ChunksLeft(intent)
      && (chunks[|chunks| - 1].startsAt == intent.targetStartsAt <==> |chunks| == ChunksLeft(intent))
    decreases |outcomes|
  {
    ChunksLeftPositive(intent);
    if outcomes == [] || Continuation(intent, outcomes[0]).None? {
      assert Walk(intent, outcomes) == [intent];
    } else {
      var next := Continuation(intent, outcomes[0]).value;
      ContinuationIsLegal(intent, outcomes[0], now);
      WalkDescends(next, outcomes[1..], now);
      var rest := Walk(next, outcomes[1..]);
      DescendsFrom(intent, rest, now);
      assert Walk(intent, outcomes) == [intent] + rest;
    }
  }

  /** When every attempt advances, the walk visits the whole target in exactly
      `ChunksLeft` chunks. */
  lemma {:induction false} AdvancingWalkFinishes(intent: Intent, outcomes: seq<Outcome>, now: int)
    requires intent.Valid(now) && intent.identity.resolution.Exact?
    requires forall i :: 0 <= i < |outcomes| ==> Advances(outcomes[i])
    requires |outcomes| >= ChunksLeft(intent)
    ensures |Walk(intent, outcomes)| == ChunksLeft(intent)
    decreases |outcomes|
  {
    ChunksLeftPositive(intent);
    if Continuation(intent, outcomes[0]).Some? {
      ContinuationIsLegal(intent, outcomes[0], now);
      AdvancingWalkFinishes(Continuation(intent, outcomes[0]).value, outcomes[1..], now);
    }
  }

  predicate ChunkHolds(chunk: Intent, t: int) {
    chunk.startsAt <= t < chunk.endsAt
  }

  /** The chunks visited are disjoint and together are everything from the last
      chunk's start to the first chunk's end. */
  lemma DescentPartitions(chunks: seq<Intent>, now: int, t: int)
    requires Descends(chunks, now)
    ensures (exists i :: 0 <= i < |chunks| && ChunkHolds(chunks[i], t))
       <==> chunks[|chunks| - 1].startsAt <= t < chunks[0].endsAt
    ensures forall i, j :: 0 <= i < j < |chunks| ==> !(ChunkHolds(chunks[i], t) && ChunkHolds(chunks[j], t))
  {
    DescentHolds(chunks, now, t);
    forall i, j | 0 <= i < j < |chunks| ensures !(ChunkHolds(chunks[i], t) && ChunkHolds(chunks[j], t)) {
      LaterIsBelow(chunks, now, i, j);
    }
  }

  lemma {:induction false} LaterIsBelow(chunks: seq<Intent>, now: int, i: nat, j: nat)
    requires Descends(chunks, now) && i < j < |chunks|
    ensures chunks[j].endsAt <= chunks[i].startsAt
    decreases j
  {
    assert chunks[j - 1].startsAt == chunks[j].endsAt;
    if i < j - 1 {
      LaterIsBelow(chunks, now, i, j - 1);
      assert chunks[j - 1].startsAt < chunks[j - 1].endsAt;
    }
  }

  ghost predicate SomeHolds(chunks: seq<Intent>, t: int) {
    exists i :: 0 <= i < |chunks| && ChunkHolds(chunks[i], t)
  }

  lemma {:induction false} DescentHolds(chunks: seq<Intent>, now: int, t: int)
    requires Descends(chunks, now)
    ensures SomeHolds(chunks, t) <==> chunks[|chunks| - 1].startsAt <= t < chunks[0].endsAt
    decreases |chunks|
  {
    if |chunks| > 1 {
      var n := |chunks| - 1;
      var front, last := chunks[..n], chunks[n];
      assert chunks == front + [last];
      DescentHolds(front, now, t);
      StartsFall(front, now, 0);
      assert front[n - 1] == chunks[n - 1] && chunks[n - 1].startsAt == last.endsAt;
      OneMoreHolds(front, last, t);
    } else {
      assert ChunkHolds(chunks[0], t) <==> chunks[0].startsAt <= t < chunks[0].endsAt;
    }
  }

  lemma OneMoreHolds(front: seq<Intent>, last: Intent, t: int)
    ensures SomeHolds(front + [last], t) <==> SomeHolds(front, t) || ChunkHolds(last, t)
  {
    var chunks := front + [last];
    if i :| 0 <= i < |front| && ChunkHolds(front[i], t) {
      assert ChunkHolds(chunks[i], t);
    }
    if ChunkHolds(last, t) {
      assert ChunkHolds(chunks[|front|], t);
    }
  }

  lemma {:induction false} StartsFall(chunks: seq<Intent>, now: int, i: nat)
    requires Descends(chunks, now) && i < |chunks|
    ensures chunks[|chunks| - 1].startsAt <= chunks[i].startsAt
    decreases |chunks| - i
  {
    if i + 1 < |chunks| {
      StartsFall(chunks, now, i + 1);
    }
  }

  // ----- receipts ----------------------------------------------------------

  function ContractOf(intent: Intent): Cov.Contract {
    Cov.Contract(intent.provider, intent.instrumentId, intent.routeFingerprint, intent.timeframe,
      Cov.RECEIPT_CONTRACT_VERSION, Cov.REQUEST_CONTRACT_VERSION, Cov.ADMISSION_CONTRACT_VERSION,
      intent.identity.requestMode, intent.identity.providerSource, intent.identity.providerContractId,
      intent.identity.providerContractType, intent.identity.dataType)
  }

  predicate CurrentVersions(identity: RequestIdentity) {
    && identity.requestContractVersion == Cov.REQUEST_CONTRACT_VERSION
    && identity.admissionContractVersion == Cov.ADMISSION_CONTRACT_VERSION
  }

  function ReceiptOf(intent: Intent, piece: Completion): Cov.Receipt {
    Cov.Receipt(ContractOf(intent), piece.startsAt, piece.endsAt, piece.responseCount, piece.completedAt,
      piece.providerLimit)
  }

  /** One receipt per completion of an exact, current-version result. */
  function CoverageReceipts(result: FetchResult): Result<seq<Cov.Receipt>> {
    if !result.intent.identity.resolution.Exact? then
      Failure("HISTORY_REPAIR_EXACT_COVERAGE_IDENTITY_REQUIRED")
    else if !CurrentVersions(result.intent.identity) then
      Failure("HISTORY_REPAIR_COVERAGE_CONTRACT_VERSION_MISMATCH")
    else
      Success(seq(|result.completions|, i requires 0 <= i < |result.completions| =>
        ReceiptOf(result.intent, result.completions[i])))
  }

  function TotalCount(receipts: seq<Cov.Receipt>): nat {
    if receipts == [] then 0 else TotalCount(receipts[..|receipts| - 1]) + receipts[|receipts| - 1].responseCount
  }

  /** A result that passed the constructor. */
  ghost predicate IsAdmitted(result: FetchResult, now: int) {
    exists raw: RawResult ::
      && raw.Admissible()
      && (forall i :: 0 <= i < |raw.completions| ==> raw.completions[i].Valid())
      && result == Admitted(raw)
      && raw.intent.Valid(now)
  }

  lemma {:induction false} PieceHolding(completions: seq<Completion>, n: nat, t: int)
    requires 0 < n <= |completions| && Chained(completions)
    ensures completions[0].startsAt <= t < completions[n - 1].endsAt
       <==> exists i :: 0 <= i < n && completions[i].startsAt <= t < completions[i].endsAt
  {
    if n > 1 {
      PieceHolding(completions, n - 1, t);
      PiecesStayInside(completions[..n], n - 1);
    }
  }

  lemma {:induction false} CountsAgree(result: FetchResult, n: nat)
    requires CoverageReceipts(result).Success? && n <= |result.completions|
    ensures TotalCount(CoverageReceipts(result).value[..n]) == TotalResponses(result.completions[..n])
  {
    var receipts := CoverageReceipts(result).value;
    if n > 0 {
      assert receipts[..n][..n - 1] == receipts[..n - 1];
      assert result.completions[..n][..n - 1] == result.completions[..n - 1];
      CountsAgree(result, n - 1);
    }
  }

  /** What admission says about an exact complete result. */
  lemma AdmittedPieces(result: FetchResult, now: int)
    requires IsAdmitted(result, now) && result.terminal.Complete? && result.intent.identity.resolution.Exact?
    ensures Partitions(result.completions, result.intent, result.bars)
    ensures forall i :: 0 <= i < |result.completions| ==> result.completions[i].Valid()
    ensures forall b :: b in result.bars ==> result.intent.startsAt <= b.ts < result.intent.endsAt
  {
    var raw: RawResult :|
      && raw.Admissible()
      && (forall i :: 0 <= i < |raw.completions| ==> raw.completions[i].Valid())
      && result == Admitted(raw)
      && raw.intent.Valid(now);
    SortedFacts(raw);
    forall i | 0 <= i < |result.completions| ensures result.completions[i].Valid() {
      assert result.completions[i] in raw.completions;
    }
    forall b | b in result.bars ensures result.intent.startsAt <= b.ts < result.intent.endsAt {
      assert b in raw.bars;
    }
  }

  lemma ReceiptsCoverPieces(result: FetchResult, t: int)
    requires CoverageReceipts(result).Success?
    requires Partitions(result.completions, result.intent, result.bars)
    ensures Cov.Covered(t, CoverageReceipts(result).value) <==> ChunkHolds(result.intent, t)
  {
    var pieces, receipts := result.completions, CoverageReceipts(result).value;
    PieceHolding(pieces, |pieces|, t);
    if i :| 0 <= i < |receipts| && receipts[i].Covers(t) {
      assert pieces[i].startsAt <= t < pieces[i].endsAt;
    }
    if i :| 0 <= i < |pieces| && pieces[i].startsAt <= t < pieces[i].endsAt {
      assert receipts[i].Covers(t);
    }
  }

  /** Receipts of an admitted complete result cover exactly its chunk, carry one
      contract, and their counts add up to the bars delivered. */
  lemma CompleteResultCoversChunk(result: FetchResult, now: int)
    requires IsAdmitted(result, now) && result.terminal.Complete?
    requires result.intent.identity.resolution.Exact? && CurrentVersions(result.intent.identity)
    ensures
      var receipts := CoverageReceipts(result).value;
      && Cov.AllValid(receipts)
      && (forall r :: r in receipts ==> r.contract == ContractOf(result.intent))
      && (forall t :: Cov.Covered(t, receipts) <==> ChunkHolds(result.intent, t))
      && TotalCount(receipts) == |result.bars|
  {
    var pieces, receipts := result.completions, CoverageReceipts(result).value;
    AdmittedPieces(result, now);
    PartitionCountsEveryBar(pieces, result.intent, result.bars);
    CountsAgree(result, |pieces|);
    assert receipts[..|receipts|] == receipts && pieces[..|pieces|] == pieces;
    forall t ensures Cov.Covered(t, receipts) <==> ChunkHolds(result.intent, t) {
      ReceiptsCoverPieces(result, t);
    }
  }

  /** What one attempt hands to the commit owner under exact snapshot authority. */
  function ReceiptsToCommit(result: FetchResult): seq<Cov.Receipt> {
    if result.terminal.Complete? && CoverageReceipts(result).Success? then CoverageReceipts(result).value else []
  }

  function AllReceipts(results: seq<FetchResult>): seq<Cov.Receipt> {
    if results == [] then []
    else AllReceipts(results[..|results| - 1]) + ReceiptsToCommit(results[|results| - 1])
  }

  lemma CoveredByEither(t: int, a: seq<Cov.Receipt>, b: seq<Cov.Receipt>)
    ensures Cov.Covered(t, a + b) <==> Cov.Covered(t, a) || Cov.Covered(t, b)
  {
    if i :| 0 <= i < |a| && a[i].Covers(t) {
      assert (a + b)[i].Covers(t);
    }
    if i :| 0 <= i < |b| && b[i].Covers(t) {
      assert (a + b)[|a| + i].Covers(t);
    }
  }

  /** Each result answers its chunk, exactly and in the current contract. */
  ghost predicate Answers(results: seq<FetchResult>, chunks: seq<Intent>, now: int) {
    && |results| == |chunks|
    && forall i :: 0 <= i < |results| ==>
         && results[i].intent == chunks[i]
         && IsAdmitted(results[i], now)
         && chunks[i].identity.resolution.Exact?
         && CurrentVersions(chunks[i].identity)
  }

  /** The instant lies in a chunk whose result came back complete. */
  ghost predicate Settled(results: seq<FetchResult>, t: int) {
    exists i :: 0 <= i < |results| && results[i].terminal.Complete? && ChunkHolds(results[i].intent, t)
  }

  lemma SettledExtends(results: seq<FetchResult>, t: int)
    requires results != []
    ensures
      var n := |results| - 1;
      Settled(results, t) <==>
        Settled(results[..n], t) || (results[n].terminal.Complete? && ChunkHolds(results[n].intent, t))
  {
    var n := |results| - 1;
    if i :| 0 <= i < n && results[..n][i].terminal.Complete? && ChunkHolds(results[..n][i].intent, t) {
      assert results[i].terminal.Complete? && ChunkHolds(results[i].intent, t);
    }
    if i :| 0 <= i < |results| && results[i].terminal.Complete? && ChunkHolds(results[i].intent, t) {
      assert i < n ==> results[..n][i].terminal.Complete? && ChunkHolds(results[..n][i].intent, t);
    }
  }

  lemma {:induction false} ReceiptsCoverSettled(results: seq<FetchResult>, chunks: seq<Intent>, contract: Cov.Contract, now: int)
    requires Answers(results, chunks, now)
    requires forall i :: 0 <= i < |chunks| ==> ContractOf(chunks[i]) == contract
    ensures forall t :: Cov.Covered(t, AllReceipts(results)) <==> Settled(results, t)
    ensures Cov.AllValid(AllReceipts(results))
    ensures forall r :: r in AllReceipts(results) ==> r.contract == contract
    decreases |results|
  {
    if results != [] {
      var n := |results| - 1;
      var last := results[n];
      ReceiptsCoverSettled(results[..n], chunks[..n], contract, now);
      if last.terminal.Complete? {
        CompleteResultCoversChunk(last, now);
      }
      var added := ReceiptsToCommit(last);
      forall t ensures Cov.Covered(t, AllReceipts(results)) <==> Settled(results, t) {
        CoveredByEither(t, AllReceipts(results[..n]), added);
        SettledExtends(results, t);
        assert Cov.Covered(t, added) <==> last.terminal.Complete? && ChunkHolds(last.intent, t);
      }
    }
  }

  lemma DescentInstants(chunks: seq<Intent>, results: seq<FetchResult>, now: int, t: int)
    requires Descends(chunks, now) && Answers(results, chunks, now)
    ensures (forall i :: 0 <= i < |results| ==> results[i].terminal.Complete?) ==>
      (Settled(results, t) <==> chunks[|chunks| - 1].startsAt <= t < chunks[0].endsAt)
    ensures Settled(results, t) ==> chunks[|chunks| - 1].startsAt <= t < chunks[0].endsAt
  {
    DescentPartitions(chunks, now, t);
    if i :| 0 <= i < |chunks| && ChunkHolds(chunks[i], t) {
      assert results[i].intent == chunks[i];
    }
    if i :| 0 <= i < |results| && results[i].terminal.Complete? && ChunkHolds(results[i].intent, t) {
      assert ChunkHolds(chunks[i], t);
    }
  }

  lemma SettledStart(chunks: seq<Intent>, results: seq<FetchResult>, now: int, k: nat)
    requires Descends(chunks, now) && Answers(results, chunks, now) && k < |results|
    requires Settled(results, chunks[k].startsAt)
    ensures results[k].terminal.Complete?
  {
    var t := chunks[k].startsAt;
    DescentPartitions(chunks, now, t);
    assert ChunkHolds(chunks[k], t);
    var i :| 0 <= i < |results| && results[i].terminal.Complete? && ChunkHolds(results[i].intent, t);
    assert ChunkHolds(chunks[i], t);
    assert i == k;
  }

  predicate AllComplete(results: seq<FetchResult>) {
    forall i :: 0 <= i < |results| ==> results[i].terminal.Complete?
  }

  lemma OneRangeInstants(from: int, to: int, t: int)
    ensures Cov.InRanges(t, [Cov.Range(from, to)]) <==> from <= t < to
  {
    assert [Cov.Range(from, to)][0].Holds(t) <==> from <= t < to;
  }

  lemma {:induction false} CompleteDescentCovers(chunks: seq<Intent>, results: seq<FetchResult>, from: int, to: int, now: int)
    requires Descends(chunks, now) && Answers(results, chunks, now) && AllComplete(results)
    requires from == chunks[|chunks| - 1].startsAt && to == chunks[0].endsAt
    requires forall t :: Cov.Covered(t, AllReceipts(results)) <==> Settled(results, t)
    ensures Cov.IsUnion([Cov.Range(from, to)], AllReceipts(results))
  {
    StartsFall(chunks, now, 0);
    forall t ensures Cov.InRanges(t, [Cov.Range(from, to)]) <==> Cov.Covered(t, AllReceipts(results)) {
      OneRangeInstants(from, to, t);
      DescentInstants(chunks, results, now, t);
    }
  }

  lemma CoveringDescentIsComplete(chunks: seq<Intent>, results: seq<FetchResult>, from: int, to: int, now: int)
    requires Descends(chunks, now) && Answers(results, chunks, now)
    requires from == chunks[|chunks| - 1].startsAt && to == chunks[0].endsAt
    requires forall t :: Cov.Covered(t, AllReceipts(results)) <==> Settled(results, t)
    requires Cov.IsUnion([Cov.Range(from, to)], AllReceipts(results))
    ensures AllComplete(results)
  {
    forall k | 0 <= k < |results| ensures results[k].terminal.Complete? {
      var t := chunks[k].startsAt;
      DescentPartitions(chunks, now, t);
      assert ChunkHolds(chunks[k], t);
      OneRangeInstants(from, to, t);
      assert Cov.Covered(t, AllReceipts(results));
      SettledStart(chunks, results, now, k);
    }
  }

  /** End to end: the receipts committed along a walk that reaches the target
      start merge to the single interval from the target start to the first
      chunk's end exactly when every chunk came back complete. Moving past a
      committed but incomplete chunk is never papered over. */
  lemma WalkCoversTarget(intent: Intent, outcomes: seq<Outcome>, results: seq<FetchResult>, now: int)
    requires intent.Valid(now)
    requires |Walk(intent, outcomes)| == ChunksLeft(intent)
    requires Answers(results, Walk(intent, outcomes), now)
    ensures Cov.OneContract(AllReceipts(results)) && Cov.AllValid(AllReceipts(results))
    ensures Cov.IsUnion([Cov.Range(intent.targetStartsAt, intent.endsAt)], AllReceipts(results))
       <==> AllComplete(results)
  {
    var chunks := Walk(intent, outcomes);
    var from, to := intent.targetStartsAt, intent.endsAt;
    WalkDescends(intent, outcomes, now);
    ReceiptsCoverSettled(results, chunks, ContractOf(intent), now);
    if AllComplete(results) {
      CompleteDescentCovers(chunks, results, from, to, now);
    }
    if Cov.IsUnion([Cov.Range(from, to)], AllReceipts(results)) {
      CoveringDescentIsComplete(chunks, results, from, to, now);
    }
  }
}
