/** The typed history-repair vocabulary: intents, completions, results, outcomes. */
module HistoryContract {
  import opened Wrappers
  import opened Sorting
  import opened Timeframes

  // Constructors that raise in the source become `Valid` predicates or methods that
  // return a `Result`; the current time is a parameter.

  datatype Resolution = Exact | ProviderResponse

  datatype Priority = Foreground | Background {
    function Rank(): int {
      if Foreground? then 0 else 1
    }
  }

  datatype Terminal = Complete | Incomplete | RollingComplete | RollingPartial | Malformed

  datatype OutcomeStatus =
    | Committed
    | NoChange
    | Incomplete
    | Malformed
    | StaleGeneration
    | StaleRoute
    | FetchFailed
    | StorageFailed
    | CommitFailed
    | CommitQueueFull
    | Cancelled
    | Superseded

  datatype RequestIdentity = RequestIdentity(
    requestContractVersion: int,
    admissionContractVersion: int,
    requestMode: string,
    providerSource: string,
    providerContractId: string,
    providerContractType: string,
    dataType: string,
    resolution: Resolution
  ) {
    predicate Valid() {
      && requestContractVersion > 0 && admissionContractVersion > 0
      && requestMode != "" && providerSource != "" && providerContractType != ""
      && (if resolution.Exact? then providerContractId != ""
          else providerContractId == "" && providerContractType == "CONTFUT")
      && dataType == "TRADES"
    }
  }

  /** One provider-bounded chunk of one closed repair envelope. */
  datatype Intent = Intent(
    provider: string,
    instrumentId: string,
    routeFingerprint: string,
    timeframe: Timeframe,
    startsAt: int,
    endsAt: int,
    identity: RequestIdentity,
    canonicalGeneration: nat,
    priority: Priority,
    cooldown: nat,
    targetStartsAt: int,
    targetEndsAt: int
  ) {
    predicate Valid(now: int) {
      && provider != "" && instrumentId != "" && routeFingerprint != ""
      && timeframe.Aligned(startsAt) && timeframe.Aligned(endsAt)
      && timeframe.Aligned(targetStartsAt) && timeframe.Aligned(targetEndsAt)
      && Nested() && targetEndsAt <= now
      && identity.Valid()
    }

    /** A non-empty chunk inside its target envelope. */
    predicate Nested() {
      targetStartsAt <= startsAt < endsAt <= targetEndsAt
    }

    function Span(): int {
      endsAt - startsAt
    }
  }

  datatype Completion = Completion(
    startsAt: int,
    endsAt: int,
    responseCount: nat,
    completedAt: int,
    providerSource: string,
    requestLimit: Option<int>,
    providerLimit: Option<int>
  ) {
    predicate Valid() {
      && startsAt < endsAt <= completedAt
      && providerSource != ""
      && (requestLimit.Some? ==> 0 < requestLimit.value && responseCount < requestLimit.value)
      && (providerLimit.Some? ==> 0 < providerLimit.value && responseCount < providerLimit.value)
    }
  }

  datatype Provenance = Provenance(
    provider: string,
    instrumentId: string,
    routeFingerprint: string,
    historical: bool,
    providerContractId: string,
    providerContractType: string,
    dataType: string
  )

  datatype HistoryBar = HistoryBar(
    ts: int,
    timeframe: Timeframe,
    confirmed: bool,
    closed: bool,
    provenance: Option<Provenance>
  )

  datatype FetchResult = FetchResult(
    intent: Intent,
    terminal: Terminal,
    bars: seq<HistoryBar>,
    completions: seq<Completion>,
    errorCode: Option<string>,
    resolvedContractId: Option<string>,
    response: Option<(int, int)>
  )

  const BAR_KEY: HistoryBar -> Key := (b: HistoryBar) => Key(b.ts, 0)
  const COMPLETION_KEY: Completion -> Key := (c: Completion) => Key(c.startsAt, c.endsAt)

  predicate UniqueTimes(bars: seq<HistoryBar>) {
    forall i, j :: 0 <= i < j < |bars| ==> bars[i].ts != bars[j].ts
  }

  /** The per-bar authority check; `contractId` is the identity's own id, or the
      resolved one for a rolling contract. */
  predicate BarMatches(bar: HistoryBar, intent: Intent, contractId: string) {
    && bar.confirmed && bar.closed
    && bar.timeframe == intent.timeframe
    && intent.startsAt <= bar.ts < intent.endsAt
    && bar.provenance.Some?
    && bar.provenance.value == Provenance(intent.provider, intent.instrumentId, intent.routeFingerprint,
         true, contractId, intent.identity.providerContractType, intent.identity.dataType)
  }

  function CountIn(bars: seq<HistoryBar>, from: int, to: int): (r: nat)
    ensures r <= |bars|
  {
    if bars == [] then 0
    else (if from <= bars[0].ts < to then 1 else 0) + CountIn(bars[1..], from, to)
  }

  function TotalResponses(completions: seq<Completion>): nat {
    if completions == [] then 0
    else TotalResponses(completions[..|completions| - 1]) + completions[|completions| - 1].responseCount
  }

  /** Requested source, aligned bounds, and a count equal to the bars inside. */
  predicate PieceFits(piece: Completion, intent: Intent, bars: seq<HistoryBar>) {
    && piece.providerSource == intent.identity.providerSource
    && intent.timeframe.Aligned(piece.startsAt)
    && intent.timeframe.Aligned(piece.endsAt)
    && piece.responseCount == CountIn(bars, piece.startsAt, piece.endsAt)
  }

  /** Every piece is non-empty and starts where the previous one ended. */
  ghost predicate Chained(completions: seq<Completion>) {
    && (forall i :: 0 <= i < |completions| ==> completions[i].startsAt < completions[i].endsAt)
    && (forall i :: 0 < i < |completions| ==> completions[i].startsAt == completions[i - 1].endsAt)
  }

  /** The completions are one partition of the chunk into aligned pieces of the
      requested source, each reporting exactly the bars inside it. */
  ghost predicate Partitions(completions: seq<Completion>, intent: Intent, bars: seq<HistoryBar>) {
    && completions != []
    && completions[0].startsAt == intent.startsAt
    && completions[|completions| - 1].endsAt == intent.endsAt
    && Chained(completions)
    && (forall i :: 0 <= i < |completions| ==> PieceFits(completions[i], intent, bars))
  }

  lemma {:induction false} CountSplits(bars: seq<HistoryBar>, from: int, mid: int, to: int)
    requires from <= mid <= to
    ensures CountIn(bars, from, to) == CountIn(bars, from, mid) + CountIn(bars, mid, to)
  {
    if bars != [] {
      CountSplits(bars[1..], from, mid, to);
    }
  }

  lemma {:induction false} CountAll(bars: seq<HistoryBar>, from: int, to: int)
    requires forall b :: b in bars ==> from <= b.ts < to
    ensures CountIn(bars, from, to) == |bars|
  {
    if bars != [] {
      CountAll(bars[1..], from, to);
    }
  }

  lemma {:induction false} PrefixCounts(completions: seq<Completion>, intent: Intent, bars: seq<HistoryBar>, n: nat)
    requires 0 < n <= |completions| && Chained(completions)
    requires forall i :: 0 <= i < |completions| ==> PieceFits(completions[i], intent, bars)
    ensures completions[0].startsAt < completions[n - 1].endsAt
    ensures TotalResponses(completions[..n]) == CountIn(bars, completions[0].startsAt, completions[n - 1].endsAt)
  {
    assert completions[..n][..n - 1] == completions[..n - 1];
    if n == 1 {
      assert TotalResponses(completions[..0]) == 0;
    } else {
      PrefixCounts(completions, intent, bars, n - 1);
      CountSplits(bars, completions[0].startsAt, completions[n - 2].endsAt, completions[n - 1].endsAt);
    }
  }

  /** A partition accounts for every bar: the constructor's separate comparison
      of the admitted count with the number of bars can never be the one that fails. */
  lemma PartitionCountsEveryBar(completions: seq<Completion>, intent: Intent, bars: seq<HistoryBar>)
    requires Partitions(completions, intent, bars)
    requires forall b :: b in bars ==> intent.startsAt <= b.ts < intent.endsAt
    ensures TotalResponses(completions) == |bars|
  {
    PrefixCounts(completions, intent, bars, |completions|);
    assert completions[..|completions|] == completions;
    CountAll(bars, intent.startsAt, intent.endsAt);
  }

  lemma {:induction false} PiecesStayInside(completions: seq<Completion>, n: nat)
    requires n < |completions| && Chained(completions)
    ensures completions[0].startsAt <= completions[n].startsAt
    ensures completions[n].endsAt <= completions[|completions| - 1].endsAt
    decreases |completions|
  {
    var last := |completions| - 1;
    if last > 0 {
      var front := completions[..last];
      PiecesStayInside(front, if n < last then n else last - 1);
    }
  }

  /** The loop that walks a cursor over the sorted completions. */
  method CompletionsTile(intent: Intent, completions: seq<Completion>, bars: seq<HistoryBar>) returns (ok: bool)
    requires forall i :: 0 <= i < |completions| ==> completions[i].Valid()
    requires forall b :: b in bars ==> intent.startsAt <= b.ts < intent.endsAt
    ensures ok <==> Partitions(completions, intent, bars)
  {
    if completions == [] {
      return false;
    }
    var cursor := intent.startsAt;
    var admittedCount := 0;
    for i := 0 to |completions|
      invariant cursor == if i == 0 then intent.startsAt else completions[i - 1].endsAt
      invariant i > 0 ==> completions[0].startsAt == intent.startsAt
      invariant forall k :: 0 < k < i ==> completions[k].startsAt == completions[k - 1].endsAt
      invariant forall k :: 0 <= k < i ==> PieceFits(completions[k], intent, bars)
      invariant admittedCount == TotalResponses(completions[..i])
    {
      var piece := completions[i];
      if piece.startsAt != cursor {
        return false;
      }
      if piece.endsAt > intent.endsAt {
        if Chained(completions) {
          PiecesStayInside(completions, i);
        }
        return false;
      }
      if
        || piece.providerSource != intent.identity.providerSource
        || !intent.timeframe.Aligned(piece.startsAt)
        || !intent.timeframe.Aligned(piece.endsAt)
      {
        assert !PieceFits(piece, intent, bars);
        return false;
      }
      var chunkCount := CountIn(bars, piece.startsAt, piece.endsAt);
      if chunkCount != piece.responseCount {
        assert !PieceFits(piece, intent, bars);
        return false;
      }
      assert completions[..i + 1][..i] == completions[..i];
      admittedCount := admittedCount + chunkCount;
      cursor := piece.endsAt;
    }
    assert completions[..|completions|] == completions;
    if cursor == intent.endsAt {
      PartitionCountsEveryBar(completions, intent, bars);
    }
    ok := cursor == intent.endsAt && admittedCount == |bars|;
  }

  /** What an adapter hands over before the result is admitted. */
  datatype RawResult = RawResult(
    intent: Intent,
    terminal: Terminal,
    bars: seq<HistoryBar>,
    completions: seq<Completion>,
    errorCode: Option<string>,
    resolvedContractId: Option<string>,
    response: Option<(int, int)>
  ) {
    predicate Rolling() {
      intent.identity.resolution.ProviderResponse?
    }

    predicate HasErrorCode() {
      errorCode.Some? && errorCode.value != ""
    }

    /** A rolling answer names its resolved contract; an exact one must not. */
    predicate Resolves() {
      if Rolling() then terminal.Malformed? || (resolvedContractId.Some? && resolvedContractId.value != "")
      else resolvedContractId.None?
    }

    function ContractId(): Option<string> {
      if Rolling() then resolvedContractId else Some(intent.identity.providerContractId)
    }

    predicate BarsAdmissible() {
      && UniqueTimes(bars)
      && forall b :: b in bars ==> ContractId().Some? && BarMatches(b, intent, ContractId().value)
    }

    predicate ResponseOrdered() {
      response.Some? ==> response.value.0 < response.value.1
    }

    /** Rolling answers carry no completions, and a complete one contains the chunk. */
    predicate RollingAdmissible() {
      && completions == []
      && (match terminal
          case Malformed => bars == [] && HasErrorCode()
          case RollingComplete =>
            && response.Some? && errorCode.None?
            && response.value.0 <= intent.startsAt && intent.endsAt <= response.value.1
          case RollingPartial => (bars == [] || response.Some?) && HasErrorCode()
          case _ => false)
    }

    /** Exact answers: only a complete one carries completions, and they partition the chunk. */
    ghost predicate ExactAdmissible() {
      && response.None?
      && (match terminal
          case Complete =>
            && errorCode.None?
            && Partitions(Sort(completions, COMPLETION_KEY), intent, Sort(bars, BAR_KEY))
          case Malformed => completions == [] && bars == [] && HasErrorCode()
          case _ => completions == [])
    }

    ghost predicate Admissible() {
      && BarsAdmissible() && Resolves() && ResponseOrdered()
      && if Rolling() then RollingAdmissible() else ExactAdmissible()
    }
  }

  /** Sorting changes neither which values are present nor whether there are any. */
  lemma SortedFacts(raw: RawResult)
    ensures forall b :: b in Sort(raw.bars, BAR_KEY) <==> b in raw.bars
    ensures Sort(raw.bars, BAR_KEY) == [] <==> raw.bars == []
    ensures forall c :: c in Sort(raw.completions, COMPLETION_KEY) <==> c in raw.completions
    ensures Sort(raw.completions, COMPLETION_KEY) == [] <==> raw.completions == []
  {
    forall b ensures b in Sort(raw.bars, BAR_KEY) <==> b in raw.bars {
      SameMembers(raw.bars, BAR_KEY, b);
    }
    forall c ensures c in Sort(raw.completions, COMPLETION_KEY) <==> c in raw.completions {
      SameMembers(raw.completions, COMPLETION_KEY, c);
    }
    if raw.bars != [] { SameMembers(raw.bars, BAR_KEY, raw.bars[0]); }
    if raw.completions != [] { SameMembers(raw.completions, COMPLETION_KEY, raw.completions[0]); }
  }

  /** The checks on a rolling answer, in the source's order. */
  method RollingError(raw: RawResult) returns (error: Option<string>)
    ensures error.None? <==> raw.RollingAdmissible()
  {
    if raw.completions != [] {
      return Some("rolling provider history cannot carry exact completions");
    }
    if raw.terminal.Malformed? {
      if raw.bars != [] {
        return Some("malformed provider history cannot carry bars");
      }
      return if raw.HasErrorCode() then None else Some("malformed provider history requires an error code");
    }
    if !raw.terminal.RollingComplete? && !raw.terminal.RollingPartial? {
      return Some("provider-response history requires a rolling terminal");
    }
    if raw.bars != [] && raw.response.None? {
      return Some("rolling provider bars require response bounds");
    }
    if raw.terminal.RollingComplete? {
      if
        || raw.response.None?
        || raw.response.value.0 > raw.intent.startsAt
        || raw.response.value.1 < raw.intent.endsAt
        || raw.errorCode.Some?
      {
        return Some("complete rolling history must contain the target range");
      }
    } else if !raw.HasErrorCode() {
      return Some("partial rolling history requires an error code");
    }
    error := None;
  }

  method CompleteError(raw: RawResult) returns (error: Option<string>)
    requires forall i :: 0 <= i < |raw.completions| ==> raw.completions[i].Valid()
    requires raw.BarsAdmissible()
    ensures error.None? <==>
      raw.errorCode.None? && Partitions(Sort(raw.completions, COMPLETION_KEY), raw.intent, Sort(raw.bars, BAR_KEY))
  {
    SortedFacts(raw);
    var completions, bars := Sort(raw.completions, COMPLETION_KEY), Sort(raw.bars, BAR_KEY);
    forall i | 0 <= i < |completions| ensures completions[i].Valid() {
      assert completions[i] in raw.completions;
    }
    var tiled := CompletionsTile(raw.intent, completions, bars);
    if !tiled {
      return Some("provider history completion coverage is incomplete");
    }
    error := if raw.errorCode.None? then None else Some("complete provider history cannot carry an error");
  }

  /** The checks on an exact answer, in the source's order. */
  method ExactError(raw: RawResult) returns (error: Option<string>)
    requires forall i :: 0 <= i < |raw.completions| ==> raw.completions[i].Valid()
    requires raw.BarsAdmissible()
    ensures error.None? <==> raw.ExactAdmissible()
  {
    if raw.response.Some? {
      return Some("exact provider history cannot carry rolling response bounds");
    }
    if raw.terminal.Complete? {
      error := CompleteError(raw);
      return;
    }
    if raw.completions != [] {
      return Some("non-complete provider history cannot carry completions");
    }
    if raw.terminal.Malformed? && (raw.bars != [] || !raw.HasErrorCode()) {
      return Some("malformed provider history requires an error code and no bars");
    }
    error := None;
  }

  /** The result constructor: admits exactly the admissible answers. */
  method AdmitResult(raw: RawResult) returns (r: Result<FetchResult>)
    requires forall i :: 0 <= i < |raw.completions| ==> raw.completions[i].Valid()
    ensures r.Success? <==> raw.Admissible()
    ensures r.Success? ==> r.value == Admitted(raw)
  {
    if !UniqueTimes(raw.bars) {
      return Failure("provider history bars must have unique timestamps");
    }
    if !raw.Resolves() {
      return Failure("resolved_provider_contract_id must match the contract resolution");
    }
    if !raw.BarsAdmissible() {
      return Failure("provider history bar contract mismatch");
    }
    if !raw.ResponseOrdered() {
      return Failure("provider history response bounds must be non-empty");
    }
    var error: Option<string>;
    if raw.Rolling() {
      error := RollingError(raw);
    } else {
      error := ExactError(raw);
    }
    r := if error.Some? then Failure(error.value) else Success(Admitted(raw));
  }

  function Admitted(raw: RawResult): FetchResult {
    FetchResult(raw.intent, raw.terminal, Sort(raw.bars, BAR_KEY), Sort(raw.completions, COMPLETION_KEY),
      raw.errorCode, raw.resolvedContractId, raw.response)
  }

  /** A committed or failed attempt on one chunk. */
  datatype Outcome = Outcome(
    status: OutcomeStatus,
    intent: Intent,
    terminal: Option<Terminal>,
    writtenBars: nat,
    deletedBars: nat,
    coverageInserted: nat,
    coverageExpanded: bool,
    generation: Option<nat>,
    errorCode: Option<string>,
    response: Option<(int, int)>
  ) {
    predicate ChunkComplete() {
      && (status.Committed? || status.NoChange?)
      && terminal.Some? && (terminal.value.Complete? || terminal.value.RollingComplete?)
    }

    /** The unsettled part of the target envelope. */
    function RemainingRange(): Option<(int, int)> {
      var end := if ChunkComplete() then intent.startsAt else intent.endsAt;
      if intent.targetStartsAt < end then Some((intent.targetStartsAt, end)) else None
    }
  }

  /** An outcome with only a status, as the lane builds for lost requests. */
  function BareOutcome(status: OutcomeStatus, intent: Intent): Outcome {
    Outcome(status, intent, None, 0, 0, 0, false, None, None, None)
  }
}
