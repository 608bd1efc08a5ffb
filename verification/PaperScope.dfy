/** The length-prefixed scope key of a paper contract, which separates any two
    identities although their parts may contain the separators. */
module PaperScope {
  import opened Wrappers
  import opened Decimals

  const PREFIX := "paper-contract-v1|"

  function EncodePart(part: string): string {
    ToText(|part|) + ":" + part
  }

  /** The encoded parts, joined by bars. */
  function EncodeParts(parts: seq<string>): string {
    if parts == [] then ""
    else if |parts| == 1 then EncodePart(parts[0])
    else EncodePart(parts[0]) + "|" + EncodeParts(parts[1..])
  }

  function ScopeKeyOf(parts: seq<string>): string {
    PREFIX + EncodeParts(parts)
  }

  // ----- reading the parts back --------------------------------------------

  /** One part and what follows it. */
  function DecodePart(s: string): (r: Option<(string, string)>)
    ensures r.Some? ==> |r.value.1| < |s|
  {
    var (digits, rest) := SpanDigits(s);
    var n := Number(digits);
    if rest == "" || rest[0] != ':' || |rest| - 1 < n then None else Some((rest[1..n + 1], rest[n + 1..]))
  }

  function DecodeParts(s: string): Option<seq<string>>
    decreases |s|
  {
    if s == "" then Some([])
    else
      var first := DecodePart(s);
      if first.None? then None
      else
        var (part, rest) := first.value;
        if rest == "" then Some([part])
        else
          var more := DecodeParts(rest[1..]);
          if rest[0] != '|' || more.None? then None else Some([part] + more.value)
  }

  lemma PartRoundTrip(part: string, rest: string)
    ensures DecodePart(EncodePart(part) + rest) == Some((part, rest))
  {
    var digits, tail := ToText(|part|), ":" + part + rest;
    ToTextIsPlain(|part|);
    assert EncodePart(part) + rest == digits + tail;
    SpanOf(digits, tail);
    assert tail[1..|part| + 1] == part && tail[|part| + 1..] == rest;
  }

  /** Parts are read back whatever characters they contain. */
  lemma {:induction false} PartsRoundTrip(parts: seq<string>)
    ensures DecodeParts(EncodeParts(parts)) == Some(parts)
  {
    if |parts| == 1 {
      PartRoundTrip(parts[0], "");
      assert parts == [parts[0]];
      assert EncodePart(parts[0]) + "" == EncodePart(parts[0]);
    } else if |parts| > 1 {
      var more := EncodeParts(parts[1..]);
      PartRoundTrip(parts[0], "|" + more);
      assert EncodeParts(parts) == EncodePart(parts[0]) + ("|" + more);
      assert ("|" + more)[1..] == more;
      PartsRoundTrip(parts[1..]);
      assert [parts[0]] + parts[1..] == parts;
    }
  }

  lemma ScopeKeyIsInjective(a: seq<string>, b: seq<string>)
    ensures ScopeKeyOf(a) == ScopeKeyOf(b) <==> a == b
  {
    PartsRoundTrip(a);
    PartsRoundTrip(b);
    assert ScopeKeyOf(a)[|PREFIX|..] == EncodeParts(a) && ScopeKeyOf(b)[|PREFIX|..] == EncodeParts(b);
  }

  // ----- identities --------------------------------------------------------

  datatype SecType = Opt | Fop {
    function Text(): string {
      if Opt? then "OPT" else "FOP"
    }
  }

  /** What an admitted identity's key is made of: an instrument, or an option with
      its contract number. */
  datatype Identity =
    | Instrument(provider: string, contractId: string)
    | OptionContract(provider: string, secType: SecType, contractId: string, conId: nat, exchange: string)

  function Parts(identity: Identity): seq<string> {
    match identity
    case Instrument(provider, contractId) => ["instrument", provider, contractId]
    case OptionContract(provider, secType, contractId, conId, exchange) =>
      ["option", provider, secType.Text(), contractId, ToText(conId), exchange]
  }

  function ScopeKey(identity: Identity): string {
    ScopeKeyOf(Parts(identity))
  }

  /** Two contracts share a scope key only if they are the same contract. */
  lemma ScopeKeySeparatesIdentities(a: Identity, b: Identity)
    ensures ScopeKey(a) == ScopeKey(b) <==> a == b
  {
    ScopeKeyIsInjective(Parts(a), Parts(b));
    if Parts(a) == Parts(b) {
      assert |Parts(a)| == |Parts(b)|;
      assert Parts(a)[1] == Parts(b)[1] && Parts(a)[2] == Parts(b)[2];
      if a.OptionContract? && b.OptionContract? {
        assert Parts(a)[3] == Parts(b)[3] && Parts(a)[4] == Parts(b)[4] && Parts(a)[5] == Parts(b)[5];
        ToTextIsPlain(a.conId);
        ToTextIsPlain(b.conId);
        assert "OPT"[0] != "FOP"[0];
      }
    }
  }
}
