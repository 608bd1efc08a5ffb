/** Durable client-setting keys of instruments and indicators: builders, parsers,
    and why a key has one meaning and one spelling, although an instrument id may
    contain any character, the separators of the key included. */
module SettingsKeys {
  import opened Wrappers
  import opened JsonStrings

  const INSTRUMENT_PREFIX := "aef:instrument:"
  const GLOBAL_PREFIX := "aef:indicator:"
  const SEPARATOR := ":indicator:"

  const MODES: set<string> := {"gex", "regular"}

  /** The scalar settings of an instrument, in the order they are tried. */
  const SCALAR_NAMES := ["indicatorMode", "paperAutoTrading", "paperRiskPrefs"]

  // ----- text helpers ------------------------------------------------------

  predicate HasPrefix(s: string, prefix: string) {
    |prefix| <= |s| && s[..|prefix|] == prefix
  }

  predicate HasSuffix(s: string, suffix: string) {
    |suffix| <= |s| && s[|s| - |suffix|..] == suffix
  }

  /** What the text-stripping of the host language removes at either end. */
  predicate IsSpace(c: char) {
    var n := c as int;
    9 <= n <= 13 || 28 <= n <= 32 || n == 0x85 || n == 0xA0 || n == 0x1680 || 0x2000 <= n <= 0x200A
    || n == 0x2028 || n == 0x2029 || n == 0x202F || n == 0x205F || n == 0x3000
  }

  function StripLeft(s: string): string {
    if s != "" && IsSpace(s[0]) then StripLeft(s[1..]) else s
  }

  function StripRight(s: string): string {
    if s != "" && IsSpace(s[|s| - 1]) then StripRight(s[..|s| - 1]) else s
  }

  function Strip(s: string): string {
    StripRight(StripLeft(s))
  }

  /** Lower case of ASCII letters, all that the known modes are made of. */
  function Lower(s: string): string {
    if s == "" then ""
    else [if 'A' <= s[0] <= 'Z' then (s[0] as int + 32) as char else s[0]] + Lower(s[1..])
  }

  predicate OccursAt(s: string, sep: string, p: nat) {
    p + |sep| <= |s| && s[p..p + |sep|] == sep
  }

  /** The last occurrence not after `p`. */
  function LastFrom(s: string, sep: string, p: nat): Option<nat> {
    if OccursAt(s, sep, p) then Some(p) else if p == 0 then None else LastFrom(s, sep, p - 1)
  }

  lemma {:induction false} LastFromIs(s: string, sep: string, p: nat, at: nat)
    requires at <= p && OccursAt(s, sep, at)
    requires forall q :: at < q <= p ==> !OccursAt(s, sep, q)
    ensures LastFrom(s, sep, p) == Some(at)
  {
    if at < p {
      LastFromIs(s, sep, p - 1, at);
    }
  }

  lemma {:induction false} LastFromOccurs(s: string, sep: string, p: nat)
    ensures LastFrom(s, sep, p).Some? ==> OccursAt(s, sep, LastFrom(s, sep, p).value)
  {
    if !OccursAt(s, sep, p) && p > 0 {
      LastFromOccurs(s, sep, p - 1);
    }
  }

  function SplitColons(s: string): (parts: seq<string>)
    ensures parts != []
  {
    if s == "" then [""]
    else
      var rest := SplitColons(s[1..]);
      if s[0] == ':' then [""] + rest else [[s[0]] + rest[0]] + rest[1..]
  }

  lemma {:induction false} SplitOne(part: string, rest: string)
    requires ':' !in part
    ensures SplitColons(part) == [part]
    ensures SplitColons(part + ":" + rest) == [part] + SplitColons(rest)
  {
    var s := part + ":" + rest;
    if part == "" {
      assert s[1..] == rest;
    } else {
      SplitOne(part[1..], rest);
      assert s[1..] == part[1..] + ":" + rest;
      assert [part[0]] + part[1..] == part;
    }
  }

  function JoinColons(parts: seq<string>): string {
    if parts == [] then "" else if |parts| == 1 then parts[0] else parts[0] + ":" + JoinColons(parts[1..])
  }

  lemma {:induction false} JoinSplit(s: string)
    ensures JoinColons(SplitColons(s)) == s
    ensures forall i :: 0 <= i < |SplitColons(s)| ==> ':' !in SplitColons(s)[i]
  {
    if s != "" {
      JoinSplit(s[1..]);
      var rest := SplitColons(s[1..]);
      if s[0] == ':' {
        assert ([""] + rest)[1..] == rest;
      } else {
        assert ([[s[0]] + rest[0]] + rest[1..])[1..] == rest[1..];
      }
    }
  }

  // ----- building ----------------------------------------------------------

  /** The exact key of one indicator setting of one instrument and mode. */
  function IndicatorKey(id: string, mode: string, setting: string): string {
    INSTRUMENT_PREFIX + Dumps([id, mode]) + SEPARATOR + setting
  }

  function ScalarKey(id: string, name: string): string {
    INSTRUMENT_PREFIX + Dumps([id]) + ":" + name
  }

  function GlobalKey(setting: string): string {
    GLOBAL_PREFIX + "global:" + setting
  }

  function BuildIndicatorKey(id: string, setting: string, mode: string, known: set<string>): Result<string> {
    var exactSetting, exactMode := Strip(setting), Lower(Strip(mode));
    if id == "" then Failure("instrument_id is required")
    else if exactSetting == "" || ':' in exactSetting || exactSetting !in known then Failure("INSTRUMENT_INDICATOR_SETTING_KEY_INVALID")
    else if exactMode !in MODES then Failure("INDICATOR_SETTING_MODE_INVALID")
    else Success(IndicatorKey(id, exactMode, exactSetting))
  }

  function BuildGlobalKey(setting: string, known: set<string>): Result<string> {
    var exact := Strip(setting);
    if exact == "" || ':' in exact || exact !in known then Failure("GLOBAL_INDICATOR_SETTING_KEY_INVALID")
    else Success(GlobalKey(exact))
  }

  function BuildScalarKey(id: string, name: string): Result<string> {
    if id == "" then Failure("instrument_id is required") else Success(ScalarKey(id, name))
  }

  // ----- parsing -----------------------------------------------------------

  datatype IndicatorRef = InstrumentRef(setting: string, id: string, mode: string) | GlobalRef(setting: string)

  function ParseInstrument(rest: string): Option<IndicatorRef> {
    var at := LastFrom(rest, SEPARATOR, |rest|);
    if at.None? then None
    else
      LastFromOccurs(rest, SEPARATOR, |rest|);
      InstrumentScoped(rest[at.value + |SEPARATOR|..], CanonicalStringArray(rest[..at.value], 2))
  }

  function InstrumentScoped(setting: string, scope: Option<seq<string>>): Option<IndicatorRef> {
    if setting == "" || setting != Strip(setting) || ':' in setting then None
    else if scope.None? || |scope.value| != 2 || scope.value[1] !in MODES || scope.value[0] == "" then None
    else Some(InstrumentRef(setting, scope.value[0], scope.value[1]))
  }

  function ParseGlobal(value: string): Option<IndicatorRef> {
    var parts := SplitColons(value);
    if |parts| == 4 && parts[..3] == ["aef", "indicator", "global"] && parts[3] != "" && parts[3] == Strip(parts[3]) then
      Some(GlobalRef(parts[3]))
    else None
  }

  function ParseIndicator(value: string): Option<IndicatorRef> {
    if HasPrefix(value, INSTRUMENT_PREFIX) then ParseInstrument(value[|INSTRUMENT_PREFIX|..])
    else if HasPrefix(value, GLOBAL_PREFIX) then ParseGlobal(value)
    else None
  }

  datatype ScalarRef = ScalarRef(name: string, id: string)

  function SuffixOf(rest: string, names: seq<string>): Option<string> {
    if names == [] then None
    else if HasSuffix(rest, ":" + names[0]) then Some(names[0])
    else SuffixOf(rest, names[1..])
  }

  function ScalarOf(rest: string): Option<ScalarRef> {
    ScalarNamed(rest, SuffixOf(rest, SCALAR_NAMES))
  }

  function ScalarNamed(rest: string, name: Option<string>): Option<ScalarRef> {
    if name.None? || |rest| < |name.value| + 1 then None
    else ScalarScoped(name.value, CanonicalStringArray(rest[..|rest| - |name.value| - 1], 1))
  }

  function ScalarScoped(name: string, scope: Option<seq<string>>): Option<ScalarRef> {
    if scope.None? || |scope.value| != 1 || scope.value[0] == "" then None else Some(ScalarRef(name, scope.value[0]))
  }

  function ParseScalar(value: string): Option<ScalarRef> {
    if !HasPrefix(value, INSTRUMENT_PREFIX) then None else ScalarOf(value[|INSTRUMENT_PREFIX|..])
  }

  // ----- one key, one meaning ----------------------------------------------

  /** A setting name as the parser wants it. */
  predicate ExactSetting(setting: string) {
    setting != "" && setting == Strip(setting) && ':' !in setting
  }

  lemma LastSeparator(encoded: string, setting: string)
    requires ':' !in setting
    ensures
      var rest := encoded + SEPARATOR + setting;
      LastFrom(rest, SEPARATOR, |rest|) == Some(|encoded|)
  {
    var rest := encoded + SEPARATOR + setting;
    forall q | |encoded| < q <= |rest| ensures !OccursAt(rest, SEPARATOR, q) {
      if q + |SEPARATOR| <= |rest| {
        assert rest[q..q + |SEPARATOR|][|SEPARATOR| - 1] == setting[q - |encoded| - 1];
      }
    }
    LastFromIs(rest, SEPARATOR, |rest|, |encoded|);
  }

  lemma Pieces(a: string, b: string, c: string)
    ensures (a + b + c)[..|a|] == a && (a + b + c)[|a| + |b|..] == c
  {
  }

  lemma InstrumentRoundTrip(id: string, mode: string, setting: string)
    requires id != "" && mode in MODES && ExactSetting(setting)
    ensures ParseInstrument(Dumps([id, mode]) + SEPARATOR + setting) == Some(InstrumentRef(setting, id, mode))
  {
    var encoded := Dumps([id, mode]);
    LastSeparator(encoded, setting);
    Pieces(encoded, SEPARATOR, setting);
    CanonicalIffDumped(encoded, 2, [id, mode]);
  }

  lemma Prefixed(value: string)
    ensures HasPrefix(value, INSTRUMENT_PREFIX) ==>
      var rest := value[|INSTRUMENT_PREFIX|..];
      value == INSTRUMENT_PREFIX + rest && ParseIndicator(value) == ParseInstrument(rest)
    ensures !HasPrefix(value, INSTRUMENT_PREFIX) && ParseIndicator(value).Some? ==> ParseIndicator(value).value.GlobalRef?
  {
  }

  lemma Regrouped(a: string, b: string, c: string, d: string)
    ensures a + b + c + d == a + (b + c + d)
  {
  }

  lemma PrefixDropped(prefix: string, rest: string)
    ensures HasPrefix(prefix + rest, prefix) && (prefix + rest)[|prefix|..] == rest
  {
  }

  lemma SplitAt(rest: string, at: nat)
    requires OccursAt(rest, SEPARATOR, at)
    ensures rest == rest[..at] + SEPARATOR + rest[at + |SEPARATOR|..]
  {
    assert rest == rest[..at] + rest[at..at + |SEPARATOR|] + rest[at + |SEPARATOR|..];
  }

  lemma InstrumentRebuild(rest: string, ref: IndicatorRef)
    requires ref.InstrumentRef? && ParseInstrument(rest) == Some(ref)
    ensures ref.id != "" && ref.mode in MODES && ExactSetting(ref.setting)
    ensures rest == Dumps([ref.id, ref.mode]) + SEPARATOR + ref.setting
  {
    var at := LastFrom(rest, SEPARATOR, |rest|).value;
    LastFromOccurs(rest, SEPARATOR, |rest|);
    SplitAt(rest, at);
    InstrumentScopedIs(rest[at + |SEPARATOR|..], CanonicalStringArray(rest[..at], 2), ref);
    CanonicalIffDumped(rest[..at], 2, [ref.id, ref.mode]);
  }

  lemma InstrumentScopedIs(setting: string, scope: Option<seq<string>>, ref: IndicatorRef)
    requires InstrumentScoped(setting, scope) == Some(ref)
    ensures ref.InstrumentRef? && ref.id != "" && ref.mode in MODES && ExactSetting(ref.setting)
    ensures ref.setting == setting && scope == Some([ref.id, ref.mode])
  {
    assert scope.value == [ref.id, ref.mode];
  }

  predicate IsIndicatorKey(value: string, id: string, mode: string, setting: string) {
    id != "" && mode in MODES && ExactSetting(setting) && value == IndicatorKey(id, mode, setting)
  }

  lemma BuiltKeyParses(id: string, mode: string, setting: string)
    requires id != "" && mode in MODES && ExactSetting(setting)
    ensures ParseIndicator(IndicatorKey(id, mode, setting)) == Some(InstrumentRef(setting, id, mode))
  {
    var rest := Dumps([id, mode]) + SEPARATOR + setting;
    Regrouped(INSTRUMENT_PREFIX, Dumps([id, mode]), SEPARATOR, setting);
    PrefixDropped(INSTRUMENT_PREFIX, rest);
    Prefixed(INSTRUMENT_PREFIX + rest);
    InstrumentRoundTrip(id, mode, setting);
  }

  lemma ParsedKeyRebuilds(value: string, ref: IndicatorRef)
    requires ref.InstrumentRef? && ParseIndicator(value) == Some(ref)
    ensures IsIndicatorKey(value, ref.id, ref.mode, ref.setting)
  {
    Prefixed(value);
    var rest := value[|INSTRUMENT_PREFIX|..];
    InstrumentRebuild(rest, ref);
    Regrouped(INSTRUMENT_PREFIX, Dumps([ref.id, ref.mode]), SEPARATOR, ref.setting);
  }

  /** A text is an instrument's indicator key, with this meaning, exactly when it is
      the text that meaning is built into. Ids may contain anything, even the
      separator itself. */
  lemma InstrumentKeyMeaning(value: string, id: string, mode: string, setting: string)
    ensures ParseIndicator(value) == Some(InstrumentRef(setting, id, mode)) <==> IsIndicatorKey(value, id, mode, setting)
  {
    if IsIndicatorKey(value, id, mode, setting) {
      BuiltKeyParses(id, mode, setting);
    }
    if ParseIndicator(value) == Some(InstrumentRef(setting, id, mode)) {
      ParsedKeyRebuilds(value, InstrumentRef(setting, id, mode));
    }
  }

  // ----- stripping ---------------------------------------------------------

  lemma {:induction false} StripLeftTrims(s: string)
    ensures StripLeft(s) == "" || !IsSpace(StripLeft(s)[0])
    ensures s == "" || !IsSpace(s[0]) ==> StripLeft(s) == s
  {
    if s != "" && IsSpace(s[0]) {
      StripLeftTrims(s[1..]);
    }
  }

  lemma {:induction false} StripRightTrims(s: string)
    ensures StripRight(s) == "" || !IsSpace(StripRight(s)[|StripRight(s)| - 1])
    ensures StripRight(s) <= s
  {
    if s != "" && IsSpace(s[|s| - 1]) {
      StripRightTrims(s[..|s| - 1]);
    }
  }

  /** Stripping twice is stripping once. */
  lemma StripIsIdempotent(s: string)
    ensures Strip(Strip(s)) == Strip(s)
  {
    StripLeftTrims(s);
    StripRightTrims(StripLeft(s));
    StripLeftTrims(Strip(s));
  }

  /** Whatever the caller's spelling of setting and mode, an accepted build parses
      back to the id given and the exact setting and mode. */
  lemma BuildThenParse(id: string, setting: string, mode: string, known: set<string>)
    requires BuildIndicatorKey(id, setting, mode, known).Success?
    ensures ParseIndicator(BuildIndicatorKey(id, setting, mode, known).value)
      == Some(InstrumentRef(Strip(setting), id, Lower(Strip(mode))))
  {
    StripIsIdempotent(setting);
    BuiltKeyParses(id, Lower(Strip(mode)), Strip(setting));
  }

  // ----- global keys -------------------------------------------------------

  lemma SplitThree(a: string, b: string, c: string, rest: string)
    requires ':' !in a && ':' !in b && ':' !in c
    ensures SplitColons(a + ":" + (b + ":" + (c + ":" + rest))) == [a, b, c] + SplitColons(rest)
  {
    SplitOne(a, b + ":" + (c + ":" + rest));
    SplitOne(b, c + ":" + rest);
    SplitOne(c, rest);
  }

  lemma JoinFour(a: string, b: string, c: string, d: string)
    ensures JoinColons([a, b, c, d]) == a + ":" + (b + ":" + (c + ":" + d))
  {
    assert [a, b, c, d][1..] == [b, c, d];
    assert [b, c, d][1..] == [c, d];
    assert [c, d][1..] == [d];
    assert JoinColons([c, d]) == c + ":" + d;
    assert JoinColons([b, c, d]) == b + ":" + (c + ":" + d);
  }

  lemma GlobalKeyParts(setting: string)
    ensures GlobalKey(setting) == "aef" + ":" + ("indicator" + ":" + ("global" + ":" + setting))
  {
  }

  lemma GlobalParses(setting: string)
    requires ExactSetting(setting)
    ensures ParseGlobal(GlobalKey(setting)) == Some(GlobalRef(setting))
  {
    GlobalKeyParts(setting);
    SplitThree("aef", "indicator", "global", setting);
    SplitOne(setting, "");
    var parts := ["aef", "indicator", "global"] + [setting];
    assert parts[..3] == ["aef", "indicator", "global"] && parts[3] == setting;
  }

  lemma GlobalRebuilds(value: string, setting: string)
    requires ParseGlobal(value) == Some(GlobalRef(setting))
    ensures ExactSetting(setting) && value == GlobalKey(setting)
  {
    var parts := SplitColons(value);
    JoinSplit(value);
    assert parts == parts[..3] + [parts[3]];
    assert parts == ["aef", "indicator", "global", setting];
    JoinFour("aef", "indicator", "global", setting);
    GlobalKeyParts(setting);
  }

  /** The same for the global family. */
  lemma GlobalKeyMeaning(value: string, setting: string)
    ensures ParseGlobal(value) == Some(GlobalRef(setting)) <==> ExactSetting(setting) && value == GlobalKey(setting)
  {
    if ExactSetting(setting) {
      GlobalParses(setting);
    }
    if ParseGlobal(value) == Some(GlobalRef(setting)) {
      GlobalRebuilds(value, setting);
    }
  }

  lemma GlobalHasOwnPrefix(setting: string)
    ensures HasPrefix(GlobalKey(setting), GLOBAL_PREFIX) && !HasPrefix(GlobalKey(setting), INSTRUMENT_PREFIX)
  {
    assert GlobalKey(setting) == GLOBAL_PREFIX + ("global:" + setting);
    assert GlobalKey(setting)[..|GLOBAL_PREFIX|] == GLOBAL_PREFIX;
    assert GlobalKey(setting)[6] == 'd' && INSTRUMENT_PREFIX[6] == 's';
  }

  /** An accepted global build parses back to the exact setting. */
  lemma BuildGlobalThenParse(setting: string, known: set<string>)
    requires BuildGlobalKey(setting, known).Success?
    ensures ParseIndicator(BuildGlobalKey(setting, known).value) == Some(GlobalRef(Strip(setting)))
  {
    StripIsIdempotent(setting);
    GlobalHasOwnPrefix(Strip(setting));
    GlobalParses(Strip(setting));
  }

  // ----- scalar keys -------------------------------------------------------

  lemma LongerSuffixHasColon(rest: string, a: string, b: string)
    requires HasSuffix(rest, ":" + a) && HasSuffix(rest, ":" + b) && |a| < |b|
    ensures ':' in b
  {
    assert rest[|rest| - |a| - 1..] == ":" + a && rest[|rest| - |b| - 1..] == ":" + b;
    assert (":" + b)[|b| - |a|] == rest[|rest| - |a| - 1];
    assert (":" + b)[|b| - |a|] == b[|b| - |a| - 1];
  }

  /** What follows the last colon is determined. */
  lemma AfterLastColon(rest: string, a: string, b: string)
    requires ':' !in a && ':' !in b && HasSuffix(rest, ":" + a) && HasSuffix(rest, ":" + b)
    ensures a == b
  {
    if |a| < |b| {
      LongerSuffixHasColon(rest, a, b);
    } else if |b| < |a| {
      LongerSuffixHasColon(rest, b, a);
    } else {
      assert a == (":" + a)[1..] && b == (":" + b)[1..];
    }
  }

  lemma {:induction false} SuffixOfFacts(rest: string, names: seq<string>)
    ensures SuffixOf(rest, names).Some? ==>
      SuffixOf(rest, names).value in names && HasSuffix(rest, ":" + SuffixOf(rest, names).value)
    ensures forall name :: name in names && HasSuffix(rest, ":" + name) ==> SuffixOf(rest, names).Some?
  {
    if names != [] {
      SuffixOfFacts(rest, names[1..]);
      assert forall name :: name in names <==> name == names[0] || name in names[1..];
    }
  }

  lemma ScalarNames(name: string)
    requires name in SCALAR_NAMES
    ensures ':' !in name
  {
  }

  lemma SuffixFound(encoded: string, name: string)
    requires name in SCALAR_NAMES
    ensures SuffixOf(encoded + ":" + name, SCALAR_NAMES) == Some(name)
  {
    var rest := encoded + ":" + name;
    SuffixOfFacts(rest, SCALAR_NAMES);
    assert rest == encoded + (":" + name);
    assert HasSuffix(rest, ":" + name);
    var found := SuffixOf(rest, SCALAR_NAMES).value;
    ScalarNames(name);
    ScalarNames(found);
    AfterLastColon(rest, name, found);
  }

  predicate IsScalarKey(value: string, id: string, name: string) {
    id != "" && name in SCALAR_NAMES && value == ScalarKey(id, name)
  }

  lemma ScalarRest(id: string, name: string)
    ensures HasPrefix(ScalarKey(id, name), INSTRUMENT_PREFIX)
    ensures ScalarKey(id, name)[|INSTRUMENT_PREFIX|..] == Dumps([id]) + ":" + name
  {
    Regrouped(INSTRUMENT_PREFIX, Dumps([id]), ":", name);
    PrefixDropped(INSTRUMENT_PREFIX, Dumps([id]) + ":" + name);
  }

  lemma ScalarParses(id: string, name: string)
    requires id != "" && name in SCALAR_NAMES
    ensures ParseScalar(ScalarKey(id, name)) == Some(ScalarRef(name, id))
  {
    var encoded := Dumps([id]);
    var rest := encoded + ":" + name;
    ScalarRest(id, name);
    SuffixFound(encoded, name);
    assert rest[..|rest| - |name| - 1] == encoded;
    CanonicalIffDumped(encoded, 1, [id]);
    assert ScalarNamed(rest, Some(name)) == Some(ScalarRef(name, id));
  }

  lemma CutAt(s: string, n: nat)
    requires n <= |s|
    ensures s == s[..n] + s[n..]
  {
  }

  lemma ScalarParts(rest: string, ref: ScalarRef)
    requires ScalarOf(rest) == Some(ref)
    ensures |ref.name| + 1 <= |rest| && ref.id != "" && ref.name in SCALAR_NAMES
    ensures rest[|rest| - |ref.name| - 1..] == ":" + ref.name
    ensures CanonicalStringArray(rest[..|rest| - |ref.name| - 1], 1) == Some([ref.id])
  {
    SuffixOfFacts(rest, SCALAR_NAMES);
    ScalarScopedIs(ref.name, CanonicalStringArray(rest[..|rest| - |ref.name| - 1], 1), ref);
  }

  lemma ScalarScopedIs(name: string, scope: Option<seq<string>>, ref: ScalarRef)
    requires ScalarScoped(name, scope) == Some(ref)
    ensures ref.name == name && ref.id != "" && scope == Some([ref.id])
  {
    assert scope.value == [ref.id];
  }

  lemma ScalarRestIs(rest: string, ref: ScalarRef)
    requires ScalarOf(rest) == Some(ref)
    ensures ref.id != "" && ref.name in SCALAR_NAMES && rest == Dumps([ref.id]) + ":" + ref.name
  {
    ScalarParts(rest, ref);
    var n := |rest| - |ref.name| - 1;
    CanonicalIffDumped(rest[..n], 1, [ref.id]);
    CutAt(rest, n);
  }

  lemma ScalarRebuilds(value: string, ref: ScalarRef)
    requires ParseScalar(value) == Some(ref)
    ensures IsScalarKey(value, ref.id, ref.name)
  {
    var rest := value[|INSTRUMENT_PREFIX|..];
    ScalarRestIs(rest, ref);
    assert value == INSTRUMENT_PREFIX + rest;
    Regrouped(INSTRUMENT_PREFIX, Dumps([ref.id]), ":", ref.name);
  }

  /** The same for the scalar settings of an instrument. */
  lemma ScalarKeyMeaning(value: string, id: string, name: string)
    ensures ParseScalar(value) == Some(ScalarRef(name, id)) <==> IsScalarKey(value, id, name)
  {
    if IsScalarKey(value, id, name) {
      ScalarParses(id, name);
    }
    if ParseScalar(value) == Some(ScalarRef(name, id)) {
      ScalarRebuilds(value, ScalarRef(name, id));
    }
  }

  /** An accepted scalar build parses back to its instrument and name. */
  lemma BuildScalarThenParse(id: string, name: string)
    requires BuildScalarKey(id, name).Success? && name in SCALAR_NAMES
    ensures ParseScalar(BuildScalarKey(id, name).value) == Some(ScalarRef(name, id))
  {
    ScalarParses(id, name);
  }

  // ----- no key belongs to two families ------------------------------------

  lemma {:induction false} TailEndsInBracket(items: seq<string>)
    ensures DumpTail(items) != "" && DumpTail(items)[|DumpTail(items)| - 1] == ']'
  {
    if items != [] {
      TailEndsInBracket(items[1..]);
    }
  }

  lemma SuffixSplits(a: string, b: string)
    ensures HasSuffix(a + b, b) && (a + b)[..|a|] == a
  {
  }

  /** An instrument's indicator key is never one of its scalar keys. */
  lemma InstrumentFamiliesDiffer(id: string, mode: string, setting: string, other: string, name: string)
    requires ExactSetting(setting) && name in SCALAR_NAMES
    ensures Dumps([id, mode]) + SEPARATOR + setting != Dumps([other]) + ":" + name
  {
    var a, b := Dumps([id, mode]) + ":indicator", Dumps([other]);
    assert Dumps([id, mode]) + SEPARATOR + setting == a + (":" + setting);
    assert b + ":" + name == b + (":" + name);
    SuffixSplits(a, ":" + setting);
    SuffixSplits(b, ":" + name);
    ScalarNames(name);
    TailEndsInBracket([]);
    assert b[|b| - 1] == ']';
    assert a[|a| - 1] == 'r';
    assert a != b;
    if a + (":" + setting) == b + (":" + name) {
      AfterLastColon(a + (":" + setting), setting, name);
    }
  }

  lemma FamiliesAreDisjoint(value: string)
    ensures ParseScalar(value).None? || ParseIndicator(value).None?
  {
    if ParseScalar(value).Some? && ParseIndicator(value).Some? {
      var scalar, ref := ParseScalar(value).value, ParseIndicator(value).value;
      Prefixed(value);
      ScalarRebuilds(value, scalar);
      ScalarRest(scalar.id, scalar.name);
      InstrumentRebuild(value[|INSTRUMENT_PREFIX|..], ref);
      InstrumentFamiliesDiffer(ref.id, ref.mode, ref.setting, scalar.id, scalar.name);
    }
  }

  /** Two different meanings never share a key. */
  lemma KeysAreInjective(id: string, mode: string, setting: string, id': string, mode': string, setting': string)
    requires ':' !in setting && ':' !in setting'
    requires IndicatorKey(id, mode, setting) == IndicatorKey(id', mode', setting')
    ensures id == id' && mode == mode' && setting == setting'
  {
    var e, e' := Dumps([id, mode]), Dumps([id', mode']);
    Regrouped(INSTRUMENT_PREFIX, e, SEPARATOR, setting);
    Regrouped(INSTRUMENT_PREFIX, e', SEPARATOR, setting');
    PrefixDropped(INSTRUMENT_PREFIX, e + SEPARATOR + setting);
    PrefixDropped(INSTRUMENT_PREFIX, e' + SEPARATOR + setting');
    LastSeparator(e, setting);
    LastSeparator(e', setting');
    var rest := e + SEPARATOR + setting;
    assert rest[..|e|] == e && rest[..|e'|] == e';
    assert setting == rest[|e| + |SEPARATOR|..] == setting';
    DumpsInjective([id, mode], [id', mode']);
  }

  // ----- what the builders accept ------------------------------------------

  predicate AllSpaces(s: string) {
    forall i :: 0 <= i < |s| ==> IsSpace(s[i])
  }

  function Padded(a: string, core: string, b: string): string {
    a + core + b
  }

  /** Stripping takes off spaces at both ends and nothing else. */
  lemma StripMeans(s: string, core: string)
    ensures Strip(s) == core <==>
      && (core != "" ==> !IsSpace(core[0]) && !IsSpace(core[|core| - 1]))
      && exists a, b :: Padded(a, core, b) == s && AllSpaces(a) && AllSpaces(b)
  {
    var left, a := StripLeftTakes(s);
    var mid, b := StripRightTakes(left);
    assert s == Padded(a, mid, b);
    StripEnds(s);
    if core == "" || (!IsSpace(core[0]) && !IsSpace(core[|core| - 1])) {
      forall a, b | AllSpaces(a) && AllSpaces(b) && Padded(a, core, b) == s ensures Strip(s) == core {
        StripOff(a, core, b);
      }
    }
  }

  lemma {:induction false} StripLeftTakes(s: string) returns (rest: string, a: string)
    ensures rest == StripLeft(s) && s == a + rest && AllSpaces(a)
    ensures rest != "" ==> !IsSpace(rest[0])
  {
    if s != "" && IsSpace(s[0]) {
      rest, a := StripLeftTakes(s[1..]);
      assert s == [s[0]] + s[1..];
      a := [s[0]] + a;
    } else {
      rest, a := s, "";
    }
  }

  lemma {:induction false} StripRightTakes(s: string) returns (rest: string, b: string)
    ensures rest == StripRight(s) && s == rest + b && AllSpaces(b)
    ensures rest != "" ==> !IsSpace(rest[|rest| - 1])
  {
    if s != "" && IsSpace(s[|s| - 1]) {
      rest, b := StripRightTakes(s[..|s| - 1]);
      assert s == s[..|s| - 1] + [s[|s| - 1]];
      b := b + [s[|s| - 1]];
    } else {
      rest, b := s, "";
    }
  }

  lemma StripEnds(s: string)
    ensures Strip(s) != "" ==> !IsSpace(Strip(s)[0]) && !IsSpace(Strip(s)[|Strip(s)| - 1])
  {
    var left, a := StripLeftTakes(s);
    var mid, b := StripRightTakes(left);
    assert mid != "" ==> mid[0] == left[0];
  }

  lemma StripOff(a: string, core: string, b: string)
    requires AllSpaces(a) && AllSpaces(b)
    requires core != "" ==> !IsSpace(core[0]) && !IsSpace(core[|core| - 1])
    ensures Strip(a + core + b) == core
  {
    assert a + core + b == a + (core + b);
    StripLeftOff(a, core + b);
    if core == "" {
      assert core + b == b;
      StripLeftOff(b, "");
      assert b + "" == b;
      AllSpacesStrip(b);
    } else {
      assert (core + b)[0] == core[0];
      StripRightOff(core, b);
    }
  }

  lemma {:induction false} AllSpacesStrip(b: string)
    requires AllSpaces(b)
    ensures StripLeft(b) == ""
  {
    if b != "" {
      AllSpacesStrip(b[1..]);
    }
  }

  lemma {:induction false} StripLeftOff(a: string, rest: string)
    requires AllSpaces(a)
    ensures StripLeft(a + rest) == StripLeft(rest)
  {
    if a == "" {
      assert a + rest == rest;
    } else {
      assert (a + rest)[1..] == a[1..] + rest;
      StripLeftOff(a[1..], rest);
    }
  }

  lemma {:induction false} StripRightOff(core: string, b: string)
    requires AllSpaces(b) && core != "" && !IsSpace(core[|core| - 1])
    ensures StripRight(core + b) == core
  {
    if b == "" {
      assert core + b == core;
    } else {
      var n := |b| - 1;
      assert (core + b)[..|core + b| - 1] == core + b[..n];
      StripRightOff(core, b[..n]);
    }
  }

  lemma {:induction false} LowerMeans(s: string)
    ensures |Lower(s)| == |s|
    ensures forall i :: 0 <= i < |s| ==>
      Lower(s)[i] == if 'A' <= s[i] <= 'Z' then (s[i] as int + 32) as char else s[i]
  {
    if s != "" {
      LowerMeans(s[1..]);
    }
  }

  /** Which inputs the builders accept, and the text they build from them. */
  lemma BuildersAccept(id: string, setting: string, mode: string, known: set<string>)
    ensures
      var exact, key := Strip(setting), BuildIndicatorKey(id, setting, mode, known);
      && (key.Success? <==>
            id != "" && exact != "" && ':' !in exact && exact in known
            && (Lower(Strip(mode)) == "gex" || Lower(Strip(mode)) == "regular"))
      && (key.Success? ==>
            key.value == "aef:instrument:" + Dumps([id, Lower(Strip(mode))]) + ":indicator:" + exact)
    ensures
      var exact, key := Strip(setting), BuildGlobalKey(setting, known);
      && (key.Success? <==> exact != "" && ':' !in exact && exact in known)
      && (key.Success? ==> key.value == "aef:indicator:" + "global:" + exact)
  {
  }

  lemma ScalarBuilderAccepts(id: string, name: string)
    ensures BuildScalarKey(id, name).Success? <==> id != ""
    ensures id != "" ==> BuildScalarKey(id, name).value == "aef:instrument:" + Dumps([id]) + ":" + name
  {
  }
}
