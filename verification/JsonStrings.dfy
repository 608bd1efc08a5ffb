/** Arrays of strings in compact JSON (section 7 of RFC 8259): the writer that keeps
    non-ASCII text, a reader that also takes other spellings, and the canonical
    check that combines them. */
module JsonStrings {
  import opened Wrappers

  // ----- writing -----------------------------------------------------------

  function HexDigit(n: nat): char
    requires n < 16
  {
    "0123456789abcdef"[n]
  }

  function Escape(c: char): string {
    if c == '\"' then "\\\""
    else if c == '\\' then "\\\\"
    else if c == '\n' then "\\n"
    else if c == '\r' then "\\r"
    else if c == '\t' then "\\t"
    else if c as int == 8 then "\\b"
    else if c as int == 12 then "\\f"
    else if c as int < 32 then "\\u00" + [HexDigit(c as int / 16), HexDigit(c as int % 16)]
    else [c]
  }

  /** The rest of a string literal after its opening quote. */
  function DumpBody(text: string): string {
    if text == "" then "\"" else Escape(text[0]) + DumpBody(text[1..])
  }

  function DumpString(text: string): string {
    "\"" + DumpBody(text)
  }

  /** The rest of an array after its first element. */
  function DumpTail(items: seq<string>): string {
    if items == [] then "]" else "," + DumpString(items[0]) + DumpTail(items[1..])
  }

  function Dumps(items: seq<string>): string {
    if items == [] then "[]" else "[" + DumpString(items[0]) + DumpTail(items[1..])
  }

  // ----- reading -----------------------------------------------------------

  datatype Read<T> = Read(value: T, rest: string)

  function HexValue(c: char): Option<nat> {
    if '0' <= c <= '9' then Some(c as int - '0' as int)
    else if 'a' <= c <= 'f' then Some(c as int - 'a' as int + 10)
    else if 'A' <= c <= 'F' then Some(c as int - 'A' as int + 10)
    else None
  }

  /** Four hexadecimal digits; halves of surrogate pairs are not characters here. */
  function LoadHex(s: string): Option<char>
    requires |s| >= 4
  {
    var a, b, c, d := HexValue(s[0]), HexValue(s[1]), HexValue(s[2]), HexValue(s[3]);
    if a.None? || b.None? || c.None? || d.None? then None
    else
      var code := 4096 * a.value + 256 * b.value + 16 * c.value + d.value;
      if 0 <= code < 0xD800 || 0xE000 <= code < 0x10000 then Some(code as char) else None
  }

  function SimpleEscape(c: char): Option<char> {
    if c == '\"' || c == '\\' || c == '/' then Some(c)
    else if c == 'n' then Some('\n')
    else if c == 'r' then Some('\r')
    else if c == 't' then Some('\t')
    else if c == 'b' then Some(8 as char)
    else if c == 'f' then Some(12 as char)
    else None
  }

  /** One character of a literal: plain, or behind a backslash. */
  function LoadChar(s: string): (r: Option<Read<char>>)
    requires s != ""
    ensures r.Some? ==> |r.value.rest| < |s|
  {
    if s[0] != '\\' then (if s[0] as int < 32 then None else Some(Read(s[0], s[1..])))
    else if |s| < 2 then None
    else if s[1] == 'u' then
      if |s| < 6 then None
      else
        var c := LoadHex(s[2..]);
        if c.None? then None else Some(Read(c.value, s[6..]))
    else
      var c := SimpleEscape(s[1]);
      if c.None? then None else Some(Read(c.value, s[2..]))
  }

  function LoadBody(s: string): (r: Option<Read<string>>)
    ensures r.Some? ==> |r.value.rest| < |s|
    decreases |s|
  {
    if s == "" then None
    else if s[0] == '\"' then Some(Read("", s[1..]))
    else
      var first := LoadChar(s);
      if first.None? then None
      else
        var more := LoadBody(first.value.rest);
        if more.None? then None else Some(Read([first.value.value] + more.value.value, more.value.rest))
  }

  predicate IsBlank(c: char) {
    c == ' ' || c == '\t' || c == '\n' || c == '\r'
  }

  function SkipBlanks(s: string): (r: string)
    ensures |r| <= |s|
  {
    if s != "" && IsBlank(s[0]) then SkipBlanks(s[1..]) else s
  }

  function LoadString(s: string): (r: Option<Read<string>>)
    ensures r.Some? ==> |r.value.rest| < |s|
  {
    if s == "" || s[0] != '\"' then None else LoadBody(s[1..])
  }

  /** After an element: another one behind a comma, or the end of the array. */
  function LoadTail(s: string): Option<Read<seq<string>>>
    decreases |s|
  {
    var t := SkipBlanks(s);
    if t == "" then None
    else if t[0] == ']' then Some(Read([], t[1..]))
    else if t[0] != ',' then None
    else
      var item := LoadString(SkipBlanks(t[1..]));
      if item.None? then None
      else
        var more := LoadTail(item.value.rest);
        if more.None? then None else Some(Read([item.value.value] + more.value.value, more.value.rest))
  }

  /** A whole text that is an array of strings; anything else is refused. */
  function Loads(s: string): Option<seq<string>> {
    var t := SkipBlanks(s);
    if t == "" || t[0] != '[' then None
    else
      var u := SkipBlanks(t[1..]);
      if u != "" && u[0] == ']' then (if SkipBlanks(u[1..]) == "" then Some([]) else None)
      else
        var first := LoadString(u);
        if first.None? then None
        else
          var more := LoadTail(first.value.rest);
          if more.None? || SkipBlanks(more.value.rest) != "" then None else Some([first.value.value] + more.value.value)
  }

  // ----- reading what was written ------------------------------------------

  lemma LoadControl(c: char, rest: string)
    requires c as int < 32
    ensures
      var escape := "\\u00" + [HexDigit(c as int / 16), HexDigit(c as int % 16)];
      LoadChar(escape + rest) == Some(Read(c, rest))
  {
    var s := "\\u00" + [HexDigit(c as int / 16), HexDigit(c as int % 16)] + rest;
    assert s[2..][..4] == ['0', '0', HexDigit(c as int / 16), HexDigit(c as int % 16)];
    assert s[6..] == rest;
  }

  lemma LoadEscaped(c: char, rest: string)
    ensures Escape(c) != "" && Escape(c)[0] != '\"'
    ensures LoadChar(Escape(c) + rest) == Some(Read(c, rest))
  {
    var s := Escape(c) + rest;
    if c as int < 32 && |Escape(c)| == 6 {
      LoadControl(c, rest);
    } else if |Escape(c)| == 2 {
      assert s[2..] == rest;
    } else {
      assert s[1..] == rest;
    }
  }

  lemma {:induction false} LoadDumpedBody(text: string, rest: string)
    ensures LoadBody(DumpBody(text) + rest) == Some(Read(text, rest))
  {
    var s := DumpBody(text) + rest;
    if text == "" {
      assert s[1..] == rest;
    } else {
      var more := DumpBody(text[1..]) + rest;
      assert s == Escape(text[0]) + more;
      LoadEscaped(text[0], more);
      LoadDumpedBody(text[1..], rest);
      assert [text[0]] + text[1..] == text;
    }
  }

  lemma LoadDumpedString(text: string, rest: string)
    ensures LoadString(DumpString(text) + rest) == Some(Read(text, rest))
    ensures SkipBlanks(DumpString(text) + rest) == DumpString(text) + rest
  {
    LoadDumpedBody(text, rest);
    Quoted(DumpBody(text), rest);
  }

  lemma Quoted(body: string, rest: string)
    ensures
      var s := "\"" + body + rest;
      s[0] == '\"' && s[1..] == body + rest && SkipBlanks(s) == s
  {
  }

  lemma {:induction false} LoadDumpedTail(items: seq<string>)
    ensures LoadTail(DumpTail(items)) == Some(Read(items, ""))
  {
    var s := DumpTail(items);
    if items != [] {
      var more := DumpTail(items[1..]);
      assert s[1..] == DumpString(items[0]) + more;
      assert s[0] == ',' && SkipBlanks(s) == s;
      LoadDumpedString(items[0], more);
      assert LoadString(SkipBlanks(s[1..])) == Some(Read(items[0], more));
      LoadDumpedTail(items[1..]);
      assert [items[0]] + items[1..] == items;
    } else {
      assert s[1..] == "";
    }
  }

  lemma LoadsFirstAndMore(s: string, first: Read<string>, more: seq<string>)
    requires s != "" && s[0] == '[' && s[1..] != "" && s[1] == '\"'
    requires LoadString(s[1..]) == Some(first) && LoadTail(first.rest) == Some(Read(more, ""))
    ensures Loads(s) == Some([first.value] + more)
  {
    assert SkipBlanks(s) == s && SkipBlanks(s[1..]) == s[1..];
  }

  /** Every array of strings is read back from its own text. */
  lemma LoadsDumps(items: seq<string>)
    ensures Loads(Dumps(items)) == Some(items)
  {
    if items == [] {
      NothingLoads();
    } else {
      LoadsSome(items[0], items[1..]);
      assert [items[0]] + items[1..] == items;
    }
  }

  lemma NothingLoads()
    ensures Loads("[]") == Some([])
  {
    var s := "[]";
    assert s[1..] == "]" && s[1..][1..] == "";
  }

  lemma LoadsSome(first: string, more: seq<string>)
    ensures Loads(Dumps([first] + more)) == Some([first] + more)
  {
    var items := [first] + more;
    assert items[1..] == more;
    DumpsFirstAndMore(items);
    LoadDumpedString(first, DumpTail(more));
    LoadDumpedTail(more);
    LoadsFirstAndMore(Dumps(items), Read(first, DumpTail(more)), more);
  }

  lemma DumpsFirstAndMore(items: seq<string>)
    requires items != []
    ensures
      var s := Dumps(items);
      && s != "" && s[0] == '[' && s[1..] != "" && s[1] == '\"'
      && s[1..] == DumpString(items[0]) + DumpTail(items[1..])
  {
    StartsQuoted(items[0], DumpTail(items[1..]));
    Opened(DumpString(items[0]), DumpTail(items[1..]));
  }

  lemma Opened(a: string, b: string)
    requires a + b != ""
    ensures ("[" + a + b)[0] == '[' && ("[" + a + b)[1..] == a + b && ("[" + a + b)[1] == (a + b)[0]
  {
  }

  lemma StartsQuoted(text: string, more: string)
    ensures DumpString(text) + more != "" && (DumpString(text) + more)[0] == '\"'
  {
  }

  // ----- the canonical check -----------------------------------------------

  predicate AllFilled(items: seq<string>) {
    forall i :: 0 <= i < |items| ==> items[i] != ""
  }

  function CanonicalStringArray(value: string, length: nat): Option<seq<string>> {
    var items := Loads(value);
    if items.None? || |items.value| != length || !AllFilled(items.value) || value != Dumps(items.value) then None
    else items
  }

  /** A text is accepted, as these items, exactly when it is their one spelling. */
  lemma CanonicalIffDumped(value: string, length: nat, items: seq<string>)
    ensures CanonicalStringArray(value, length) == Some(items)
       <==> |items| == length && AllFilled(items) && value == Dumps(items)
  {
    LoadsDumps(items);
  }

  lemma DumpsInjective(a: seq<string>, b: seq<string>)
    ensures Dumps(a) == Dumps(b) <==> a == b
  {
    LoadsDumps(a);
    LoadsDumps(b);
  }

  // ----- the text itself ---------------------------------------------------

  /** Characters an array's text shows as they are. */
  predicate Plain(text: string) {
    forall i :: 0 <= i < |text| ==> text[i] as int >= 32 && text[i] != '\"' && text[i] != '\\'
  }

  lemma {:induction false} PlainBody(text: string)
    requires Plain(text)
    ensures DumpBody(text) == text + "\""
  {
    if text != "" {
      PlainBody(text[1..]);
      assert text == [text[0]] + text[1..];
    }
  }

  /** Quoted items with a comma between two of them and nothing else. */
  lemma PlainArray(first: string, second: string)
    requires Plain(first) && Plain(second)
    ensures Dumps([first]) == "[" + ("\"" + first + "\"") + "]"
    ensures Dumps([first, second]) == "[" + ("\"" + first + "\"") + ("," + ("\"" + second + "\"") + "]")
  {
    PlainString(first);
    PlainString(second);
    assert [first][1..] == [] && [first, second][1..] == [second];
    OneMoreItem(second);
  }

  lemma PlainString(text: string)
    requires Plain(text)
    ensures DumpString(text) == "\"" + text + "\""
  {
    PlainBody(text);
    Grouped("\"", text, "\"");
  }

  lemma Grouped(a: string, b: string, c: string)
    ensures a + (b + c) == a + b + c
  {
  }

  lemma OneMoreItem(text: string)
    ensures DumpTail([text]) == "," + DumpString(text) + "]"
  {
    assert [text][1..] == [];
  }

  /** What the other characters become. */
  lemma EscapesAre()
    ensures Escape('\"') == ['\\', '\"'] && Escape('\\') == ['\\', '\\']
    ensures Escape('\n') == ['\\', 'n'] && Escape('\r') == ['\\', 'r'] && Escape('\t') == ['\\', 't']
    ensures Escape(8 as char) == ['\\', 'b'] && Escape(12 as char) == ['\\', 'f']
    ensures Escape(1 as char) == ['\\', 'u', '0', '0', '0', '1'] && Escape(31 as char) == ['\\', 'u', '0', '0', '1', 'f']
  {
  }
}
