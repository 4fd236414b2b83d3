/**
 * The page header (frontmatter.js): scalars, the line-by-line parser and the printer. JSON other than strings
 * and arrays of strings is read by a function that is a parameter of the model.
 */
module Frontmatter {
  import opened Text
  import opened Whitespace
  import Json

  datatype Value = Bool(b: bool) | Num(n: int) | Str(s: string) | Arr(items: seq<Value>) | Other(json: string)

  type JsonReader = string -> Option<Value>

  function Strings(items: seq<string>): (r: seq<Value>)
    ensures |r| == |items| && forall i :: 0 <= i < |r| ==> r[i] == Str(items[i])
  {
    seq(|items|, i requires 0 <= i < |items| => Str(items[i]))
  }

  /** The parameter reads only what the model's own reader does not. */
  ghost predicate ReadsTheRest(json: JsonReader) {
    && (forall text :: json(text).Some? ==> !json(text).value.Str?)
    && (forall text, items :: json(text) != Some(Arr(Strings(items))))
  }

  // ---------------------------------------------------------------- scalars

  predicate Digit(c: char) {
    '0' <= c <= '9'
  }

  predicate AllDigits(text: string) {
    forall c :: c in text ==> Digit(c)
  }

  predicate IsInteger(text: string) {
    if text != "" && text[0] == '-' then |text| > 1 && AllDigits(text[1..]) else text != "" && AllDigits(text)
  }

  function NatOf(text: string): nat
    requires AllDigits(text)
  {
    if text == "" then 0
    else
      var digit := text[|text| - 1];
      assert Digit(digit);
      10 * NatOf(text[..|text| - 1]) + (digit as int - '0' as int)
  }

  function IntOf(text: string): int
    requires IsInteger(text)
  {
    if text[0] == '-' then -(NatOf(text[1..]) as int) else NatOf(text)
  }

  function NatText(n: nat): (r: string)
    ensures r != "" && AllDigits(r)
  {
    var digit := '0' + (n % 10) as char;
    if n < 10 then [digit] else NatText(n / 10) + [digit]
  }

  function IntText(n: int): string {
    if n < 0 then "-" + NatText(-n) else NatText(n)
  }

  predicate Wrapped(text: string, c: char) {
    |text| >= 2 && text[0] == c && text[|text| - 1] == c
  }

  function FromJson(text: string, json: JsonReader): Option<Value> {
    match Json.ReadQuoted(text)
    case Some(s) => Some(Str(s))
    case None =>
      match Json.ReadArray(text)
      case Some(items) => Some(Arr(Strings(items)))
      case None => json(text)
  }

  function OrElse(v: Option<Value>, text: string): Value {
    if v.Some? then v.value else Str(text)
  }

  /** `parseScalar`. */
  function ParseScalar(raw: string, json: JsonReader): Value {
    var value := Trim(raw);
    if value == "true" then Bool(true)
    else if value == "false" then Bool(false)
    else if IsInteger(value) then Num(IntOf(value))
    else if Wrapped(value, '"') then OrElse(FromJson(value, json), value[1..|value| - 1])
    else if Wrapped(value, '\'') then Str(value[1..|value| - 1])
    else if value != "" && value[0] == '[' then OrElse(FromJson(Json.Requoted(value), json), value)
    else Str(value)
  }

  predicate Special(c: char) {
    c in ":#[]{}&*!|>'\"%@`"
  }

  predicate NeedsQuotes(text: string) {
    || text == "" || text == "true" || text == "false" || IsInteger(text)
    || (exists c :: c in text && Special(c))
    || '\n' in text || Trim(text) != text
  }

  /** `quoteYamlScalar`. */
  function QuoteYamlScalar(text: string): string {
    if NeedsQuotes(text) then Json.Quoted(text) else text
  }

  // ---------------------------------------------------------------- lines

  predicate WordChar(c: char) {
    'A' <= c <= 'Z' || 'a' <= c <= 'z' || '0' <= c <= '9' || c == '_'
  }

  function WordLength(text: string): (n: nat)
    ensures n <= |text|
  {
    if text != "" && WordChar(text[0]) then 1 + WordLength(text[1..]) else 0
  }

  datatype Keyed = Keyed(key: string, raw: string)

  /** A key, a colon, blanks, and one line of text. */
  function MatchKeyed(text: string): Option<Keyed> {
    var n := WordLength(text);
    if n == 0 || n == |text| || text[n] != ':' then None
    else
      var raw := TrimLeft(text[n + 1..]);
      if OneLine(raw) then Some(Keyed(text[..n], raw)) else None
  }

  function Indent(line: string): nat {
    TrimLeftSuffix(line);
    |line| - |TrimLeft(line)|
  }

  /** Blanks, a dash, at least one blank, and one line of text. */
  function MatchDashed(line: string): Option<string> {
    var text := TrimLeft(line);
    if |text| < 2 || text[0] != '-' || !IsSpace(text[1]) then None
    else
      var rest := TrimLeft(text[1..]);
      if OneLine(rest) then Some(rest) else None
  }

  predicate IsSourcesLine(line: string) {
    "sources:" <= line && TrimLeft(line[8..]) == ""
  }

  type Item = map<string, Value>

  datatype Field = Scalar(value: Value) | Sources(items: seq<Item>)

  /** The parser's variables; `current` says that the last source is open, `list` names its open list. */
  datatype Reading = Reading(
    fields: map<string, Field>,
    inSources: bool,
    current: bool,
    indent: Option<nat>,
    list: Option<string>
  )

  const START: Reading := Reading(map[], false, false, None, None)

  function Items(fields: map<string, Field>): seq<Item> {
    if "sources" in fields && fields["sources"].Sources? then fields["sources"].items else []
  }

  function PushSource(st: Reading, item: Item): Reading {
    st.(fields := st.fields["sources" := Sources(Items(st.fields) + [item])])
  }

  function SetInSource(st: Reading, key: string, v: Value): Reading {
    var items := Items(st.fields);
    if items == [] then st
    else
      var last := items[|items| - 1][key := v];
      st.(fields := st.fields["sources" := Sources(items[..|items| - 1] + [last])])
  }

  function PushToList(st: Reading, v: Value): Reading {
    var items := Items(st.fields);
    if items == [] || st.list.None? || st.list.value !in items[|items| - 1] then st
    else
      match items[|items| - 1][st.list.value]
      case Arr(values) => SetInSource(st, st.list.value, Arr(values + [v]))
      case _ => st
  }

  /** The open source and the open list are really there. */
  ghost predicate Coherent(st: Reading) {
    && (st.inSources ==> "sources" in st.fields && st.fields["sources"].Sources?)
    && (st.current ==> st.inSources && Items(st.fields) != [])
    && (st.list.Some? ==>
          && st.current
          && var items := Items(st.fields);
             st.list.value in items[|items| - 1] && items[|items| - 1][st.list.value].Arr?)
  }

  datatype Error = MissingFrontmatter | UnterminatedFrontmatter | UnreadableLine(line: string)

  /** Inside the sources: a new source, a list item, or a key of the open source. None if the line is none of them. */
  function ReadSourceLine(st: Reading, line: string, json: JsonReader): Option<Reading> {
    var dashed := MatchDashed(line);
    var keyed := if dashed.Some? then MatchKeyed(dashed.value) else None;
    if keyed.Some? && (st.indent.None? || Indent(line) <= st.indent.value) then
      var item := map[keyed.value.key := ParseScalar(keyed.value.raw, json)];
      Some(PushSource(st, item).(indent := Some(Indent(line)), current := true, list := None))
    else if dashed.Some? && st.list.Some? then Some(PushToList(st, ParseScalar(dashed.value, json)))
    else
      var nested := if Indent(line) > 0 then MatchKeyed(TrimLeft(line)) else None;
      if nested.Some? && st.current && st.indent.Some? && Indent(line) > st.indent.value then
        var key, raw := nested.value.key, nested.value.raw;
        if raw == "" then Some(SetInSource(st, key, Arr([])).(list := Some(key)))
        else Some(SetInSource(st, key, ParseScalar(raw, json)).(list := None))
      else None
  }

  /** A line outside the sources, or one that ends them. */
  function ReadFieldLine(st: Reading, line: string, json: JsonReader): Result<Reading, Error> {
    if IsSourcesLine(line) then Ok(Reading(st.fields["sources" := Sources([])], true, false, None, None))
    else
      match MatchKeyed(line)
      case None => Err(UnreadableLine(line))
      case Some(k) =>
        Ok(st.(fields := st.fields[k.key := Scalar(ParseScalar(k.raw, json))],
               inSources := false, current := false, list := None))
  }

  function ReadLine(st: Reading, line: string, json: JsonReader): Result<Reading, Error> {
    if Trim(line) == "" then Ok(st)
    else
      var inside := if st.inSources then ReadSourceLine(st, line, json) else None;
      if inside.Some? then Ok(inside.value) else ReadFieldLine(st, line, json)
  }

  function ReadLines(st: Reading, lines: seq<string>, json: JsonReader): Result<Reading, Error>
    decreases |lines|
  {
    if lines == [] then Ok(st)
    else
      match ReadLine(st, lines[0], json)
      case Err(e) => Err(e)
      case Ok(next) => ReadLines(next, lines[1..], json)
  }

  /** `indexOf`. */
  function IndexOf(text: string, part: string): (r: Option<nat>)
    ensures r.Some? ==> r.value + |part| <= |text| && text[r.value..r.value + |part|] == part
  {
    if part <= text then Some(0)
    else if text == "" then None
    else
      match IndexOf(text[1..], part)
      case None => None
      case Some(i) => Some(i + 1)
  }

  const FENCE: string := "---"
  const OPENING: string := "---\n"
  const CLOSING: string := "\n---\n"

  datatype Page = Page(fields: map<string, Field>, body: string)

  function Parsed(text: string, json: JsonReader): Result<Page, Error> {
    if !StartsWith(text, OPENING) then Err(MissingFrontmatter)
    else
      match IndexOf(text[4..], CLOSING)
      case None => Err(UnterminatedFrontmatter)
      case Some(end) =>
        match ReadLines(START, Split(text[4..][..end], '\n'), json)
        case Err(e) => Err(e)
        case Ok(st) => Ok(Page(st.fields, text[4..][end + 5..]))
  }

  /** Every line leaves the parser's variables pointing at things that are there. */
  lemma LinesStayCoherent(st: Reading, line: string, json: JsonReader)
    requires Coherent(st) && ReadLine(st, line, json).Ok?
    ensures Coherent(ReadLine(st, line, json).value)
  {
    hide MatchDashed, MatchKeyed, ParseScalar, IsSourcesLine, Trim, TrimLeft;
  }

  /** `parseFrontmatter`: one pass over the header's lines. */
  method ParseFrontmatter(text: string, json: JsonReader) returns (r: Result<Page, Error>)
    ensures r == Parsed(text, json)
  {
    if !StartsWith(text, OPENING) {
      return Err(MissingFrontmatter);
    }
    var end := IndexOf(text[4..], CLOSING);
    if end.None? {
      return Err(UnterminatedFrontmatter);
    }
    var lines := Split(text[4..][..end.value], '\n');
    var fields: map<string, Field> := map[];
    var inSources, current := false, false;
    var indent: Option<nat>, list: Option<string> := None, None;
    for i := 0 to |lines|
      invariant Coherent(Reading(fields, inSources, current, indent, list))
      invariant ReadLines(START, lines, json)
             == ReadLines(Reading(fields, inSources, current, indent, list), lines[i..], json)
    {
      hide MatchDashed, MatchKeyed, ParseScalar, IsSourcesLine, Trim, TrimLeft, ReadSourceLine, ReadFieldLine;
      var line := lines[i];
      ghost var st := Reading(fields, inSources, current, indent, list);
      assert lines[i..][0] == line && lines[i..][1..] == lines[i + 1..];
      if Trim(line) != "" {
        var inside: Option<Reading> := None;
        if inSources {
          inside := ReadSourceLine(Reading(fields, inSources, current, indent, list), line, json);
        }
        if inside.None? {
          var outside := ReadFieldLine(Reading(fields, inSources, current, indent, list), line, json);
          if outside.Err? {
            return Err(outside.error);
          }
          inside := Some(outside.value);
        }
        fields, inSources, current := inside.value.fields, inside.value.inSources, inside.value.current;
        indent, list := inside.value.indent, inside.value.list;
      }
      LinesStayCoherent(st, line, json);
    }
    return Ok(Page(fields, text[4..][end.value + 5..]));
  }

  // ---------------------------------------------------------------- printing

  datatype Source = Source(path: string, sha256: string, locators: seq<string>)

  /** The texts `serializeFrontmatter` puts into its template; a number is given by its digits. */
  datatype Front = Front(
    kind: string,
    summary: string,
    managedBy: string,
    schemaVersion: string,
    sources: seq<Source>,
    updated: string
  )

  function PathLine(s: Source): string { "  - path: " + s.path }

  function HashLine(s: Source): string { "    sha256: " + s.sha256 }

  function LocatorsLine(s: Source): string { "    locators: " + Json.ArrayText(s.locators) }

  function SourceLines(sources: seq<Source>): seq<string> {
    if sources == [] then []
    else [PathLine(sources[0]), HashLine(sources[0]), LocatorsLine(sources[0])] + SourceLines(sources[1..])
  }

  function FirstLines(f: Front): seq<string> {
    [
      "type: " + f.kind,
      "summary: " + QuoteYamlScalar(f.summary),
      "managed_by: " + f.managedBy,
      "schema_version: " + f.schemaVersion,
      "sources:"
    ]
  }

  function HeaderLines(f: Front): seq<string> {
    FirstLines(f) + SourceLines(f.sources) + ["updated: " + f.updated]
  }

  function Terminated(body: string): string {
    if EndsWith(body, "\n") then body else body + "\n"
  }

  function Serialized(f: Front, body: string): string {
    Join([FENCE] + HeaderLines(f) + [FENCE, ""], "\n") + Terminated(body)
  }

  lemma ThreeMore(lines: seq<string>, a: string, b: string, c: string, rest: seq<string>)
    ensures lines + [a] + [b] + [c] + rest == lines + ([a, b, c] + rest)
  {
  }

  lemma Regrouped(first: seq<string>, sources: seq<string>, last: string)
    ensures [FENCE] + first + sources + [last] + [FENCE] + [""] == [FENCE] + (first + sources + [last]) + [FENCE, ""]
  {
  }

  /** `serializeFrontmatter`: the lines are pushed one by one and joined. */
  method SerializeFrontmatter(f: Front, body: string) returns (text: string)
    ensures text == Serialized(f, body)
  {
    var lines := [FENCE] + FirstLines(f);
    for i := 0 to |f.sources|
      invariant lines + SourceLines(f.sources[i..]) == [FENCE] + FirstLines(f) + SourceLines(f.sources)
    {
      var source := f.sources[i];
      ghost var was := lines;
      assert f.sources[i..][0] == source && f.sources[i..][1..] == f.sources[i + 1..];
      lines := lines + [PathLine(source)];
      lines := lines + [HashLine(source)];
      lines := lines + [LocatorsLine(source)];
      ThreeMore(was, PathLine(source), HashLine(source), LocatorsLine(source), SourceLines(f.sources[i + 1..]));
    }
    assert f.sources[|f.sources|..] == [];
    assert lines + [] == lines;
    lines := lines + ["updated: " + f.updated];
    lines := lines + [FENCE];
    lines := lines + [""];
    Regrouped(FirstLines(f), SourceLines(f.sources), "updated: " + f.updated);
    return Join(lines, "\n") + Terminated(body);
  }
}
