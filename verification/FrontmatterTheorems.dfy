/**
 * What reading a printed page gives back: every field as its own line is read, and so the same page exactly when
 * every field survives its line.
 */
module FrontmatterTheorems {
  import opened Text
  import opened Whitespace
  import Json
  import opened Frontmatter

  // ---------------------------------------------------------------- trimming

  lemma {:induction false} TrimLeftTwice(s: string)
    ensures TrimLeft(TrimLeft(s)) == TrimLeft(s)
  {
    TrimLeftSuffix(s);
  }

  lemma TrimLonger(s: string)
    ensures |Trim(s)| <= |s| && (|Trim(s)| == |s| ==> Trim(s) == s)
    ensures Trim(s) == s <==> IsTrimmed(s)
  {
    TrimTrims(s);
    TrimLeftSuffix(s);
    TrimRightPrefix(TrimLeft(s));
  }

  lemma TrimLeftTrimmed(s: string)
    requires IsTrimmed(s)
    ensures TrimLeft(s) == s
  {
  }

  lemma OneLineTail(s: string)
    requires OneLine(s)
    ensures OneLine(TrimLeft(s))
  {
    TrimLeftSuffix(s);
  }

  // ---------------------------------------------------------------- scalars

  lemma {:induction false} NatReads(n: nat)
    ensures NatOf(NatText(n)) == n
  {
    var digit := '0' + (n % 10) as char;
    if n < 10 {
      assert [digit][..0] == "";
    } else {
      NatReads(n / 10);
      assert NatText(n) == NatText(n / 10) + [digit];
      assert NatText(n)[..|NatText(n)| - 1] == NatText(n / 10);
    }
  }

  /** A printed number is read as that number. */
  lemma IntReads(n: int, json: JsonReader)
    ensures IsTrimmed(IntText(n)) && OneLine(IntText(n)) && ParseScalar(IntText(n), json) == Num(n)
  {
    hide NatText, Json.ReadQuoted, Json.ReadArray, Trim, NatOf;
    var text := IntText(n);
    if n < 0 {
      NatReads(-n);
      assert text[1..] == NatText(-n);
      assert text[|text| - 1] == NatText(-n)[|NatText(-n)| - 1];
    } else {
      NatReads(n);
      assert text[0] in text;
    }
    assert forall c :: c in text ==> c == '-' || Digit(c);
    assert text[0] in text && text[|text| - 1] in text;
    TrimLonger(text);
  }

  /** Text that stands for itself when it is read as a scalar. */
  predicate PlainScalar(v: string, json: JsonReader) {
    && IsTrimmed(v) && v != "true" && v != "false" && !IsInteger(v)
    && !Wrapped(v, '"') && !Wrapped(v, '\'')
    && (v != "" && v[0] == '[' ==> FromJson(Json.Requoted(v), json).None?)
  }

  lemma ScalarIff(v: string, json: JsonReader)
    requires ReadsTheRest(json)
    ensures ParseScalar(v, json) == Str(v) <==> PlainScalar(v, json)
  {
    hide Trim, Json.ReadArray, Json.ReadQuoted, Json.Requoted, IsTrimmed;
    TrimLonger(v);
    var value := Trim(v);
    if Wrapped(value, '"') {
      QuotedIsShorter(value, json);
    } else if value != "" && value[0] == '[' {
      BracketIsNoString(Json.Requoted(value), json);
    }
  }

  lemma QuotedIsShorter(value: string, json: JsonReader)
    requires ReadsTheRest(json) && Wrapped(value, '"')
    ensures FromJson(value, json).Some? && FromJson(value, json).value.Str? ==> |FromJson(value, json).value.s| < |value|
  {
    assert Json.ReadArray(value).None?;
  }

  lemma BracketIsNoString(text: string, json: JsonReader)
    requires ReadsTheRest(json) && text != "" && text[0] == '['
    ensures FromJson(text, json).Some? ==> !FromJson(text, json).value.Str?
  {
    assert Json.ReadQuoted(text).None?;
  }

  // ---------------------------------------------------------------- how each kind of line is read

  /** What follows a key and a blank, as it is read at the top level. */
  function ReadRaw(v: string, json: JsonReader): Option<Value> {
    var raw := TrimLeft(v);
    if OneLine(raw) then Some(ParseScalar(raw, json)) else None
  }

  /** The same after a dash: the whole text has to be one line. */
  function ReadDashed(v: string, json: JsonReader): Option<Value> {
    if OneLine(v) then Some(ParseScalar(TrimLeft(v), json)) else None
  }

  /** The same inside a source: nothing at all opens a list. */
  function ReadNested(v: string, json: JsonReader): Option<Value> {
    var raw := TrimLeft(v);
    if !OneLine(raw) then None else if raw == "" then Some(Arr([])) else Some(ParseScalar(raw, json))
  }

  lemma {:induction false} KeyEnds(key: string, rest: string)
    requires forall c :: c in key ==> WordChar(c)
    ensures WordLength(key + ":" + rest) == |key|
  {
    var text := key + ":" + rest;
    if key != "" {
      KeyEnds(key[1..], rest);
      assert text[1..] == key[1..] + ":" + rest;
    }
  }

  ghost predicate IsKey(key: string) {
    key != "" && forall c :: c in key ==> WordChar(c)
  }

  /** A line of a key and a value. */
  function KeyLine(key: string, v: string): string {
    key + ": " + v
  }

  lemma KeyLineMatches(key: string, v: string)
    requires IsKey(key)
    ensures MatchKeyed(KeyLine(key, v))
         == if OneLine(TrimLeft(v)) then Some(Keyed(key, TrimLeft(v))) else None
  {
    var line := KeyLine(key, v);
    assert line == key + ":" + (" " + v);
    KeyEnds(key, " " + v);
    assert line[|key| + 1..] == " " + v && (" " + v)[1..] == v && line[..|key|] == key;
    assert TrimLeft(" " + v) == TrimLeft(v);
  }

  lemma KeyLineStarts(key: string, v: string)
    requires IsKey(key)
    ensures TrimLeft(KeyLine(key, v)) == KeyLine(key, v) && MatchDashed(KeyLine(key, v)).None?
    ensures Indent(KeyLine(key, v)) == 0 && Trim(KeyLine(key, v)) != ""
  {
    var line := KeyLine(key, v);
    assert line[0] == key[0] && key[0] in key;
    assert WordChar(line[0]) && !IsSpace(line[0]) && line[0] in line;
    TrimTrims(line);
  }

  lemma SourcesIsTheWord(line: string)
    requires "sources:" <= line
    ensures WordLength(line) == 7 && line[..7] == "sources"
  {
    assert line == "sources" + ":" + line[8..];
    KeyEnds("sources", line[8..]);
  }

  lemma KeyLineIsNoSources(key: string, v: string)
    requires IsKey(key) && key != "sources"
    ensures !IsSourcesLine(KeyLine(key, v))
  {
    var line := KeyLine(key, v);
    assert line == key + ":" + (" " + v) && line[..|key|] == key;
    KeyEnds(key, " " + v);
    if "sources:" <= line {
      SourcesIsTheWord(line);
    }
  }

  function AfterField(st: Reading, key: string, v: Value): Reading {
    st.(fields := st.fields[key := Scalar(v)], inSources := false, current := false, list := None)
  }

  lemma ReadsField(st: Reading, key: string, v: string, json: JsonReader)
    requires IsKey(key) && key != "sources"
    ensures ReadLine(st, KeyLine(key, v), json)
         == if ReadRaw(v, json).Some? then Ok(AfterField(st, key, ReadRaw(v, json).value))
            else Err(UnreadableLine(KeyLine(key, v)))
  {
    hide ParseScalar, MatchKeyed, MatchDashed, Indent, Trim, TrimLeft, OneLine, IsSourcesLine, KeyLine, IsKey;
    KeyLineMatches(key, v);
    KeyLineStarts(key, v);
    KeyLineIsNoSources(key, v);
  }

  lemma ReadsSources(st: Reading, json: JsonReader)
    requires !st.inSources
    ensures ReadLine(st, "sources:", json) == Ok(Reading(st.fields["sources" := Sources([])], true, false, None, None))
  {
    assert "sources:"[0] == 's' && 's' in "sources:";
    TrimTrims("sources:");
    assert "sources:"[8..] == "";
  }

  lemma Indents(n: nat, blanks: string, text: string)
    requires |blanks| == n && (forall i :: 0 <= i < n ==> blanks[i] == ' ') && text != "" && !IsSpace(text[0])
    ensures TrimLeft(blanks + text) == text && Indent(blanks + text) == n && Trim(blanks + text) != ""
    decreases n
  {
    var line := blanks + text;
    if n > 0 {
      Indents(n - 1, blanks[1..], text);
      assert line[1..] == blanks[1..] + text;
    }
    assert text[0] in line by { assert line[n] == text[0]; }
    TrimTrims(line);
  }

  lemma DashMatches(v: string)
    ensures var line := "  - path: " + v;
            && Indent(line) == 2 && Trim(line) != "" && TrimLeft(line) == "- path: " + v
            && MatchDashed(line) == if OneLine(v) then Some(KeyLine("path", v)) else None
  {
    var line := "  - path: " + v;
    var text := "- path: " + v;
    assert line == "  " + text;
    Indents(2, "  ", text);
    var rest := KeyLine("path", v);
    assert text[1..] == " " + rest && (" " + rest)[1..] == rest;
    assert TrimLeft(rest) == rest;
    OneLineKey(v);
  }

  lemma OneLineKey(v: string)
    ensures OneLine(KeyLine("path", v)) <==> OneLine(v)
  {
    var line := KeyLine("path", v);
    assert line == "path: " + v;
    assert forall c :: c in "path: " ==> !IsLineTerminator(c);
    assert forall c :: c in line <==> c in "path: " || c in v;
  }

  /** The parser inside the sources, between two of them. */
  function Between(fields: map<string, Field>, items: seq<Item>): Reading {
    Reading(fields["sources" := Sources(items)], true, items != [], if items == [] then None else Some(2), None)
  }

  function Inside(fields: map<string, Field>, items: seq<Item>, last: Item, list: Option<string>): Reading {
    Reading(fields["sources" := Sources(items + [last])], true, true, Some(2), list)
  }

  lemma SetTwice(fields: map<string, Field>, a: seq<Item>, b: seq<Item>)
    ensures fields["sources" := Sources(a)]["sources" := Sources(b)] == fields["sources" := Sources(b)]
  {
  }

  lemma NoKeyFirst(line: string)
    requires line != "" && !WordChar(line[0]) && line[0] != 's'
    ensures MatchKeyed(line).None? && !IsSourcesLine(line)
  {
  }

  lemma ReadsPath(fields: map<string, Field>, items: seq<Item>, v: string, json: JsonReader)
    ensures var r := ReadLine(Between(fields, items), "  - path: " + v, json);
            if ReadDashed(v, json).Some?
            then r == Ok(Inside(fields, items, map["path" := ReadDashed(v, json).value], None))
            else r.Err?
  {
    hide ParseScalar, MatchKeyed, MatchDashed, Indent, Trim, TrimLeft, OneLine, KeyLine, WordLength, IsSourcesLine;
    var line := "  - path: " + v;
    DashMatches(v);
    KeyLineMatches("path", v);
    if OneLine(v) {
      OneLineTail(v);
    }
    NoKeyFirst(line);
    NoKeyFirst("- path: " + v);
    if ReadDashed(v, json).Some? {
      SetTwice(fields, items, items + [map["path" := ReadDashed(v, json).value]]);
    }
  }

  lemma NestedLine(key: string, v: string)
    requires IsKey(key)
    ensures var line := "    " + KeyLine(key, v);
            && Indent(line) == 4 && Trim(line) != "" && TrimLeft(line) == KeyLine(key, v)
            && MatchDashed(line).None? && MatchKeyed(line).None? && !IsSourcesLine(line)
  {
    var text := KeyLine(key, v);
    assert text[0] == key[0] && key[0] in key;
    Indents(4, "    ", text);
  }

  lemma SetsLast(fields: map<string, Field>, items: seq<Item>, last: Item, list: Option<string>, key: string, v: Value)
    ensures SetInSource(Inside(fields, items, last, list), key, v) == Inside(fields, items, last[key := v], list)
  {
    assert (items + [last])[..|items|] == items;
    SetTwice(fields, items + [last], items + [last[key := v]]);
  }

  lemma ReadsNested(fields: map<string, Field>, items: seq<Item>, last: Item, list: Option<string>, key: string,
                    v: string, json: JsonReader)
    requires IsKey(key)
    ensures var r := ReadLine(Inside(fields, items, last, list), "    " + KeyLine(key, v), json);
            if ReadNested(v, json).Some?
            then r == Ok(Inside(fields, items, last[key := ReadNested(v, json).value],
                                if TrimLeft(v) == "" then Some(key) else None))
            else r.Err?
  {
    hide ParseScalar, MatchKeyed, MatchDashed, Indent, Trim, TrimLeft, OneLine, IsSourcesLine, KeyLine, IsKey;
    hide SetInSource;
    NestedLine(key, v);
    KeyLineMatches(key, v);
    if ReadNested(v, json).Some? {
      SetsLast(fields, items, last, list, key, ReadNested(v, json).value);
    }
  }

  // ---------------------------------------------------------------- the whole header

  /** A source as its three lines are read. */
  function ReadSource(s: Source, json: JsonReader): Option<Item> {
    match (ReadDashed(s.path, json), ReadNested(s.sha256, json), ReadNested(Json.ArrayText(s.locators), json))
    case (Some(p), Some(h), Some(l)) => Some(map["path" := p, "sha256" := h, "locators" := l])
    case _ => None
  }

  function ReadSources(sources: seq<Source>, json: JsonReader): Option<seq<Item>> {
    if sources == [] then Some([])
    else
      match (ReadSource(sources[0], json), ReadSources(sources[1..], json))
      case (Some(item), Some(items)) => Some([item] + items)
      case _ => None
  }

  /** A page's fields as their lines are read. */
  function ReadFront(f: Front, json: JsonReader): Option<map<string, Field>> {
    match (ReadRaw(f.kind, json), ReadRaw(QuoteYamlScalar(f.summary), json), ReadRaw(f.managedBy, json),
           ReadRaw(f.schemaVersion, json), ReadSources(f.sources, json), ReadRaw(f.updated, json))
    case (Some(kind), Some(summary), Some(managedBy), Some(version), Some(items), Some(updated)) =>
      Some(map[
        "type" := Scalar(kind),
        "summary" := Scalar(summary),
        "managed_by" := Scalar(managedBy),
        "schema_version" := Scalar(version),
        "sources" := Sources(items),
        "updated" := Scalar(updated)
      ])
    case _ => None
  }

  lemma ReadsOneMore(st: Reading, line: string, rest: seq<string>, json: JsonReader)
    ensures ReadLines(st, [line] + rest, json)
         == (var r := ReadLine(st, line, json);
             if r.Ok? then ReadLines(r.value, rest, json) else Err(r.error))
  {
    assert ([line] + rest)[1..] == rest;
  }

  lemma ArrayTextIsNotBlank(items: seq<string>)
    ensures TrimLeft(Json.ArrayText(items)) == Json.ArrayText(items) != ""
  {
    assert Json.ArrayText(items)[0] == '[';
  }

  lemma ReadsSource(fields: map<string, Field>, items: seq<Item>, s: Source, rest: seq<string>, json: JsonReader)
    ensures var r := ReadLines(Between(fields, items), [PathLine(s), HashLine(s), LocatorsLine(s)] + rest, json);
            if ReadSource(s, json).Some?
            then r == ReadLines(Between(fields, items + [ReadSource(s, json).value]), rest, json)
            else r.Err?
  {
    hide ReadLine, ReadDashed, ReadNested, ReadLines, TrimLeft, Json.ArrayText;
    var hash, locators := HashLine(s), LocatorsLine(s);
    var text := Json.ArrayText(s.locators);
    assert hash == "    " + KeyLine("sha256", s.sha256);
    assert locators == "    " + KeyLine("locators", text);
    assert [PathLine(s), hash, locators] + rest == [PathLine(s)] + ([hash] + ([locators] + rest));
    ReadsPath(fields, items, s.path, json);
    ReadsOneMore(Between(fields, items), PathLine(s), [hash] + ([locators] + rest), json);
    if ReadDashed(s.path, json).Some? {
      var one := map["path" := ReadDashed(s.path, json).value];
      ReadsNested(fields, items, one, None, "sha256", s.sha256, json);
      ReadsOneMore(Inside(fields, items, one, None), hash, [locators] + rest, json);
      if ReadNested(s.sha256, json).Some? {
        var list := if TrimLeft(s.sha256) == "" then Some("sha256") else None;
        var two := one["sha256" := ReadNested(s.sha256, json).value];
        ReadsNested(fields, items, two, list, "locators", text, json);
        ReadsOneMore(Inside(fields, items, two, list), locators, rest, json);
        ArrayTextIsNotBlank(s.locators);
        if ReadNested(text, json).Some? {
          assert two["locators" := ReadNested(text, json).value] == ReadSource(s, json).value;
        }
      }
    }
  }

  lemma {:induction false} ReadsAllSources(fields: map<string, Field>, items: seq<Item>, sources: seq<Source>,
                                           rest: seq<string>, json: JsonReader)
    ensures var r := ReadLines(Between(fields, items), SourceLines(sources) + rest, json);
            if ReadSources(sources, json).Some?
            then r == ReadLines(Between(fields, items + ReadSources(sources, json).value), rest, json)
            else r.Err?
    decreases |sources|
  {
    hide ReadLines, ReadSource, PathLine, HashLine, LocatorsLine, Between;
    if sources == [] {
      assert SourceLines(sources) + rest == rest && items + [] == items;
    } else {
      var s := sources[0];
      var lines := SourceLines(sources[1..]) + rest;
      assert SourceLines(sources) + rest == [PathLine(s), HashLine(s), LocatorsLine(s)] + lines;
      ReadsSource(fields, items, s, lines, json);
      if ReadSource(s, json).Some? {
        var item := ReadSource(s, json).value;
        ReadsAllSources(fields, items + [item], sources[1..], rest, json);
        if ReadSources(sources[1..], json).Some? {
          var more := ReadSources(sources[1..], json).value;
          assert items + [item] + more == items + ([item] + more);
        }
      }
    }
  }

  lemma KeysAreKeys()
    ensures IsKey("type") && IsKey("summary") && IsKey("managed_by") && IsKey("schema_version") && IsKey("updated")
  {
    assert forall c :: c in "type" || c in "summary" || c in "managed_by" || c in "schema_version" || c in "updated"
             ==> WordChar(c);
  }

  /** The parser after the five first lines, given what they read. */
  function AfterFirst(kind: Value, summary: Value, managedBy: Value, version: Value): map<string, Field> {
    map[
      "type" := Scalar(kind),
      "summary" := Scalar(summary),
      "managed_by" := Scalar(managedBy),
      "schema_version" := Scalar(version)
    ]
  }

  function Flat(fields: map<string, Field>): Reading {
    Reading(fields, false, false, None, None)
  }

  /** Reading one field line from a state outside the sources. */
  lemma ReadsFlat(fields: map<string, Field>, key: string, v: string, rest: seq<string>, json: JsonReader)
    requires IsKey(key) && key != "sources"
    ensures var r := ReadLines(Flat(fields), [KeyLine(key, v)] + rest, json);
            if ReadRaw(v, json).Some?
            then r == ReadLines(Flat(fields[key := Scalar(ReadRaw(v, json).value)]), rest, json)
            else r.Err?
  {
    hide ReadLine, ReadLines, ReadRaw, KeyLine, IsKey;
    ReadsField(Flat(fields), key, v, json);
    ReadsOneMore(Flat(fields), KeyLine(key, v), rest, json);
  }

  lemma FirstFieldLines(f: Front, rest: seq<string>)
    ensures FirstLines(f) + rest
         == [KeyLine("type", f.kind)] + ([KeyLine("summary", QuoteYamlScalar(f.summary))]
            + ([KeyLine("managed_by", f.managedBy)]
            + ([KeyLine("schema_version", f.schemaVersion)] + (["sources:"] + rest))))
  {
    hide QuoteYamlScalar;
    assert KeyLine("type", f.kind) == "type: " + f.kind;
    assert KeyLine("summary", QuoteYamlScalar(f.summary)) == "summary: " + QuoteYamlScalar(f.summary);
    assert KeyLine("managed_by", f.managedBy) == "managed_by: " + f.managedBy;
    assert KeyLine("schema_version", f.schemaVersion) == "schema_version: " + f.schemaVersion;
  }

  predicate FirstRead(f: Front, json: JsonReader) {
    && ReadRaw(f.kind, json).Some? && ReadRaw(QuoteYamlScalar(f.summary), json).Some?
    && ReadRaw(f.managedBy, json).Some? && ReadRaw(f.schemaVersion, json).Some?
  }

  lemma ReadsFirst(f: Front, rest: seq<string>, json: JsonReader)
    ensures var r := ReadLines(START, FirstLines(f) + rest, json);
            if FirstRead(f, json)
            then
              var fields := AfterFirst(ReadRaw(f.kind, json).value, ReadRaw(QuoteYamlScalar(f.summary), json).value,
                                       ReadRaw(f.managedBy, json).value, ReadRaw(f.schemaVersion, json).value);
              r == ReadLines(Between(fields, []), rest, json)
            else r.Err?
  {
    hide ReadLine, ReadLines, ReadRaw, KeyLine, IsKey, QuoteYamlScalar, FirstLines;
    KeysAreKeys();
    FirstFieldLines(f, rest);
    var summary := QuoteYamlScalar(f.summary);
    var l5 := ["sources:"] + rest;
    var l4 := [KeyLine("schema_version", f.schemaVersion)] + l5;
    var l3 := [KeyLine("managed_by", f.managedBy)] + l4;
    var l2 := [KeyLine("summary", summary)] + l3;
    ReadsFlat(map[], "type", f.kind, l2, json);
    if ReadRaw(f.kind, json).Some? {
      var m1 := map["type" := Scalar(ReadRaw(f.kind, json).value)];
      ReadsFlat(m1, "summary", summary, l3, json);
      if ReadRaw(summary, json).Some? {
        var m2 := m1["summary" := Scalar(ReadRaw(summary, json).value)];
        ReadsFlat(m2, "managed_by", f.managedBy, l4, json);
        if ReadRaw(f.managedBy, json).Some? {
          var m3 := m2["managed_by" := Scalar(ReadRaw(f.managedBy, json).value)];
          ReadsFlat(m3, "schema_version", f.schemaVersion, l5, json);
          if ReadRaw(f.schemaVersion, json).Some? {
            var m4 := m3["schema_version" := Scalar(ReadRaw(f.schemaVersion, json).value)];
            ReadsSources(Flat(m4), json);
            ReadsOneMore(Flat(m4), "sources:", rest, json);
          }
        }
      }
    }
  }

  lemma ReadsLast(fields: map<string, Field>, items: seq<Item>, updated: string, json: JsonReader)
    ensures var r := ReadLines(Between(fields, items), ["updated: " + updated], json);
            if ReadRaw(updated, json).Some?
            then r.Ok? && r.value.fields
                       == fields["sources" := Sources(items)]["updated" := Scalar(ReadRaw(updated, json).value)]
            else r.Err?
  {
    hide ReadLine, ReadRaw;
    KeysAreKeys();
    assert "updated: " + updated == KeyLine("updated", updated);
    ReadsField(Between(fields, items), "updated", updated, json);
    ReadsOneMore(Between(fields, items), KeyLine("updated", updated), [], json);
    assert ["updated: " + updated] == [KeyLine("updated", updated)] + [];
  }

  /** Reading the lines of a header: every field as its own line is read, or an error if one cannot be read. */
  lemma ReadsHeader(f: Front, json: JsonReader)
    ensures var r := ReadLines(START, HeaderLines(f), json);
            if ReadFront(f, json).Some? then r.Ok? && r.value.fields == ReadFront(f, json).value else r.Err?
  {
    hide ReadLines, ReadRaw, ReadSources, FirstLines, SourceLines, Between, QuoteYamlScalar;
    var last := ["updated: " + f.updated];
    assert HeaderLines(f) == FirstLines(f) + (SourceLines(f.sources) + last);
    ReadsFirst(f, SourceLines(f.sources) + last, json);
    if FirstRead(f, json) {
      var fields := AfterFirst(ReadRaw(f.kind, json).value, ReadRaw(QuoteYamlScalar(f.summary), json).value,
                               ReadRaw(f.managedBy, json).value, ReadRaw(f.schemaVersion, json).value);
      ReadsAllSources(fields, [], f.sources, last, json);
      if ReadSources(f.sources, json).Some? {
        var items := ReadSources(f.sources, json).value;
        assert [] + items == items;
        ReadsLast(fields, items, f.updated, json);
      }
    }
  }

  // ---------------------------------------------------------------- the text of a page

  function Shifted(i: Option<nat>, n: nat): Option<nat> {
    if i.None? then None else Some(n + i.value)
  }

  lemma SkipChar(text: string, part: string)
    requires text != "" && part != "" && text[0] != part[0]
    ensures IndexOf(text, part) == Shifted(IndexOf(text[1..], part), 1)
  {
  }

  lemma {:induction false} SkipLine(line: string, rest: string, part: string)
    requires '\n' !in line && part != "" && part[0] == '\n'
    ensures IndexOf(line + rest, part) == Shifted(IndexOf(rest, part), |line|)
  {
    hide IndexOf;
    if line == "" {
      assert line + rest == rest;
    } else {
      SkipLine(line[1..], rest, part);
      assert (line + rest)[1..] == line[1..] + rest;
      assert (line + rest)[0] == line[0] && line[0] in line;
      SkipChar(line + rest, part);
    }
  }

  lemma OpeningChars(text: string)
    requires OPENING <= text
    ensures text[0] == '-' && text[1] == '-' && text[2] == '-' && text[3] == '\n'
  {
    assert text[..4] == OPENING;
    assert text[..4][0] == text[0] && text[..4][1] == text[1] && text[..4][2] == text[2] && text[..4][3] == text[3];
  }

  lemma ThreeDashes(line: string)
    requires |line| == 3 && line[0] == '-' && line[1] == '-' && line[2] == '-'
    ensures line == FENCE
  {
  }

  /** A line that is not the fence does not end the header. */
  lemma NotFence(line: string, rest: string)
    requires line != FENCE && '\n' !in line
    ensures !(OPENING <= line + "\n" + rest)
  {
    var text := line + "\n" + rest;
    assert forall i :: 0 <= i < |line| ==> text[i] == line[i] && line[i] in line;
    assert text[|line|] == '\n';
    if OPENING <= text {
      OpeningChars(text);
      if |line| == 3 {
        ThreeDashes(line);
      }
    }
  }

  lemma JoinMore(lines: seq<string>, line: string)
    requires lines != []
    ensures Join([line] + lines, "\n") == line + "\n" + Join(lines, "\n")
  {
    assert ([line] + lines)[1..] == lines;
  }

  lemma FeedThenOpening(more: string)
    requires CLOSING <= "\n" + more
    ensures OPENING <= more
  {
    var text := "\n" + more;
    assert text[..5] == CLOSING && CLOSING[1..] == OPENING;
    assert more[..4] == text[..5][1..];
  }

  lemma StepFeed(more: string)
    requires !(OPENING <= more)
    ensures IndexOf("\n" + more, CLOSING) == Shifted(IndexOf(more, CLOSING), 1)
  {
    var text := "\n" + more;
    assert text[1..] == more;
    if CLOSING <= text {
      FeedThenOpening(more);
    }
  }

  /** The fence is found right after the last header line. */
  lemma {:induction false} FindsFence(lines: seq<string>, rest: string)
    requires lines != [] && forall line :: line in lines ==> '\n' !in line && line != FENCE
    ensures IndexOf(Join(lines, "\n") + CLOSING + rest, CLOSING) == Some(|Join(lines, "\n")|)
  {
    hide IndexOf;
    var line := lines[0];
    if |lines| == 1 {
      assert Join(lines, "\n") == line;
      assert Join(lines, "\n") + CLOSING + rest == line + (CLOSING + rest);
      SkipLine(line, CLOSING + rest, CLOSING);
      FoundAtOnce(rest);
    } else {
      var more := Join(lines[1..], "\n") + CLOSING + rest;
      FindsFence(lines[1..], rest);
      assert lines == [line] + lines[1..];
      JoinMore(lines[1..], line);
      assert Join(lines, "\n") + CLOSING + rest == line + ("\n" + more);
      SkipLine(line, "\n" + more, CLOSING);
      NextIsNotFence(lines[1..], rest);
      StepFeed(more);
    }
  }

  lemma FoundAtOnce(rest: string)
    ensures IndexOf(CLOSING + rest, CLOSING) == Some(0)
  {
  }

  lemma NextIsNotFence(lines: seq<string>, rest: string)
    requires lines != [] && '\n' !in lines[0] && lines[0] != FENCE
    ensures !(OPENING <= Join(lines, "\n") + CLOSING + rest)
  {
    var line := lines[0];
    if |lines| == 1 {
      NotFence(line, OPENING + rest);
      assert Join(lines, "\n") + CLOSING + rest == line + "\n" + (OPENING + rest);
    } else {
      var more := Join(lines[1..], "\n") + CLOSING + rest;
      NotFence(line, more);
      assert lines == [line] + lines[1..];
      JoinMore(lines[1..], line);
      assert Join(lines, "\n") + CLOSING + rest == line + "\n" + more;
    }
  }

  lemma {:induction false} JoinFence(lines: seq<string>)
    requires lines != []
    ensures Join(lines + [FENCE, ""], "\n") == Join(lines, "\n") + CLOSING
  {
    var line := lines[0];
    if |lines| == 1 {
      assert lines + [FENCE, ""] == [line] + [FENCE, ""];
      JoinMore([FENCE, ""], line);
      assert [FENCE, ""] == [FENCE] + [""];
      JoinMore([""], FENCE);
      assert line + "\n" + (FENCE + "\n" + "") == line + CLOSING;
    } else {
      JoinFence(lines[1..]);
      assert lines + [FENCE, ""] == [line] + (lines[1..] + [FENCE, ""]);
      assert lines == [line] + lines[1..];
      JoinMore(lines[1..], line);
      JoinMore(lines[1..] + [FENCE, ""], line);
    }
  }

  lemma SerializedText(f: Front, body: string)
    ensures Serialized(f, body) == OPENING + (Join(HeaderLines(f), "\n") + CLOSING + Terminated(body))
  {
    hide FirstLines, SourceLines, Terminated;
    var lines := HeaderLines(f);
    assert [FENCE] + lines + [FENCE, ""] == [FENCE] + (lines + [FENCE, ""]);
    JoinMore(lines + [FENCE, ""], FENCE);
    JoinFence(lines);
  }

  /** The values that are printed as they are have no line feed in them, so every field is one line. */
  ghost predicate Separable(f: Front) {
    && '\n' !in f.kind && '\n' !in f.managedBy && '\n' !in f.schemaVersion && '\n' !in f.updated
    && forall s :: s in f.sources ==> '\n' !in s.path && '\n' !in s.sha256
  }

  // ---------------------------------------------------------------- one line each

  /** Neither of the two separators that JSON leaves as they are and `.` does not match. */
  predicate NoSeparators(s: string) {
    '\U{2028}' !in s && '\U{2029}' !in s
  }

  lemma OneLineJoin(a: string, b: string)
    ensures OneLine(a + b) <==> OneLine(a) && OneLine(b)
  {
    assert forall c :: c in a + b <==> c in a || c in b;
  }

  lemma EscapeOneLine(c: char)
    ensures OneLine(Json.Escape(c)) <==> c != '\U{2028}' && c != '\U{2029}'
    ensures '\n' !in Json.Escape(c)
  {
    var text := Json.Escape(c);
    if |text| == 6 {
      var hi, lo := Json.HexDigit(c as int / 16), Json.HexDigit(c as int % 16);
      assert text == "\\u00" + [hi, lo];
      assert !IsLineTerminator(hi) && !IsLineTerminator(lo);
    } else if |text| == 1 {
      assert text == [c] && c in text;
    }
  }

  lemma {:induction false} EscapedOneLine(s: string)
    ensures OneLine(Json.Escaped(s)) <==> NoSeparators(s)
    ensures '\n' !in Json.Escaped(s)
  {
    hide Json.Escape, OneLine;
    if s == "" {
      NoTextIsOneLine();
    } else {
      EscapeOneLine(s[0]);
      EscapedOneLine(s[1..]);
      OneLineJoin(Json.Escape(s[0]), Json.Escaped(s[1..]));
      assert s == [s[0]] + s[1..];
    }
  }

  lemma NoTextIsOneLine()
    ensures OneLine("") && OneLine("\"") && OneLine(",") && OneLine("[") && OneLine("]")
  {
  }

  lemma QuotedOneLine(s: string)
    ensures OneLine(Json.Quoted(s)) <==> NoSeparators(s)
    ensures '\n' !in Json.Quoted(s)
  {
    hide OneLine;
    EscapedOneLine(s);
    NoTextIsOneLine();
    OneLineJoin("\"", Json.Escaped(s));
    OneLineJoin("\"" + Json.Escaped(s), "\"");
  }

  lemma {:induction false} ListOneLine(items: seq<string>)
    ensures OneLine(Json.QuotedList(items)) <==> forall item :: item in items ==> NoSeparators(item)
    ensures '\n' !in Json.QuotedList(items)
  {
    hide OneLine, Json.Quoted, NoSeparators;
    NoTextIsOneLine();
    if items != [] {
      QuotedOneLine(items[0]);
      assert items == [items[0]] + items[1..];
      if |items| > 1 {
        ListOneLine(items[1..]);
        OneLineJoin(Json.Quoted(items[0]), ",");
        OneLineJoin(Json.Quoted(items[0]) + ",", Json.QuotedList(items[1..]));
      }
    }
  }

  lemma ArrayTextOneLine(items: seq<string>)
    ensures OneLine(Json.ArrayText(items)) <==> forall item :: item in items ==> NoSeparators(item)
    ensures '\n' !in Json.ArrayText(items)
  {
    hide OneLine, NoSeparators, Json.QuotedList;
    ListOneLine(items);
    NoTextIsOneLine();
    OneLineJoin("[", Json.QuotedList(items));
    OneLineJoin("[" + Json.QuotedList(items), "]");
  }

  ghost predicate HeaderLine(line: string) {
    '\n' !in line && line != FENCE
  }

  lemma PrefixedLine(prefix: string, v: string)
    requires |prefix| >= 3 && '\n' !in prefix && '\n' !in v && prefix[1] != '-'
    ensures HeaderLine(prefix + v)
  {
    assert (prefix + v)[1] == prefix[1] && FENCE[1] == '-';
  }

  lemma {:induction false} SourceLinesAreLines(sources: seq<Source>)
    requires forall s :: s in sources ==> '\n' !in s.path && '\n' !in s.sha256
    ensures forall line :: line in SourceLines(sources) ==> HeaderLine(line)
  {
    hide Json.ArrayText;
    if sources != [] {
      var s := sources[0];
      assert s in sources;
      SourceLinesAreLines(sources[1..]);
      ArrayTextOneLine(s.locators);
      PrefixedLine("  - path: ", s.path);
      PrefixedLine("    sha256: ", s.sha256);
      PrefixedLine("    locators: ", Json.ArrayText(s.locators));
    }
  }

  lemma SummaryHasNoFeed(s: string)
    ensures '\n' !in QuoteYamlScalar(s)
  {
    QuotedOneLine(s);
  }

  lemma HeaderLinesAreLines(f: Front)
    requires Separable(f)
    ensures forall line :: line in HeaderLines(f) ==> HeaderLine(line)
  {
    hide HeaderLine, SourceLines, QuoteYamlScalar, FENCE;
    SourceLinesAreLines(f.sources);
    SummaryHasNoFeed(f.summary);
    PrefixedLine("type: ", f.kind);
    PrefixedLine("summary: ", QuoteYamlScalar(f.summary));
    PrefixedLine("managed_by: ", f.managedBy);
    PrefixedLine("schema_version: ", f.schemaVersion);
    PrefixedLine("sources:", "");
    PrefixedLine("updated: ", f.updated);
    assert "sources:" + "" == "sources:";
  }

  /**
   * Reading a printed page, for every page whose plain values have no line feed: the terminated body, and each
   * field as its own line is read; or an error if some line cannot be read.
   */
  lemma ReadsPage(f: Front, body: string, json: JsonReader)
    requires Separable(f)
    ensures var r := Parsed(Serialized(f, body), json);
            if ReadFront(f, json).Some? then r == Ok(Page(ReadFront(f, json).value, Terminated(body))) else r.Err?
  {
    hide HeaderLines, Terminated, ReadFront, ReadLines, IndexOf;
    var lines := HeaderLines(f);
    HeaderIsNotEmpty(f);
    HeaderLinesAreLines(f);
    var header := Join(lines, "\n");
    var rest := header + CLOSING + Terminated(body);
    SerializedText(f, body);
    FindsFence(lines, Terminated(body));
    SplitJoin(lines, '\n');
    ReadsHeader(f, json);
    var text := Serialized(f, body);
    assert text[4..] == rest && rest[..|header|] == header && rest[|header| + 5..] == Terminated(body);
  }

  lemma HeaderIsNotEmpty(f: Front)
    ensures HeaderLines(f) != []
  {
  }

  // ---------------------------------------------------------------- what survives

  predicate RawFits(v: string, json: JsonReader) {
    OneLine(v) && PlainScalar(v, json)
  }

  lemma RawTrimmed(v: string, json: JsonReader)
    requires ReadsTheRest(json)
    ensures ParseScalar(TrimLeft(v), json) == Str(v) <==> PlainScalar(v, json)
  {
    hide ParseScalar, PlainScalar, Trim, IsTrimmed;
    ScalarIff(v, json);
    SameScalar(v, json);
  }

  lemma SameScalar(v: string, json: JsonReader)
    ensures ParseScalar(TrimLeft(v), json) == ParseScalar(v, json)
  {
    TrimLeftTwice(v);
  }

  lemma RawIff(v: string, json: JsonReader)
    requires ReadsTheRest(json)
    ensures ReadRaw(v, json) == Some(Str(v)) <==> RawFits(v, json)
    ensures ReadDashed(v, json) == Some(Str(v)) <==> RawFits(v, json)
    ensures ReadNested(v, json) == Some(Str(v)) <==> RawFits(v, json) && v != ""
  {
    hide ParseScalar, OneLine;
    RawTrimmed(v, json);
    if PlainScalar(v, json) {
      TrimLeftTrimmed(v);
    }
  }

  /** A summary survives unless it has a separator, or a carriage return and nothing that makes it quoted. */
  predicate SummaryFits(s: string) {
    NoSeparators(s) && ('\r' in s ==> NeedsQuotes(s))
  }

  lemma QuotedScalar(s: string, json: JsonReader)
    ensures ParseScalar(Json.Quoted(s), json) == Str(s) && TrimLeft(Json.Quoted(s)) == Json.Quoted(s)
  {
    hide Json.ReadQuoted, Json.Escaped;
    var text := Json.Quoted(s);
    assert text[0] == '"' && text[|text| - 1] == '"' && text[0] in text;
    assert !IsInteger(text) by { assert !Digit(text[0]); }
    assert text != "true" && text != "false";
    TrimLonger(text);
    Json.QuotedReads(s);
  }

  lemma SummaryIff(s: string, json: JsonReader)
    requires ReadsTheRest(json)
    ensures ReadRaw(QuoteYamlScalar(s), json) == Some(Str(s)) <==> SummaryFits(s)
  {
    hide ParseScalar, OneLine;
    if NeedsQuotes(s) {
      QuotedScalar(s, json);
      QuotedOneLine(s);
    } else {
      UnquotedIsPlain(s, json);
      RawIff(s, json);
      UnquotedOneLine(s);
    }
  }

  lemma UnquotedOneLine(s: string)
    requires !NeedsQuotes(s)
    ensures OneLine(s) <==> SummaryFits(s)
  {
  }

  lemma UnquotedIsPlain(s: string, json: JsonReader)
    requires !NeedsQuotes(s)
    ensures PlainScalar(s, json)
  {
    hide Trim;
    TrimLonger(s);
    assert s[0] in s && !Special(s[0]);
    assert Special('"') && Special('\'') && Special('[');
  }

  predicate LocatorsFit(items: seq<string>) {
    forall item :: item in items ==> NoSeparators(item) && '\'' !in item
  }

  lemma {:induction false} StringsDiffer(a: seq<string>, b: seq<string>)
    ensures Strings(a) == Strings(b) <==> a == b
  {
    if Strings(a) == Strings(b) {
      forall i | 0 <= i < |a| ensures a[i] == b[i] {
        assert Strings(a)[i] == Strings(b)[i];
      }
    }
  }

  lemma ArrayScalar(items: seq<string>, json: JsonReader)
    requires ReadsTheRest(json)
    ensures ParseScalar(Json.ArrayText(items), json) == Arr(Strings(items))
            <==> Json.ReadArray(Json.Requoted(Json.ArrayText(items))) == Some(items)
  {
    hide Json.ReadArray, Json.ReadQuoted, Json.QuotedList, Json.Requoted, Strings;
    var text := Json.ArrayText(items);
    assert text[0] == '[' && text[|text| - 1] == ']' && text[0] in text;
    assert !IsInteger(text) by { assert !Digit(text[0]); }
    assert text != "true" && text != "false";
    TrimLonger(text);
    var quoted := Json.Requoted(text);
    BracketIsNotQuoted(quoted);
    if Json.ReadArray(quoted).Some? {
      StringsDiffer(Json.ReadArray(quoted).value, items);
    }
  }

  lemma BracketIsNotQuoted(text: string)
    requires text != "" && text[0] == '['
    ensures Json.ReadQuoted(text).None?
  {
  }

  lemma LocatorsIff(items: seq<string>, json: JsonReader)
    requires ReadsTheRest(json)
    ensures ReadNested(Json.ArrayText(items), json) == Some(Arr(Strings(items))) <==> LocatorsFit(items)
  {
    hide ParseScalar, OneLine, Json.ArrayText, Json.ReadArray, Json.Requoted, NoSeparators;
    ArrayTextIsNotBlank(items);
    ArrayTextOneLine(items);
    ArrayScalar(items, json);
    Json.RequotedArrayIff(items);
  }

  predicate SourceFits(s: Source, json: JsonReader) {
    RawFits(s.path, json) && RawFits(s.sha256, json) && s.sha256 != "" && LocatorsFit(s.locators)
  }

  function ItemOf(s: Source): Item {
    map["path" := Str(s.path), "sha256" := Str(s.sha256), "locators" := Arr(Strings(s.locators))]
  }

  function ItemsOf(sources: seq<Source>): seq<Item> {
    if sources == [] then [] else [ItemOf(sources[0])] + ItemsOf(sources[1..])
  }

  /** Digits stand for their number, anything else for itself. */
  function VersionOf(v: string): Value {
    if IsInteger(v) then Num(IntOf(v)) else Str(v)
  }

  predicate VersionFits(v: string, json: JsonReader) {
    IsInteger(v) || RawFits(v, json)
  }

  lemma VersionIff(v: string, json: JsonReader)
    requires ReadsTheRest(json)
    ensures ReadRaw(v, json) == Some(VersionOf(v)) <==> VersionFits(v, json)
  {
    if IsInteger(v) {
      IntegerIsRead(v, json);
    } else {
      RawIff(v, json);
    }
  }

  lemma IntegerIsRead(v: string, json: JsonReader)
    requires IsInteger(v)
    ensures ReadRaw(v, json) == Some(Num(IntOf(v)))
  {
    hide Trim;
    assert v[0] in v && v[|v| - 1] in v;
    assert forall c :: c in v ==> c == '-' || Digit(c) by {
      if v[0] == '-' { assert v == ['-'] + v[1..]; }
    }
    TrimLonger(v);
    TrimLeftTrimmed(v);
  }

  function FieldsOf(f: Front): map<string, Field> {
    map[
      "type" := Scalar(Str(f.kind)),
      "summary" := Scalar(Str(f.summary)),
      "managed_by" := Scalar(Str(f.managedBy)),
      "schema_version" := Scalar(VersionOf(f.schemaVersion)),
      "sources" := Sources(ItemsOf(f.sources)),
      "updated" := Scalar(Str(f.updated))
    ]
  }

  lemma SourceIff(s: Source, json: JsonReader)
    requires ReadsTheRest(json)
    ensures ReadSource(s, json) == Some(ItemOf(s)) <==> SourceFits(s, json)
  {
    hide ReadDashed, ReadNested, RawFits, LocatorsFit, Strings, Json.ArrayText;
    RawIff(s.path, json);
    RawIff(s.sha256, json);
    LocatorsIff(s.locators, json);
    if ReadSource(s, json) == Some(ItemOf(s)) {
      var item := ReadSource(s, json).value;
      assert item["path"] == ItemOf(s)["path"] && item["sha256"] == ItemOf(s)["sha256"];
      assert item["locators"] == ItemOf(s)["locators"];
    }
  }

  lemma {:induction false} SourcesIff(sources: seq<Source>, json: JsonReader)
    requires ReadsTheRest(json)
    ensures ReadSources(sources, json) == Some(ItemsOf(sources)) <==> forall s :: s in sources ==> SourceFits(s, json)
  {
    hide ReadSource, SourceFits, ItemOf;
    if sources != [] {
      SourceIff(sources[0], json);
      SourcesIff(sources[1..], json);
      assert sources == [sources[0]] + sources[1..];
      var r := ReadSources(sources, json);
      if r == Some(ItemsOf(sources)) {
        assert r.value[0] == ItemsOf(sources)[0] && r.value[1..] == ItemsOf(sources)[1..];
        assert ItemsOf(sources)[1..] == ItemsOf(sources[1..]);
        assert r.value[1..] == ReadSources(sources[1..], json).value;
      }
    }
  }

  /** The page's fields and sources survive printing. */
  ghost predicate PageFits(f: Front, json: JsonReader) {
    && RawFits(f.kind, json) && SummaryFits(f.summary) && RawFits(f.managedBy, json)
    && VersionFits(f.schemaVersion, json) && RawFits(f.updated, json)
    && forall s :: s in f.sources ==> SourceFits(s, json)
  }

  lemma FrontIff(f: Front, json: JsonReader)
    requires ReadsTheRest(json)
    ensures ReadFront(f, json) == Some(FieldsOf(f)) <==> PageFits(f, json)
  {
    hide ReadRaw, ReadSources, RawFits, VersionFits, SummaryFits, SourceFits, QuoteYamlScalar, ItemsOf;
    RawIff(f.kind, json);
    SummaryIff(f.summary, json);
    RawIff(f.managedBy, json);
    VersionIff(f.schemaVersion, json);
    RawIff(f.updated, json);
    SourcesIff(f.sources, json);
    if ReadFront(f, json) == Some(FieldsOf(f)) {
      var m, n := ReadFront(f, json).value, FieldsOf(f);
      assert m["type"] == n["type"] && m["summary"] == n["summary"] && m["managed_by"] == n["managed_by"];
      assert m["updated"] == n["updated"] && m["sources"] == n["sources"];
      assert m["schema_version"] == n["schema_version"];
    }
  }

  /** The round trip, for pages whose bare values have no line feed. */
  lemma SeparableIff(f: Front, body: string, json: JsonReader)
    requires Separable(f) && ReadsTheRest(json)
    ensures Parsed(Serialized(f, body), json) == Ok(Page(FieldsOf(f), Terminated(body))) <==> PageFits(f, json)
  {
    hide Parsed, Serialized, ReadFront, FieldsOf, PageFits;
    ReadsPage(f, body, json);
    FrontIff(f, json);
  }
}
