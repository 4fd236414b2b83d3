/**
 * The round trip of a page for every header, line feeds included: a value that is read comes from one line and
 * is no longer than the line's text, so among the values that do not read as themselves a longest one is lost.
 */
module FrontmatterRoundTrip {
  import opened Text
  import opened Whitespace
  import Json
  import opened Frontmatter
  import opened FrontmatterTheorems

  // ---------------------------------------------------------------- where a value comes from

  /** The line gives a key this raw text, at the top level, nested, or after a dash. */
  predicate RawAt(line: string, key: string, raw: string) {
    || MatchKeyed(line) == Some(Keyed(key, raw))
    || MatchKeyed(TrimLeft(line)) == Some(Keyed(key, raw))
    || (MatchDashed(line).Some? && MatchKeyed(MatchDashed(line).value) == Some(Keyed(key, raw)))
  }

  ghost predicate Gives(line: string, key: string, s: string, json: JsonReader) {
    exists raw :: RawAt(line, key, raw) && ParseScalar(raw, json) == Str(s)
  }

  ghost predicate Given(lines: seq<string>, key: string, s: string, json: JsonReader) {
    exists line :: line in lines && Gives(line, key, s, json)
  }

  /** Every text the parser holds was given by one of the lines. */
  ghost predicate FromLines(fields: map<string, Field>, lines: seq<string>, json: JsonReader) {
    && (forall k, s :: k in fields && fields[k] == Scalar(Str(s)) ==> Given(lines, k, s, json))
    && (forall i, k, s :: 0 <= i < |Items(fields)| && k in Items(fields)[i] && Items(fields)[i][k] == Str(s) ==>
          Given(lines, k, s, json))
  }

  lemma GivenMore(lines: seq<string>, line: string, key: string, s: string, json: JsonReader)
    ensures Given(lines, key, s, json) ==> Given(lines + [line], key, s, json)
    ensures Gives(line, key, s, json) ==> Given(lines + [line], key, s, json)
  {
    assert line in lines + [line];
  }

  lemma FieldFromLines(fields: map<string, Field>, lines: seq<string>, line: string, key: string, raw: string, json: JsonReader)
    requires FromLines(fields, lines, json) && RawAt(line, key, raw)
    ensures FromLines(fields[key := Scalar(ParseScalar(raw, json))], lines + [line], json)
  {
    hide ParseScalar, RawAt;
    var next := fields[key := Scalar(ParseScalar(raw, json))];
    forall k, s | k in next && next[k] == Scalar(Str(s)) ensures Given(lines + [line], k, s, json) {
      if k == key {
        assert Gives(line, k, s, json);
      } else {
        assert fields[k] == Scalar(Str(s));
      }
      GivenMore(lines, line, k, s, json);
    }
    assert Items(next) == [] || Items(next) == Items(fields);
    forall i, k, s | 0 <= i < |Items(next)| && k in Items(next)[i] && Items(next)[i][k] == Str(s)
      ensures Given(lines + [line], k, s, json)
    {
      GivenMore(lines, line, k, s, json);
    }
  }

  /** New items that hold only old texts and texts of the line. */
  lemma ItemsFromLines(fields: map<string, Field>, items: seq<Item>, lines: seq<string>, line: string, json: JsonReader)
    requires FromLines(fields, lines, json)
    requires forall i, k, s :: 0 <= i < |items| && k in items[i] && items[i][k] == Str(s) ==>
               Given(lines, k, s, json) || Gives(line, k, s, json)
    ensures FromLines(fields["sources" := Sources(items)], lines + [line], json)
  {
    var next := fields["sources" := Sources(items)];
    forall k, s | k in next && next[k] == Scalar(Str(s)) ensures Given(lines + [line], k, s, json) {
      GivenMore(lines, line, k, s, json);
    }
    forall i, k, s | 0 <= i < |Items(next)| && k in Items(next)[i] && Items(next)[i][k] == Str(s)
      ensures Given(lines + [line], k, s, json)
    {
      GivenMore(lines, line, k, s, json);
    }
  }

  lemma SameFromLines(fields: map<string, Field>, lines: seq<string>, line: string, json: JsonReader)
    requires FromLines(fields, lines, json)
    ensures FromLines(fields, lines + [line], json)
  {
    forall k, s | k in fields && fields[k] == Scalar(Str(s)) ensures Given(lines + [line], k, s, json) {
      GivenMore(lines, line, k, s, json);
    }
    forall i, k, s | 0 <= i < |Items(fields)| && k in Items(fields)[i] && Items(fields)[i][k] == Str(s)
      ensures Given(lines + [line], k, s, json)
    {
      GivenMore(lines, line, k, s, json);
    }
  }

  lemma SetFromLines(st: Reading, lines: seq<string>, line: string, key: string, v: Value, json: JsonReader)
    requires FromLines(st.fields, lines, json)
    requires forall s :: v == Str(s) ==> Gives(line, key, s, json)
    ensures FromLines(SetInSource(st, key, v).fields, lines + [line], json)
  {
    var items := Items(st.fields);
    if items == [] {
      SameFromLines(st.fields, lines, line, json);
    } else {
      var next := items[..|items| - 1] + [items[|items| - 1][key := v]];
      ItemsFromLines(st.fields, next, lines, line, json);
    }
  }

  lemma SourceLineGives(st: Reading, lines: seq<string>, line: string, json: JsonReader)
    requires FromLines(st.fields, lines, json) && ReadSourceLine(st, line, json).Some?
    ensures FromLines(ReadSourceLine(st, line, json).value.fields, lines + [line], json)
  {
    hide ParseScalar, MatchKeyed, MatchDashed, Indent, TrimLeft, FromLines, SetInSource;
    var dashed := MatchDashed(line);
    var keyed := if dashed.Some? then MatchKeyed(dashed.value) else None;
    if keyed.Some? && (st.indent.None? || Indent(line) <= st.indent.value) {
      PushFromLines(st, lines, line, keyed.value, json);
    } else if dashed.Some? && st.list.Some? {
      ListFromLines(st, lines, line, ParseScalar(dashed.value, json), json);
    } else {
      var nested := MatchKeyed(TrimLeft(line));
      var v := if nested.value.raw == "" then Arr([]) else ParseScalar(nested.value.raw, json);
      assert RawAt(line, nested.value.key, nested.value.raw);
      SetFromLines(st, lines, line, nested.value.key, v, json);
    }
  }

  lemma PushFromLines(st: Reading, lines: seq<string>, line: string, keyed: Keyed, json: JsonReader)
    requires FromLines(st.fields, lines, json) && RawAt(line, keyed.key, keyed.raw)
    ensures FromLines(PushSource(st, map[keyed.key := ParseScalar(keyed.raw, json)]).fields, lines + [line], json)
  {
    hide ParseScalar, RawAt;
    ItemsFromLines(st.fields, Items(st.fields) + [map[keyed.key := ParseScalar(keyed.raw, json)]], lines, line, json);
  }

  lemma ListFromLines(st: Reading, lines: seq<string>, line: string, v: Value, json: JsonReader)
    requires FromLines(st.fields, lines, json)
    ensures FromLines(PushToList(st, v).fields, lines + [line], json)
  {
    hide FromLines, SetInSource;
    var items := Items(st.fields);
    SameFromLines(st.fields, lines, line, json);
    if items != [] && st.list.Some? && st.list.value in items[|items| - 1] {
      match items[|items| - 1][st.list.value]
      case Arr(values) => SetFromLines(st, lines, line, st.list.value, Arr(values + [v]), json);
      case _ =>
    }
  }

  lemma LineGives(st: Reading, lines: seq<string>, line: string, json: JsonReader)
    requires FromLines(st.fields, lines, json) && ReadLine(st, line, json).Ok?
    ensures FromLines(ReadLine(st, line, json).value.fields, lines + [line], json)
  {
    hide ParseScalar, MatchKeyed, MatchDashed, Indent, TrimLeft, Trim, FromLines, ReadSourceLine, IsSourcesLine;
    SameFromLines(st.fields, lines, line, json);
    if Trim(line) != "" {
      if st.inSources && ReadSourceLine(st, line, json).Some? {
        SourceLineGives(st, lines, line, json);
      } else if IsSourcesLine(line) {
        ItemsFromLines(st.fields, [], lines, line, json);
      } else {
        FieldFromLines(st.fields, lines, line, MatchKeyed(line).value.key, MatchKeyed(line).value.raw, json);
      }
    }
  }

  lemma {:induction false} LinesGive(st: Reading, done: seq<string>, lines: seq<string>, json: JsonReader)
    requires FromLines(st.fields, done, json) && ReadLines(st, lines, json).Ok?
    ensures FromLines(ReadLines(st, lines, json).value.fields, done + lines, json)
    decreases |lines|
  {
    hide ReadLine, FromLines;
    if lines == [] {
      assert done + lines == done;
    } else {
      LineGives(st, done, lines[0], json);
      LinesGive(ReadLine(st, lines[0], json).value, done + [lines[0]], lines[1..], json);
      assert done + lines == done + [lines[0]] + lines[1..];
    }
  }

  // ---------------------------------------------------------------- which lines a printed header has

  lemma {:induction false} SplitAt(a: string, b: string, c: char)
    ensures Split(a + [c] + b, c) == Split(a, c) + Split(b, c)
  {
    var text := a + [c] + b;
    if a == "" {
      assert text[0] == c && text[1..] == b;
      assert Split(a, c) == [""];
    } else {
      SplitAt(a[1..], b, c);
      assert text[0] == a[0] && text[1..] == a[1..] + [c] + b;
      Grown(a[0], c, Split(a[1..], c), Split(b, c));
    }
  }

  function Grow(x: char, c: char, pieces: seq<string>): seq<string>
    requires pieces != []
  {
    if x == c then [""] + pieces else [[x] + pieces[0]] + pieces[1..]
  }

  lemma Grown(x: char, c: char, a: seq<string>, b: seq<string>)
    requires a != []
    ensures Grow(x, c, a + b) == Grow(x, c, a) + b
  {
    assert (a + b)[1..] == a[1..] + b;
  }

  lemma {:induction false} FoundNoLater(a: string, part: string, b: string)
    requires part != ""
    ensures IndexOf(a + part + b, part).Some? && IndexOf(a + part + b, part).value <= |a|
  {
    var text := a + part + b;
    if a == "" {
      assert text == part + b && text[..|part|] == part;
    } else if !(part <= text) {
      FoundNoLater(a[1..], part, b);
      assert text[1..] == a[1..] + part + b;
    }
  }

  /** Every line of the header that is read is a line of the printed one. */
  lemma ReadLinesArePrinted(whole: string, rest: string, end: nat)
    requires IndexOf(whole + CLOSING + rest, CLOSING) == Some(end)
    ensures end <= |whole|
    ensures forall line :: line in Split((whole + CLOSING + rest)[..end], '\n') ==> line in Split(whole, '\n')
  {
    FoundNoLater(whole, CLOSING, rest);
    var text := whole + CLOSING + rest;
    assert text[..end] == whole[..end];
    if end < |whole| {
      assert text[end] == CLOSING[0] by { assert text[end..end + 5][0] == text[end]; }
      assert whole == whole[..end] + ['\n'] + whole[end + 1..];
      SplitAt(whole[..end], whole[end + 1..], '\n');
    } else {
      assert whole[..end] == whole;
    }
  }

  lemma {:induction false} LinesOfPieces(pieces: seq<string>, line: string)
    requires pieces != [] && line in Split(Join(pieces, "\n"), '\n')
    ensures exists piece :: piece in pieces && line in Split(piece, '\n')
  {
    if |pieces| == 1 {
      assert pieces[0] in pieces;
    } else {
      var rest := pieces[1..];
      assert pieces == [pieces[0]] + rest;
      JoinMore(rest, pieces[0]);
      assert Join(pieces, "\n") == pieces[0] + ['\n'] + Join(rest, "\n");
      SplitAt(pieces[0], Join(rest, "\n"), '\n');
      if line !in Split(pieces[0], '\n') {
        LinesOfPieces(rest, line);
      }
    }
  }

  /** The lines of a text: the first, to which a prefix may be put, and shorter ones. */
  lemma {:induction false} LinesOfValue(prefix: string, u: string, line: string)
    requires '\n' !in prefix && line in Split(prefix + u, '\n')
    ensures |Split(u, '\n')[0]| <= |u| && ('\n' !in u ==> Split(u, '\n')[0] == u)
    ensures line == prefix + Split(u, '\n')[0] || (|line| < |u| && '\n' in u)
  {
    FirstOfSplit(u);
    PrefixedSplit(prefix, u);
    if line != prefix + Split(u, '\n')[0] {
      assert line in Split(u, '\n')[1..];
      RestOfSplit(u, line);
    }
  }

  lemma {:induction false} FirstOfSplit(u: string)
    ensures |Split(u, '\n')[0]| <= |u| && ('\n' !in u ==> Split(u, '\n') == [u])
    ensures '\n' in u ==> |Split(u, '\n')[0]| < |u|
  {
    if u != "" {
      FirstOfSplit(u[1..]);
      if '\n' !in u {
        assert [u[0]] + u[1..] == u;
      }
    }
  }

  lemma {:induction false} PrefixedSplit(prefix: string, u: string)
    requires '\n' !in prefix
    ensures Split(prefix + u, '\n') == [prefix + Split(u, '\n')[0]] + Split(u, '\n')[1..]
  {
    if prefix == "" {
      assert prefix + u == u && prefix + Split(u, '\n')[0] == Split(u, '\n')[0];
    } else {
      PrefixedSplit(prefix[1..], u);
      assert (prefix + u)[1..] == prefix[1..] + u;
      assert [prefix[0]] + (prefix[1..] + Split(u, '\n')[0]) == prefix + Split(u, '\n')[0];
    }
  }

  lemma {:induction false} RestOfSplit(u: string, line: string)
    requires line in Split(u, '\n')[1..]
    ensures |line| < |u| && '\n' in u
    decreases |u|, 0
  {
    var rest := Split(u[1..], '\n');
    if u[0] == '\n' {
      AllOfSplit(u[1..], line);
    } else {
      assert Split(u, '\n')[1..] == rest[1..];
      RestOfSplit(u[1..], line);
    }
  }

  lemma {:induction false} AllOfSplit(u: string, line: string)
    requires line in Split(u, '\n')
    ensures |line| <= |u|
    decreases |u|, 1
  {
    FirstOfSplit(u);
    if line != Split(u, '\n')[0] {
      assert line in Split(u, '\n')[1..];
      RestOfSplit(u, line);
    }
  }

  // ---------------------------------------------------------------- what the printed lines give

  lemma KeyedShorter(text: string)
    ensures MatchKeyed(text).Some? ==> |MatchKeyed(text).value.raw| < |text|
    ensures MatchKeyed(text).Some? ==> forall c :: c in MatchKeyed(text).value.raw ==> c in text
  {
    var n := WordLength(text);
    if n < |text| {
      TrimLeftSuffix(text[n + 1..]);
    }
  }

  lemma DashedShorter(line: string)
    ensures MatchDashed(line).Some? ==> |MatchDashed(line).value| < |line|
    ensures MatchDashed(line).Some? ==> forall c :: c in MatchDashed(line).value ==> c in line
  {
    TrimLeftSuffix(line);
    var text := TrimLeft(line);
    if text != "" {
      TrimLeftSuffix(text[1..]);
    }
  }

  lemma RawShorter(line: string, key: string, raw: string)
    requires RawAt(line, key, raw)
    ensures |raw| < |line| && forall c :: c in raw ==> c in line
  {
    hide MatchKeyed, MatchDashed, TrimLeft;
    KeyedShorter(line);
    TrimLeftSuffix(line);
    KeyedShorter(TrimLeft(line));
    DashedShorter(line);
    if MatchDashed(line).Some? {
      KeyedShorter(MatchDashed(line).value);
    }
  }

  /** What a line of the piece printed for `u` under `own` can give. */
  predicate OfPiece(own: string, u: string, key: string, raw: string) {
    (key == own && raw == TrimLeft(Split(u, '\n')[0])) || ('\n' in u && |raw| < |u|)
  }

  lemma TopPiece(own: string, u: string, line: string, key: string, raw: string)
    requires IsKey(own) && line in Split(KeyLine(own, u), '\n') && RawAt(line, key, raw)
    ensures OfPiece(own, u, key, raw)
  {
    hide MatchKeyed, MatchDashed, TrimLeft, Split;
    var prefix := own + ": ";
    NoFeedInKey(own);
    assert KeyLine(own, u) == prefix + u;
    LinesOfValue(prefix, u, line);
    if line == prefix + Split(u, '\n')[0] {
      var first := Split(u, '\n')[0];
      assert line == KeyLine(own, first);
      KeyLineMatches(own, first);
      KeyLineStarts(own, first);
    } else {
      RawShorter(line, key, raw);
    }
  }

  lemma NoFeedInKey(own: string)
    requires IsKey(own)
    ensures '\n' !in own + ": "
  {
    assert !WordChar('\n');
  }

  lemma NestedPiece(own: string, u: string, line: string, key: string, raw: string)
    requires IsKey(own) && line in Split("    " + KeyLine(own, u), '\n') && RawAt(line, key, raw)
    ensures OfPiece(own, u, key, raw)
  {
    hide MatchKeyed, MatchDashed, TrimLeft, Split, Indent, IsSourcesLine;
    var prefix := "    " + (own + ": ");
    NoFeedInKey(own);
    assert "    " + KeyLine(own, u) == prefix + u;
    LinesOfValue(prefix, u, line);
    if line == prefix + Split(u, '\n')[0] {
      var first := Split(u, '\n')[0];
      assert line == "    " + KeyLine(own, first);
      NestedLine(own, first);
      KeyLineMatches(own, first);
    } else {
      RawShorter(line, key, raw);
    }
  }

  lemma DashGives(first: string, key: string, raw: string)
    requires RawAt("  - path: " + first, key, raw)
    ensures key == "path" && raw == TrimLeft(first)
  {
    hide MatchKeyed, MatchDashed, TrimLeft, Indent, IsSourcesLine;
    assert IsKey("path");
    DashMatches(first);
    KeyLineMatches("path", first);
    NoKeyFirst("  - path: " + first);
    NoKeyFirst("- path: " + first);
  }

  lemma DashPiece(u: string, line: string, key: string, raw: string)
    requires line in Split("  - path: " + u, '\n') && RawAt(line, key, raw)
    ensures OfPiece("path", u, key, raw)
  {
    hide RawAt, Split, TrimLeft;
    LinesOfValue("  - path: ", u, line);
    if line == "  - path: " + Split(u, '\n')[0] {
      DashGives(Split(u, '\n')[0], key, raw);
    } else {
      RawShorter(line, key, raw);
    }
  }

  lemma SourcesPiece(line: string, key: string, raw: string)
    requires line in Split("sources:", '\n') && RawAt(line, key, raw)
    ensures key == "sources"
  {
    hide Split, TrimLeft, WordLength;
    SplitPlain("sources:", '\n');
    assert line == "sources" + ":" + "";
    assert IsKey("sources");
    KeyEnds("sources", "");
    StartsWithWord(line);
    assert line[..7] == "sources";
  }

  lemma StartsWithWord(line: string)
    requires line != "" && WordChar(line[0])
    ensures TrimLeft(line) == line && MatchDashed(line).None?
  {
  }

  // ---------------------------------------------------------------- the longest value that is lost

  /** The texts printed as they are. */
  function RawValues(f: Front): seq<string> {
    [f.kind, f.managedBy, f.schemaVersion, f.updated] + SourceValues(f.sources)
  }

  function SourceValues(sources: seq<Source>): seq<string> {
    if sources == [] then [] else [sources[0].path, sources[0].sha256] + SourceValues(sources[1..])
  }

  /** Text that does not come back from its own line as the text or the number it is. */
  predicate Bad(v: string, json: JsonReader) {
    '\n' in v || !(ParseScalar(v, json) == Str(v) || IsInteger(v))
  }

  ghost predicate IsValueKey(key: string) {
    key in ["type", "managed_by", "schema_version", "updated", "path", "sha256"]
  }

  ghost predicate OfSome(values: seq<string>, raw: string) {
    exists u :: u in values && OfPiece("", u, "", raw)
  }

  lemma OfSomeMember(values: seq<string>, own: string, u: string, key: string, raw: string)
    requires u in values && OfPiece(own, u, key, raw)
    ensures OfSome(values, raw)
  {
    assert OfPiece("", u, "", raw);
  }

  lemma {:induction false} SourcePieces(sources: seq<Source>, piece: string, line: string, key: string, raw: string)
    requires piece in SourceLines(sources) && line in Split(piece, '\n') && RawAt(line, key, raw) && IsValueKey(key)
    ensures OfSome(SourceValues(sources), raw)
  {
    hide RawAt, Split, OfPiece, Json.ArrayText;
    var s := sources[0];
    assert IsKey("sha256") && IsKey("locators");
    if piece == PathLine(s) {
      DashPiece(s.path, line, key, raw);
      OfSomeMember(SourceValues(sources), "path", s.path, key, raw);
    } else if piece == HashLine(s) {
      assert piece == "    " + KeyLine("sha256", s.sha256);
      NestedPiece("sha256", s.sha256, line, key, raw);
      OfSomeMember(SourceValues(sources), "sha256", s.sha256, key, raw);
    } else if piece == LocatorsLine(s) {
      LocatorsPiece(s, line, key, raw);
    } else {
      SourcePieces(sources[1..], piece, line, key, raw);
      var u :| u in SourceValues(sources[1..]) && OfPiece("", u, "", raw);
      assert u in SourceValues(sources);
    }
  }

  lemma LocatorsPiece(s: Source, line: string, key: string, raw: string)
    requires line in Split(LocatorsLine(s), '\n') && RawAt(line, key, raw)
    ensures key == "locators"
  {
    hide RawAt, Split;
    assert IsKey("locators");
    assert LocatorsLine(s) == "    " + KeyLine("locators", Json.ArrayText(s.locators));
    ArrayTextOneLine(s.locators);
    NestedPiece("locators", Json.ArrayText(s.locators), line, key, raw);
  }

  lemma FirstPieces(f: Front, piece: string, line: string, key: string, raw: string)
    requires piece in FirstLines(f) + ["updated: " + f.updated]
    requires line in Split(piece, '\n') && RawAt(line, key, raw) && IsValueKey(key)
    ensures OfSome(RawValues(f), raw)
  {
    hide RawAt, Split, OfPiece, QuoteYamlScalar, SourceValues;
    KeysAreKeys();
    var values := RawValues(f);
    assert f.kind in values && f.managedBy in values && f.schemaVersion in values && f.updated in values;
    if piece == "sources:" {
      SourcesPiece(line, key, raw);
    } else if piece == KeyLine("summary", QuoteYamlScalar(f.summary)) {
      SummaryPiece(f, line, key, raw);
    } else if piece == KeyLine("type", f.kind) {
      TopPiece("type", f.kind, line, key, raw);
      OfSomeMember(values, "type", f.kind, key, raw);
    } else if piece == KeyLine("managed_by", f.managedBy) {
      TopPiece("managed_by", f.managedBy, line, key, raw);
      OfSomeMember(values, "managed_by", f.managedBy, key, raw);
    } else if piece == KeyLine("schema_version", f.schemaVersion) {
      TopPiece("schema_version", f.schemaVersion, line, key, raw);
      OfSomeMember(values, "schema_version", f.schemaVersion, key, raw);
    } else {
      WhichPiece(f, piece);
      TopPiece("updated", f.updated, line, key, raw);
      OfSomeMember(values, "updated", f.updated, key, raw);
    }
  }

  lemma WhichPiece(f: Front, piece: string)
    requires piece in FirstLines(f) + ["updated: " + f.updated]
    ensures piece in [KeyLine("type", f.kind), KeyLine("summary", QuoteYamlScalar(f.summary)),
                      KeyLine("managed_by", f.managedBy), KeyLine("schema_version", f.schemaVersion), "sources:",
                      KeyLine("updated", f.updated)]
  {
    hide QuoteYamlScalar;
    assert KeyLine("type", f.kind) == "type: " + f.kind;
    assert KeyLine("summary", QuoteYamlScalar(f.summary)) == "summary: " + QuoteYamlScalar(f.summary);
    assert KeyLine("managed_by", f.managedBy) == "managed_by: " + f.managedBy;
    assert KeyLine("schema_version", f.schemaVersion) == "schema_version: " + f.schemaVersion;
    assert KeyLine("updated", f.updated) == "updated: " + f.updated;
  }

  lemma SummaryPiece(f: Front, line: string, key: string, raw: string)
    requires line in Split(KeyLine("summary", QuoteYamlScalar(f.summary)), '\n') && RawAt(line, key, raw)
    ensures key == "summary"
  {
    hide RawAt, Split, QuoteYamlScalar;
    KeysAreKeys();
    SummaryHasNoFeed(f.summary);
    TopPiece("summary", QuoteYamlScalar(f.summary), line, key, raw);
  }

  /** What any line of the printed header gives one of the value keys comes from one of the bare values. */
  lemma HeaderGives(f: Front, line: string, key: string, raw: string)
    requires line in Split(Join(HeaderLines(f), "\n"), '\n') && RawAt(line, key, raw) && IsValueKey(key)
    ensures OfSome(RawValues(f), raw)
  {
    hide RawAt, Split, OfPiece, FirstLines, SourceLines;
    HeaderIsNotEmpty(f);
    LinesOfPieces(HeaderLines(f), line);
    var piece :| piece in HeaderLines(f) && line in Split(piece, '\n');
    if piece in SourceLines(f.sources) {
      SourcePieces(f.sources, piece, line, key, raw);
      var u :| u in SourceValues(f.sources) && OfPiece("", u, "", raw);
      assert u in RawValues(f);
    } else {
      FirstPieces(f, piece, line, key, raw);
    }
  }

  /** A value is never longer than the text it is read from, and as long only if it is that text. */
  lemma StringIsShorter(raw: string, json: JsonReader)
    requires ReadsTheRest(json) && ParseScalar(raw, json).Str?
    ensures |ParseScalar(raw, json).s| <= |raw|
    ensures |ParseScalar(raw, json).s| == |raw| ==> ParseScalar(raw, json).s == raw
  {
    hide Trim, Json.ReadArray, Json.ReadQuoted, Json.Requoted, IsTrimmed;
    TrimLonger(raw);
    var value := Trim(raw);
    if Wrapped(value, '"') {
      QuotedIsShorter(value, json);
    } else if value != "" && value[0] == '[' {
      BracketIsNoString(Json.Requoted(value), json);
    }
  }

  /** A longest bad value is not what any raw text of the header reads as. */
  lemma LongestIsLost(values: seq<string>, v: string, raw: string, json: JsonReader)
    requires ReadsTheRest(json) && Bad(v, json) && '\n' !in raw
    requires forall u :: u in values && Bad(u, json) ==> |u| <= |v|
    requires OfSome(values, raw)
    ensures ParseScalar(raw, json) != Str(v)
  {
    hide ParseScalar, Split, TrimLeft, IsInteger;
    if ParseScalar(raw, json).Str? {
      StringIsShorter(raw, json);
    }
    var u :| u in values && OfPiece("", u, "", raw);
    FirstOfSplit(u);
    TrimLeftSuffix(Split(u, '\n')[0]);
    SameScalar(u, json);
    if IsInteger(u) {
      IntegerIsNoText(u, json);
    }
    PieceIsLost(u, v, raw, json);
  }

  lemma PieceIsLost(u: string, v: string, raw: string, json: JsonReader)
    requires Bad(v, json) && OfPiece("", u, "", raw) && (Bad(u, json) ==> |u| <= |v|)
    requires ParseScalar(raw, json) == Str(v) ==> |v| <= |raw| && (|v| == |raw| ==> v == raw)
    requires |Split(u, '\n')[0]| <= |u| && ('\n' !in u ==> Split(u, '\n')[0] == u)
    requires '\n' in u ==> |Split(u, '\n')[0]| < |u|
    requires var first := Split(u, '\n')[0]; |TrimLeft(first)| <= |first| && TrimLeft(first) == first[|first| - |TrimLeft(first)|..]
    requires ParseScalar(TrimLeft(u), json) == ParseScalar(u, json) && (IsInteger(u) ==> ParseScalar(u, json).Num?)
    ensures ParseScalar(raw, json) != Str(v)
  {
    hide ParseScalar, Split, TrimLeft, IsInteger;
    if '\n' !in u {
      assert |TrimLeft(u)| == |u| ==> TrimLeft(u) == u;
    }
  }

  lemma IntegerIsNoText(u: string, json: JsonReader)
    requires IsInteger(u)
    ensures ParseScalar(u, json).Num?
  {
    IntegerIsRead(u, json);
    SameScalar(u, json);
  }

  lemma {:induction false} LongestBad(values: seq<string>, json: JsonReader) returns (v: string)
    requires exists u :: u in values && Bad(u, json)
    ensures v in values && Bad(v, json) && forall u :: u in values && Bad(u, json) ==> |u| <= |v|
  {
    hide Bad;
    var front, last := values[..|values| - 1], values[|values| - 1];
    assert values == front + [last];
    if exists u :: u in front && Bad(u, json) {
      v := LongestBad(front, json);
      if Bad(last, json) && |last| > |v| {
        v := last;
      }
    } else {
      v := last;
    }
  }

  /** Which key has to read as `v` if the page is to come back. */
  lemma {:induction false} ValueIsExpected(f: Front, v: string, json: JsonReader) returns (key: string)
    requires v in RawValues(f) && Bad(v, json) && ReadsTheRest(json)
    ensures IsValueKey(key)
    ensures (key in FieldsOf(f) && FieldsOf(f)[key] == Scalar(Str(v)))
            || exists i :: 0 <= i < |ItemsOf(f.sources)| && key in ItemsOf(f.sources)[i] && ItemsOf(f.sources)[i][key] == Str(v)
  {
    hide ParseScalar, ItemsOf;
    BadIsNoInteger(v, json);
    if v == f.kind {
      key := "type";
    } else if v == f.managedBy {
      key := "managed_by";
    } else if v == f.schemaVersion {
      key := "schema_version";
    } else if v == f.updated {
      key := "updated";
    } else {
      key := SourceValueIsExpected(f.sources, v);
    }
  }

  lemma IntegerHasNoFeed(v: string)
    requires IsInteger(v)
    ensures '\n' !in v
  {
    assert !Digit('\n');
    if v[0] == '-' { assert v == ['-'] + v[1..]; }
  }

  lemma BadIsNoInteger(v: string, json: JsonReader)
    requires Bad(v, json)
    ensures !IsInteger(v)
  {
    if IsInteger(v) { IntegerHasNoFeed(v); }
  }

  lemma {:induction false} SourceValueIsExpected(sources: seq<Source>, v: string) returns (key: string)
    requires v in SourceValues(sources)
    ensures key == "path" || key == "sha256"
    ensures exists i :: 0 <= i < |ItemsOf(sources)| && key in ItemsOf(sources)[i] && ItemsOf(sources)[i][key] == Str(v)
  {
    hide Strings;
    var items := ItemsOf(sources);
    assert items[0] == ItemOf(sources[0]);
    if v == sources[0].path {
      key := "path";
      assert items[0][key] == Str(v);
    } else if v == sources[0].sha256 {
      key := "sha256";
      assert items[0][key] == Str(v);
    } else {
      key := SourceValueIsExpected(sources[1..], v);
      var i :| 0 <= i < |ItemsOf(sources[1..])| && key in ItemsOf(sources[1..])[i] && ItemsOf(sources[1..])[i][key] == Str(v);
      assert items[i + 1] == ItemsOf(sources[1..])[i];
    }
  }

  /** A header with a line feed in a bare value never comes back as it was. */
  lemma FeedIsLost(f: Front, body: string, json: JsonReader)
    requires ReadsTheRest(json) && !Separable(f)
    ensures Parsed(Serialized(f, body), json) != Ok(Page(FieldsOf(f), Terminated(body)))
  {
    hide Parsed, Serialized, FieldsOf, Terminated, RawValues, Bad;
    if Parsed(Serialized(f, body), json) == Ok(Page(FieldsOf(f), Terminated(body))) {
      FeedIsBad(f, json);
      var v := LongestBad(RawValues(f), json);
      var key := ValueIsExpected(f, v, json);
      var line := ExpectedIsGiven(f, body, key, v, json);
      var raw :| RawAt(line, key, raw) && ParseScalar(raw, json) == Str(v);
      RawOfLine(f, line, key, raw);
      LongestIsLost(RawValues(f), v, raw, json);
    }
  }

  lemma RawOfLine(f: Front, line: string, key: string, raw: string)
    requires line in Split(Join(HeaderLines(f), "\n"), '\n') && RawAt(line, key, raw) && IsValueKey(key)
    ensures OfSome(RawValues(f), raw) && '\n' !in raw
  {
    HeaderGives(f, line, key, raw);
    RawShorter(line, key, raw);
  }

  lemma FeedIsBad(f: Front, json: JsonReader)
    requires !Separable(f)
    ensures exists u :: u in RawValues(f) && Bad(u, json)
  {
    hide SourceValues, ParseScalar;
    var values := RawValues(f);
    assert f.kind in values && f.managedBy in values && f.schemaVersion in values && f.updated in values;
    if s :| s in f.sources && ('\n' in s.path || '\n' in s.sha256) {
      SourceIsValue(f.sources, s);
      assert s.path in values && s.sha256 in values;
      assert Bad(s.path, json) || Bad(s.sha256, json);
    } else {
      assert Bad(f.kind, json) || Bad(f.managedBy, json) || Bad(f.schemaVersion, json) || Bad(f.updated, json);
    }
  }

  lemma {:induction false} SourceIsValue(sources: seq<Source>, s: Source)
    requires s in sources
    ensures s.path in SourceValues(sources) && s.sha256 in SourceValues(sources)
  {
    if s != sources[0] {
      SourceIsValue(sources[1..], s);
    }
  }

  /** In a page that came back, a line of the printed header gave the key its text. */
  lemma ExpectedIsGiven(f: Front, body: string, key: string, v: string, json: JsonReader) returns (line: string)
    requires Parsed(Serialized(f, body), json) == Ok(Page(FieldsOf(f), Terminated(body)))
    requires (key in FieldsOf(f) && FieldsOf(f)[key] == Scalar(Str(v)))
             || exists i :: 0 <= i < |ItemsOf(f.sources)| && key in ItemsOf(f.sources)[i] && ItemsOf(f.sources)[i][key] == Str(v)
    ensures line in Split(Join(HeaderLines(f), "\n"), '\n') && Gives(line, key, v, json)
  {
    hide Serialized, FieldsOf, ItemsOf, Terminated, HeaderLines, ReadLines, IndexOf, Split, Gives;
    var text, whole := Serialized(f, body), Join(HeaderLines(f), "\n");
    SerializedText(f, body);
    assert text[4..] == whole + CLOSING + Terminated(body);
    var end := IndexOf(text[4..], CLOSING).value;
    var lines := Split(text[4..][..end], '\n');
    ReadLinesArePrinted(whole, Terminated(body), end);
    StartsEmpty(json);
    LinesGive(START, [], lines, json);
    assert [] + lines == lines;
    ItemsOfFields(f);
    assert Given(lines, key, v, json);
    line :| line in lines && Gives(line, key, v, json);
  }

  lemma StartsEmpty(json: JsonReader)
    ensures FromLines(START.fields, [], json)
  {
  }

  lemma ItemsOfFields(f: Front)
    ensures Items(FieldsOf(f)) == ItemsOf(f.sources)
  {
  }

  /**
   * The round trip, for every header: printing a page and reading it gives the same fields, the same sources and
   * the terminated body exactly when every field fits its line.
   */
  lemma RoundTripIff(f: Front, body: string, json: JsonReader)
    requires ReadsTheRest(json)
    ensures Parsed(Serialized(f, body), json) == Ok(Page(FieldsOf(f), Terminated(body))) <==> PageFits(f, json)
  {
    hide Parsed, Serialized, FieldsOf;
    if Separable(f) {
      SeparableIff(f, body, json);
    } else {
      FeedIsLost(f, body, json);
      FitsIsSeparable(f, json);
    }
  }

  lemma FitsIsSeparable(f: Front, json: JsonReader)
    ensures PageFits(f, json) ==> Separable(f)
  {
    hide PlainScalar, SummaryFits, LocatorsFit;
    assert IsLineTerminator('\n');
    if IsInteger(f.schemaVersion) { IntegerHasNoFeed(f.schemaVersion); }
  }
}
