/**
 * Inputs on which orphan collection and repair leave what lint reports, or do not return: a link in a cited path, a
 * link that starts in one and ends in the body, a blank at the end of a path, and a line feed in a header value.
 */
module RepairLosses {
  import opened Text
  import opened Whitespace
  import opened SourcePlan
  import opened WikiTree
  import opened WikiIndex
  import opened Links
  import opened PageFile
  import opened Quality
  import opened QualityTheorems
  import F = Frontmatter
  import T = FrontmatterTheorems
  import Json

  // ---------------------------------------------------------------- one page, one source

  function HeaderFields(items: seq<F.Item>, updated: string): map<string, F.Field> {
    map[
      "type" := F.Scalar(F.Str("term")),
      "summary" := F.Scalar(F.Str("S")),
      "managed_by" := F.Scalar(F.Str("llm-wiki")),
      "schema_version" := F.Scalar(F.Num(1)),
      "sources" := F.Sources(items),
      "updated" := F.Scalar(F.Str(updated))
    ]
  }

  function SourceItem(path: string, hash: string): F.Item {
    map["path" := F.Str(path), "sha256" := F.Str(hash), "locators" := F.Arr([])]
  }

  function CitingFields(path: string, hash: string, updated: string): map<string, F.Field> {
    HeaderFields([SourceItem(path, hash)], updated)
  }

  function CitingDraft(path: string, hash: string, updated: string): Draft {
    Draft(CitingFields(path, hash, updated), "\n")
  }

  function CitingFront(path: string, hash: string, updated: string): F.Front {
    F.Front("term", "S", "llm-wiki", "1", [F.Source(path, hash, [])], updated)
  }

  /** A file with one source; the path and the date are given as they stand in their lines. */
  function CitingText(path: string, hash: string, updated: string): string {
    F.Serialized(CitingFront(path, hash, updated), "\n")
  }

  function CitingPage(text: string, path: string, hash: string, updated: string): (page: Page)
    ensures page.Page?
  {
    Page(text, CitingFields(path, hash, updated), "\n")
  }

  function OnePage(page: Page): Wiki {
    Wiki(map["p" := page], None, map[])
  }

  function OneSource(path: string): Sources {
    map[path := Entry(Some("h"), None, None, true, None, None)]
  }

  /** Nothing to redact, nothing too long. */
  ghost predicate Quiet(r: Rules) {
    SoundRules(r) && (forall s :: r.redact(s) == s) && (forall s :: r.size(s) <= r.maxBytes)
  }

  /** The sources of a page with one, which is imported. */
  ghost predicate CitesOne(page: Page, path: string) {
    && page.Page? && |Cited(page)| == 1 && Visited(page) == Cited(page)
    && KeyOf(Cited(page)[0]) == path && PathOf(Cited(page)[0]) == path
  }

  lemma CitedOfOne(text: string, path: string, hash: string, updated: string)
    ensures CitesOne(CitingPage(text, path, hash, updated), path)
  {
  }

  lemma GcKeeps(r: Rules, page: Page, path: string)
    requires Sorts(r.order) && CitesOne(page, path)
    ensures var w := OnePage(page);
            && Gc(r, Real(r), w, OneSource(path), []) == Some(w) && Gc(r, Meant(r), w, OneSource(path), []) == Some(w)
            && Marked(w, OneSource(path), []) == OneSource(path)
  {
    hide Real, Meant, Rebuilt, KeyOf, CitedIn, VisitedIn, PathOf;
    assert KeptItems(Cited(page), OneSource(path)) == Cited(page) by {
      assert Cited(page) == [Cited(page)[0]] && Cited(page)[1..] == [];
    }
    assert FateOf(page, OneSource(path), []) == Keep;
  }

  ghost predicate SummaryIsS(page: Page) {
    page.Page? ==> "summary" in page.fields && page.fields["summary"] == F.Scalar(F.Str("S"))
  }

  lemma SummaryStays(page: Page)
    requires page.Page? && SummaryIsS(page)
    ensures IndexWrites(page, "p") == []
  {
    assert Trim("S") == "S" by { T.TrimLonger("S"); }
  }

  /** The index rebuild over one page whose summary stays. */
  lemma RebuildsOne(r: Rules, page: Page)
    requires Sorts(r.order) && SummaryIsS(page)
    ensures var w := Rebuilt(r, Real(r), OnePage(page));
            if page.Broken? then w.None? else w.Some? && w.value.pages == map["p" := page]
  {
    hide Real, IndexText;
    if page.Page? {
      SummaryStays(page);
    }
    assert IndexedPages(Real(r), OnePage(page).pages)["p"] == page;
  }

  lemma RepairsOne(r: Rules, page: Page, sources: Sources, after: Page)
    requires Sorts(r.order) && after == RepairPage(r, Real(r), Real(r).unlink(OnePage(page), page), sources)
    requires SummaryIsS(after)
    ensures var w := Repair(r, Real(r), OnePage(page), sources);
            if after.Broken? then w.None? else w.Some? && w.value.pages == map["p" := after]
  {
    hide Real, Rebuilt, RepairPage;
    RebuildsOne(r, after);
    assert RepairedPages(r, Real(r), OnePage(page), sources) == map["p" := after];
  }

  lemma ReportsUnrecorded(r: Rules, w: Wiki, page: Page, path: string, sources: Sources)
    requires w.pages == map["p" := page] && CitesOne(page, path) && !IsImported(sources, path)
    ensures IsLintError(r, w, sources, NotImported("p", path))
  {
    hide CitedIn, VisitedIn, KeyOf, IndexError;
    var e := NotImported("p", path);
    assert RefError(Visited(page)[0], "p", sources, e);
    assert PageError(r, w, "p", sources, e);
  }

  lemma OneMisfit(r: Rules, w: Wiki, sources: Sources, slug: Slug)
    requires Sorts(r.order) && Gc(r, Meant(r), w, sources, []) == Some(w) && slug in w.pages
    requires !RepairFits(r, w, w.pages[slug], slug, Marked(w, sources, []))
    ensures !RunFits(r, w, sources, [])
  {
    hide Gc, Meant, RepairFits, GcFits, Marked, Stays;
  }

  lemma ShorterIsUnknown(a: string, b: string)
    requires a != b
    ensures !IsImported(OneSource(b), a)
  {
  }

  lemma SummaryOfCiting(text: string, path: string, hash: string, updated: string)
    ensures SummaryIsS(CitingPage(text, path, hash, updated))
  {
  }

  // ---------------------------------------------------------------- the text around the path

  lemma {:induction false} JoinAround(first: seq<string>, x: string, rest: seq<string>)
    requires first != [] && rest != []
    ensures Join(first + [x] + rest, "\n") == Join(first, "\n") + "\n" + x + "\n" + Join(rest, "\n")
  {
    if |first| == 1 {
      assert first + [x] + rest == [first[0]] + ([x] + rest) && first == [first[0]];
      T.JoinMore([x] + rest, first[0]);
      T.JoinMore(rest, x);
    } else {
      JoinAround(first[1..], x, rest);
      assert first + [x] + rest == [first[0]] + (first[1..] + [x] + rest);
      T.JoinMore(first[1..] + [x] + rest, first[0]);
      assert first == [first[0]] + first[1..];
      T.JoinMore(first[1..], first[0]);
    }
  }

  function Before(): string {
    F.OPENING + Join(F.FirstLines(CitingFront("", "", "")), "\n") + "\n" + "  - path: "
  }

  function LinesAfter(hash: string, updated: string): seq<string> {
    ["    sha256: " + hash, "    locators: []", "updated: " + updated]
  }

  function After(hash: string, updated: string): string {
    "\n" + Join(LinesAfter(hash, updated), "\n") + F.CLOSING + "\n"
  }

  lemma CitingAround(path: string, hash: string, updated: string)
    ensures CitingText(path, hash, updated) == Before() + path + After(hash, updated)
  {
    hide F.FirstLines, F.QuoteYamlScalar, Join, LinesAfter;
    var f := CitingFront(path, hash, updated);
    T.SerializedText(f, "\n");
    LinesOfCiting(path, hash, updated);
    FirstOfCiting(path, hash, updated);
    JoinAround(F.FirstLines(f), "  - path: " + path, LinesAfter(hash, updated));
    var first, last := Join(F.FirstLines(f), "\n"), Join(LinesAfter(hash, updated), "\n");
    GroupText(F.OPENING, first, "  - path: ", path, last, F.CLOSING, "\n");
  }

  lemma FirstOfCiting(path: string, hash: string, updated: string)
    ensures F.FirstLines(CitingFront(path, hash, updated)) == F.FirstLines(CitingFront("", "", ""))
    ensures F.FirstLines(CitingFront(path, hash, updated)) != []
  {
  }

  lemma LinesOfCiting(path: string, hash: string, updated: string)
    ensures var f := CitingFront(path, hash, updated);
            F.HeaderLines(f) == F.FirstLines(f) + ["  - path: " + path] + LinesAfter(hash, updated)
    ensures LinesAfter(hash, updated) != [] && F.Terminated("\n") == "\n"
  {
    hide F.FirstLines;
    var f := CitingFront(path, hash, updated);
    assert f.sources[1..] == [] && F.SourceLines([]) == [];
    assert Json.ArrayText([]) == "[]" && F.LocatorsLine(f.sources[0]) == "    locators: []";
    assert F.SourceLines(f.sources) == ["  - path: " + path, "    sha256: " + hash, "    locators: []"];
    assert F.HeaderLines(f) == F.FirstLines(f) + F.SourceLines(f.sources) + ["updated: " + updated];
  }

  // ---------------------------------------------------------------- texts without a link

  /** No two opening brackets in a row. */
  predicate NoOpening(s: string) {
    forall i :: 0 <= i < |s| - 1 ==> !(s[i] == '[' && s[i + 1] == '[')
  }

  lemma OpeningTail(s: string)
    requires NoOpening(s) && s != ""
    ensures NoOpening(s[1..])
  {
    forall i | 0 <= i < |s[1..]| - 1 ensures !(s[1..][i] == '[' && s[1..][i + 1] == '[') {
      assert s[1..][i] == s[i + 1] && s[1..][i + 1] == s[i + 2];
    }
  }

  lemma {:induction false} NoLinks(s: string, resolves: string -> bool)
    requires NoOpening(s)
    ensures DropDead(s, resolves) == s && !HasDead(s, resolves)
    decreases |s|
  {
    hide NoOpening;
    if s != "" {
      NotALink(s);
      DropOne(s, resolves);
      OpeningTail(s);
      NoLinks(s[1..], resolves);
      assert [s[0]] + s[1..] == s;
    }
  }

  lemma NotALink(s: string)
    requires s != "" && NoOpening(s)
    ensures MatchLink(s).None?
  {
    if |s| >= 2 {
      assert !(s[0] == '[' && s[1] == '[');
    }
  }

  lemma NoOpeningFeed(a: string, b: string)
    requires NoOpening(a) && NoOpening(b)
    ensures NoOpening(a + "\n" + b)
  {
    var s := a + "\n" + b;
    forall i | 0 <= i < |s| - 1 ensures !(s[i] == '[' && s[i + 1] == '[') {
      if i >= |a| + 1 {
        assert s[i] == b[i - |a| - 1] && s[i + 1] == b[i - |a|];
      }
    }
  }

  lemma {:induction false} JoinHasNoOpening(lines: seq<string>)
    requires forall line :: line in lines ==> NoOpening(line)
    ensures NoOpening(Join(lines, "\n"))
  {
    hide NoOpening;
    if |lines| > 1 {
      JoinHasNoOpening(lines[1..]);
      NoOpeningFeed(lines[0], Join(lines[1..], "\n"));
    } else if |lines| == 1 {
      assert Join(lines, "\n") == lines[0];
    } else {
      NothingOpens();
    }
  }

  lemma NothingOpens()
    ensures NoOpening("") && NoOpening("---\n") && NoOpening("    locators: []")
  {
  }

  lemma {:induction false} JoinHasNoBracket(lines: seq<string>)
    requires forall line :: line in lines ==> '[' !in line
    ensures '[' !in Join(lines, "\n")
  {
    if |lines| > 1 {
      JoinHasNoBracket(lines[1..]);
    }
  }

  lemma BeforeHasNoBracket()
    ensures '[' !in Before()
  {
    hide F.FirstLines;
    FirstHaveNoBracket();
    JoinHasNoBracket(F.FirstLines(CitingFront("", "", "")));
    hide Join;
  }

  lemma {:induction false} EscapedHasNoBracket(s: string)
    requires '[' !in s
    ensures '[' !in Json.Escaped(s)
  {
    if s != "" {
      EscapedHasNoBracket(s[1..]);
    }
  }

  lemma QuotedHasNoBracket(s: string)
    requires '[' !in s
    ensures '[' !in Json.Quoted(s) && '[' !in F.QuoteYamlScalar(s)
  {
    EscapedHasNoBracket(s);
    hide Json.Escaped, F.NeedsQuotes;
  }

  lemma FirstHaveNoBracket()
    ensures forall line :: line in F.FirstLines(CitingFront("", "", "")) ==> '[' !in line
  {
    hide F.QuoteYamlScalar;
    QuotedHasNoBracket("S");
  }

  lemma AfterHasNoOpening(hash: string, updated: string)
    requires '[' !in hash && '[' !in updated
    ensures NoOpening(After(hash, updated)) && After(hash, updated)[0] == '\n'
  {
    hide Join;
    var lines := LinesAfter(hash, updated);
    NothingOpens();
    assert forall line :: line in lines ==> NoOpening(line);
    JoinHasNoOpening(lines);
    NoOpeningFeed("", Join(lines, "\n"));
    var rest := "\n" + Join(lines, "\n");
    assert "" + "\n" + Join(lines, "\n") == rest;
    NoOpeningFeed("---", "");
    NoOpeningFeed(rest, "---\n");
    NoOpeningFeed(rest + "\n" + "---", "");
    assert "---" + "\n" + "" == "---\n";
    NoOpeningFeed(rest + "\n" + "---", "");
    assert After(hash, updated) == rest + "\n" + "---\n" + "\n";
    NoOpeningEnd(rest + "\n" + "---\n");
  }

  lemma NoOpeningEnd(a: string)
    requires NoOpening(a)
    ensures NoOpening(a + "\n")
  {
    NoOpeningFeed(a, "");
    assert a + "\n" + "" == a + "\n";
  }

  lemma NoOpeningAfterPlain(plain: string, b: string)
    requires '[' !in plain && NoOpening(b)
    ensures NoOpening(plain + b)
  {
    var s := plain + b;
    forall i | 0 <= i < |s| - 1 ensures !(s[i] == '[' && s[i + 1] == '[') {
      if i >= |plain| {
        assert s[i] == b[i - |plain|] && s[i + 1] == b[i + 1 - |plain|];
      }
    }
  }

  /** No link in such a file. */
  lemma CitingHasNoLinks(path: string, hash: string, updated: string, resolves: string -> bool)
    requires '[' !in path && '[' !in hash && '[' !in updated
    ensures !HasDead(CitingText(path, hash, updated), resolves)
  {
    hide NoOpening, After, Before, HasDead, CitingText;
    CitingAround(path, hash, updated);
    AfterHasNoOpening(hash, updated);
    BeforeHasNoBracket();
    NoOpeningAfterPlain(Before() + path, After(hash, updated));
    NoLinks(CitingText(path, hash, updated), resolves);
  }

  // ---------------------------------------------------------------- what such a file reads as

  /** A short word stands for itself as a header value. */
  lemma Word(v: string, json: F.JsonReader)
    requires F.ReadsTheRest(json) && v != "" && F.WordChar(v[0]) && !F.Digit(v[0]) && v != "true" && v != "false"
    requires !IsSpace(v[|v| - 1]) && OneLine(v)
    ensures T.RawFits(v, json)
    ensures T.ReadRaw(v, json) == Some(F.Str(v)) && T.ReadDashed(v, json) == Some(F.Str(v))
    ensures T.ReadNested(v, json) == Some(F.Str(v))
  {
    assert v[0] in v;
    assert !F.IsInteger(v);
    T.RawIff(v, json);
  }

  lemma OneIsRead(json: F.JsonReader)
    ensures T.ReadRaw("1", json) == Some(F.Num(1))
  {
    assert F.IsInteger("1") && F.NatOf("1") == 1 by { assert "1"[..0] == ""; }
    T.IntegerIsRead("1", json);
  }

  lemma SIsRead(json: F.JsonReader)
    requires F.ReadsTheRest(json)
    ensures T.ReadRaw(F.QuoteYamlScalar("S"), json) == Some(F.Str("S"))
  {
    T.SummaryIff("S", json);
  }

  /** The lines of `shown` and `day` read as the path and the date. */
  ghost predicate ReadsInLine(shown: string, path: string, day: string, updated: string, json: F.JsonReader) {
    && '\n' !in shown && '\n' !in day
    && T.ReadDashed(shown, json) == Some(F.Str(path)) && T.ReadRaw(day, json) == Some(F.Str(updated))
  }

  /** The header of such a file, whatever its sources. */
  lemma FrontIsRead(f: F.Front, items: seq<F.Item>, updated: string, json: F.JsonReader)
    requires F.ReadsTheRest(json) && f == CitingFront("", "", f.updated).(sources := f.sources)
    requires T.ReadSources(f.sources, json) == Some(items) && T.ReadRaw(f.updated, json) == Some(F.Str(updated))
    ensures T.ReadFront(f, json) == Some(HeaderFields(items, updated))
  {
    hide T.ReadRaw, T.ReadSources, T.ReadDashed, T.ReadNested, F.QuoteYamlScalar, T.RawFits;
    Word("term", json);
    Word("llm-wiki", json);
    OneIsRead(json);
    SIsRead(json);
  }

  lemma ItemIsRead(shown: string, path: string, hash: string, json: F.JsonReader)
    requires F.ReadsTheRest(json) && T.ReadDashed(shown, json) == Some(F.Str(path))
    requires T.ReadNested(hash, json) == Some(F.Str(hash))
    ensures T.ReadSource(F.Source(shown, hash, []), json) == Some(SourceItem(path, hash))
  {
    hide T.ReadDashed, T.ReadNested, Json.ArrayText;
    T.LocatorsIff([], json);
    assert F.Strings([]) == [];
  }

  lemma SourcesAreRead(a: F.Source, x: F.Item, rest: seq<F.Source>, items: seq<F.Item>, json: F.JsonReader)
    requires T.ReadSource(a, json) == Some(x) && T.ReadSources(rest, json) == Some(items)
    ensures T.ReadSources([a] + rest, json) == Some([x] + items)
  {
    hide T.ReadSource;
    assert ([a] + rest)[1..] == rest;
  }

  lemma NoneAreRead(json: F.JsonReader)
    ensures T.ReadSources([], json) == Some([])
  {
  }

  lemma CitingReads(shown: string, path: string, hash: string, day: string, updated: string, json: F.JsonReader)
    requires F.ReadsTheRest(json) && ReadsInLine(shown, path, day, updated, json)
    requires '\n' !in hash && T.ReadNested(hash, json) == Some(F.Str(hash))
    ensures var text := CitingText(shown, hash, day);
            ReadPage(text, json) == CitingPage(text, path, hash, updated) && AsRead(CitingPage(text, path, hash, updated), json)
  {
    hide T.ReadRaw, T.ReadDashed, T.ReadNested, T.ReadSource, T.ReadFront, F.ReadsTheRest, F.Parsed, F.Serialized, HeaderFields;
    var front, source, item := CitingFront(shown, hash, day), F.Source(shown, hash, []), SourceItem(path, hash);
    ItemIsRead(shown, path, hash, json);
    NoneAreRead(json);
    SourcesAreRead(source, item, [], [], json);
    assert [source] + [] == front.sources && [item] + [] == [item];
    FrontIsRead(front, [item], updated, json);
    T.ReadsPage(front, "\n", json);
    FeedEnds();
  }

  lemma FeedEnds()
    ensures F.Terminated("\n") == "\n"
  {
  }

  /** A value in its own quotes reads as itself. */
  lemma QuotedIsRead(v: string, json: F.JsonReader)
    requires T.NoSeparators(v)
    ensures '\n' !in Json.Quoted(v)
    ensures T.ReadDashed(Json.Quoted(v), json) == Some(F.Str(v)) && T.ReadRaw(Json.Quoted(v), json) == Some(F.Str(v))
  {
    hide Json.Quoted, F.ParseScalar;
    T.QuotedOneLine(v);
    T.QuotedScalar(v, json);
  }

  lemma FrontOfCiting(path: string, hash: string, updated: string)
    ensures FrontOf(CitingDraft(path, hash, updated)) == CitingFront(path, hash, updated)
    ensures Printed(CitingDraft(path, hash, updated)) == CitingText(path, hash, updated)
  {
    hide F.IntText, F.Serialized;
    var fields := CitingFields(path, hash, updated);
    SourcesOfCiting(path, hash, updated);
    OneIsShown();
    hide SourcesOf, VisitedIn;
    assert fields["type"] == F.Scalar(F.Str("term")) && fields["managed_by"] == F.Scalar(F.Str("llm-wiki"));
  }

  lemma OneIsShown()
    ensures F.IntText(1) == "1"
  {
  }

  lemma SourcesOfCiting(path: string, hash: string, updated: string)
    ensures SourcesOf(VisitedIn(CitingFields(path, hash, updated))) == [F.Source(path, hash, [])]
  {
    var items := VisitedIn(CitingFields(path, hash, updated));
    assert items[1..] == [];
    assert LocatorsOf(items[0]) == [];
    assert SourcesOf(items) == [SourceOf(items[0])];
  }

  // ---------------------------------------------------------------- what repair writes of it

  lemma ItemIsFixed(path: string, updated: string)
    ensures FixItems(CitingFields(path, "x", updated)["sources"].items, OneSource(path))
         == CitingFields(path, "h", updated)["sources"].items
    ensures CitingFields(path, "x", updated)["sources"] != CitingFields(path, "h", updated)["sources"]
  {
    var items, next := CitingFields(path, "x", updated)["sources"].items, CitingFields(path, "h", updated)["sources"].items;
    assert items[1..] == [];
    assert FixItem(items[0], OneSource(path)) == next[0];
    assert items[0]["sha256"] != next[0]["sha256"];
  }

  lemma PageIsFixed(r: Rules, text: string, path: string, updated: string)
    requires forall s :: r.redact(s) == s
    ensures Fixed(r, CitingPage(text, path, "x", updated), OneSource(path)) == CitingDraft(path, "h", updated)
    ensures CitingFields(path, "x", updated) != CitingFields(path, "h", updated)
  {
    hide FixItems, OneSource;
    ItemIsFixed(path, updated);
  }

  /** A stale hash is the only thing repair changes of such a page. */
  lemma HashIsFixed(r: Rules, v: Ways, text: string, path: string, updated: string)
    requires Quiet(r)
    ensures RepairWrites(r, v, CitingPage(text, path, "x", updated), OneSource(path)) == [CitingDraft(path, "h", updated)]
  {
    hide SoundRules, Fixed, CitingFields, OneSource, Printed;
    PageIsFixed(r, text, path, updated);
  }

  lemma PlainStays(r: Rules, page: Page)
    requires forall resolves :: !HasDead(page.text, resolves)
    ensures Real(r).unlink(OnePage(page), page) == page && Meant(r).unlink(OnePage(page), page) == page
  {
    hide HasDead, DropDead;
    var resolves := target => r.resolves(OnePage(page), target);
    DropChangesIff(page.text, resolves);
    if page.Page? {
      SameAreSame(page.fields);
    }
  }

  lemma CitingPlainStays(r: Rules, shown: string, path: string, day: string, updated: string)
    requires '[' !in shown && '[' !in day
    ensures var page := CitingPage(CitingText(shown, "x", day), path, "x", updated);
            Real(r).unlink(OnePage(page), page) == page && Meant(r).unlink(OnePage(page), page) == page
  {
    hide HasDead, DropDead, CitingText, CitingFields;
    var page := CitingPage(CitingText(shown, "x", day), path, "x", updated);
    forall resolves ensures !HasDead(page.text, resolves) {
      CitingHasNoLinks(shown, "x", day, resolves);
    }
    PlainStays(r, page);
  }

  /** Repair writes the page once more, and what it writes does not read back as it was meant. */
  lemma StaleIsLost(r: Rules, shown: string, path: string, day: string, updated: string, after: Page)
    requires Quiet(r) && '[' !in shown && '[' !in day
    requires after == Reread(CitingDraft(path, "h", updated), r.json) && after != Settled(CitingDraft(path, "h", updated))
    requires SummaryIsS(after)
    ensures var page := CitingPage(CitingText(shown, "x", day), path, "x", updated);
            var w, sources := OnePage(page), OneSource(path);
            && Gc(r, Real(r), w, sources, []) == Some(w) && Gc(r, Meant(r), w, sources, []) == Some(w)
            && !RunFits(r, w, sources, [])
            && var w' := Repair(r, Real(r), w, sources);
               if after.Broken? then w'.None? else w'.Some? && w'.value.pages == map["p" := after]
  {
    hide Gc, Repair, Reread, Settled, CitingFields, CitingText, OneSource, Fits, Marked, LinksSpared, RunFits, IndexWrites;
    var page, d := CitingPage(CitingText(shown, "x", day), path, "x", updated), CitingDraft(path, "h", updated);
    var w, sources := OnePage(page), OneSource(path);
    CitedOfOne(page.text, path, "x", updated);
    GcKeeps(r, page, path);
    CitingPlainStays(r, shown, path, day, updated);
    HashIsFixed(r, Real(r), page.text, path, updated);
    HashIsFixed(r, Meant(r), page.text, path, updated);
    RepairsOne(r, page, sources, after);
    RereadIff(d, r.json);
    assert d in RepairMeans(r, w, page, "p", sources);
    OneMisfit(r, w, sources, "p");
  }

  // ---------------------------------------------------------------- a link in a path

  const LINKED: string := "documents/[[a]].md"

  predicate IsTarget(t: string) {
    t != "" && ']' !in t && '|' !in t && '#' !in t
  }

  lemma {:induction false} SpansTarget(t: string, rest: string)
    requires ']' !in t && '|' !in t && '#' !in t
    ensures Links.Span(t + "]]" + rest, "]|#") == t
  {
    if t == "" {
      assert t + "]]" + rest == "]]" + rest;
    } else {
      assert (t + "]]" + rest)[1..] == t[1..] + "]]" + rest && (t + "]]" + rest)[0] == t[0];
      SpansTarget(t[1..], rest);
    }
  }

  lemma MatchesTarget(t: string, rest: string)
    requires IsTarget(t)
    ensures MatchLink("[[" + t + "]]" + rest) == Some(Link(t, None, rest))
  {
    var text := "[[" + t + "]]" + rest;
    assert text[2..] == t + "]]" + rest;
    SpansTarget(t, rest);
    assert text[2 + |t|..] == "]]" + rest && ("]]" + rest)[2..] == rest;
  }

  lemma DropsDead(text: string, link: Link, resolves: string -> bool)
    requires text != "" && MatchLink(text) == Some(link) && !resolves(link.target)
    ensures DropDead(text, resolves) == Trim(Label(link)) + DropDead(link.rest, resolves) && HasDead(text, resolves)
  {
    hide MatchLink, Trim;
  }

  lemma LinkedParts(head: string, tail: string)
    ensures head + LINKED + tail == (head + "documents/") + ("[[a]]" + (".md" + tail))
    ensures head + "documents/a.md" + tail == (head + "documents/") + ("a" + (".md" + tail))
  {
    assert LINKED == "documents/" + ("[[a]]" + ".md") && "documents/a.md" == "documents/" + ("a" + ".md");
  }

  lemma LinkedIsCut(resolves: string -> bool)
    requires !resolves("a")
    ensures DropDead(CitingText(LINKED, "h", "now"), resolves) == CitingText("documents/a.md", "h", "now")
    ensures HasDead(CitingText(LINKED, "h", "now"), resolves)
  {
    hide DropDead, HasDead, MatchLink, After, Before, CitingText, NoOpening;
    var before, after := Before() + "documents/", ".md" + After("h", "now");
    CitingAround(LINKED, "h", "now");
    CitingAround("documents/a.md", "h", "now");
    LinkedParts(Before(), After("h", "now"));
    BeforeHasNoBracket();
    DropPlain(before, "[[a]]" + after, resolves);
    MatchesTarget("a", after);
    assert "[[" + "a" + "]]" + after == "[[a]]" + after;
    T.TrimLonger("a");
    DropsDead("[[a]]" + after, Link("a", None, after), resolves);
    AfterHasNoOpening("h", "now");
    NoOpeningAfterPlain(".md", After("h", "now"));
    NoLinks(after, resolves);
  }

  lemma OneLineHasNoFeed(s: string)
    requires OneLine(s)
    ensures '\n' !in s
  {
  }

  lemma BareReads(path: string, json: F.JsonReader)
    requires F.ReadsTheRest(json) && path != "" && F.WordChar(path[0]) && !F.Digit(path[0]) && path != "true" && path != "false"
    requires !IsSpace(path[|path| - 1]) && OneLine(path)
    ensures var text := CitingText(path, "h", "now"); ReadPage(text, json) == CitingPage(text, path, "h", "now")
  {
    hide CitingText, CitingFields, T.ReadRaw, T.ReadDashed, T.ReadNested;
    Word(path, json);
    Word("now", json);
    Word("h", json);
    OneLineHasNoFeed(path);
    CitingReads(path, path, "h", "now", "now", json);
  }

  lemma NotRepaired(r: Rules, text: string)
    requires Quiet(r)
    ensures RepairWrites(r, Real(r), CitingPage(text, "documents/a.md", "h", "now"), OneSource(LINKED)) == []
  {
    var page := CitingPage(text, "documents/a.md", "h", "now");
    var items := page.fields["sources"].items;
    assert FixItems(items, OneSource(LINKED)) == items by { assert items[1..] == []; }
    assert Fixed(r, page, OneSource(LINKED)) == Draft(page.fields, page.body);
  }

  lemma OtherPathIsNotSpared(page: Page, after: Page, path: string, other: string, resolves: string -> bool, json: F.JsonReader)
    requires CitesOne(page, path) && CitesOne(after, other) && path != other && Unlinked(page, resolves, json) == after
    ensures !LinksSpared(page, resolves, json)
  {
    hide Unlinked, KeyOf, PathOf, VisitedIn;
    assert Cited(page)[0] == CitedIn(page.fields)[0] && Cited(after)[0] == CitedIn(after.fields)[0];
  }

  /**
   * A page cites the imported `documents/[[a]].md`, and no page `a` exists: link dropping turns the
   * path into `documents/a.md`, and lint reports a source that is not in the current set.
   */
  lemma LinkInPathIsReported(r: Rules)
    requires Quiet(r) && !r.resolves(OnePage(CitingPage(CitingText(LINKED, "h", "now"), LINKED, "h", "now")), "a")
    ensures var page := CitingPage(CitingText(LINKED, "h", "now"), LINKED, "h", "now");
            var w, sources := OnePage(page), OneSource(LINKED);
            && AsRead(page, r.json)
            && Gc(r, Real(r), w, sources, []) == Some(w) && Gc(r, Meant(r), w, sources, []) == Some(w)
            && !RunFits(r, w, sources, [])
            && Repair(r, Real(r), w, sources).Some?
            && IsLintError(r, Repair(r, Real(r), w, sources).value, sources, NotImported("p", "documents/a.md"))
  {
    hide Gc, Repair, CitingText, CitingFields, IsLintError, RunFits, Unlinked, LINKED, OneSource;
    var page, after := CitingPage(CitingText(LINKED, "h", "now"), LINKED, "h", "now"), CutPage();
    var w, sources := OnePage(page), OneSource(LINKED);
    LinkedIsUnlinked(target => r.resolves(w, target), r.json);
    CitedOfOne(page.text, LINKED, "h", "now");
    CitedOfOne(after.text, "documents/a.md", "h", "now");
    SummaryOfCiting(after.text, "documents/a.md", "h", "now");
    NotRepaired(r, after.text);
    PathsDiffer();
    CutIsReported(r, page, LINKED, after, "documents/a.md");
  }

  lemma PathsDiffer()
    ensures LINKED != "documents/a.md"
  {
    assert |LINKED| != |"documents/a.md"|;
  }

  function CutPage(): (page: Page)
    ensures page.Page?
  {
    CitingPage(CitingText("documents/a.md", "h", "now"), "documents/a.md", "h", "now")
  }

  lemma LinkedIsUnlinked(resolves: string -> bool, json: F.JsonReader)
    requires F.ReadsTheRest(json) && !resolves("a")
    ensures var page := CitingPage(CitingText(LINKED, "h", "now"), LINKED, "h", "now");
            AsRead(page, json) && Unlinked(page, resolves, json) == CutPage()
  {
    hide CitingText, CitingFields, DropDead, HasDead, ReadPage;
    BareReads(LINKED, json);
    BareReads("documents/a.md", json);
    LinkedIsCut(resolves);
  }

  /** Link dropping leaves the page with another path, which is not imported. */
  lemma CutIsReported(r: Rules, page: Page, path: string, after: Page, other: string)
    requires Quiet(r) && CitesOne(page, path) && CitesOne(after, other) && path != other && SummaryIsS(after)
    requires page.Page? && after.Page?
    requires Real(r).unlink(OnePage(page), page) == after && RepairWrites(r, Real(r), after, OneSource(path)) == []
    ensures var w, sources := OnePage(page), OneSource(path);
            && Gc(r, Real(r), w, sources, []) == Some(w) && Gc(r, Meant(r), w, sources, []) == Some(w)
            && !RunFits(r, w, sources, [])
            && Repair(r, Real(r), w, sources).Some?
            && IsLintError(r, Repair(r, Real(r), w, sources).value, sources, NotImported("p", other))
  {
    hide Gc, Repair, IsLintError, RepairMeans, Fits, RunFits, Marked, LinksSpared, RepairWrites, OneSource, CitesOne, Unlinked;
    var w, sources := OnePage(page), OneSource(path);
    GcKeeps(r, page, path);
    RepairsOne(r, page, sources, after);
    ShorterIsUnknown(other, path);
    ReportsUnrecorded(r, Repair(r, Real(r), w, sources).value, after, other, sources);
    OtherPathIsNotSpared(page, after, path, other, target => r.resolves(w, target), r.json);
    assert !RepairFits(r, w, page, "p", sources);
    OneMisfit(r, w, sources, "p");
  }

  // ---------------------------------------------------------------- a link that ends in the body

  const OPEN_LINK: string := "documents/[[a"
  const LINES_BETWEEN: string := "\n    sha256: h\nupdated: now\n---\n"

  function ShortLines(path: string): seq<string> {
    F.FirstLines(CitingFront("", "", "")) + ["  - path: " + path] + ["    sha256: h", "updated: now"]
  }

  /** A file whose source has no locators. */
  function ShortText(path: string, body: string): string {
    F.OPENING + (Join(ShortLines(path), "\n") + F.CLOSING + body)
  }

  function ShortPage(path: string, body: string): (page: Page)
    ensures page.Page?
  {
    Page(
      ShortText(path, body),
      map[
        "type" := F.Scalar(F.Str("term")),
        "summary" := F.Scalar(F.Str("S")),
        "managed_by" := F.Scalar(F.Str("llm-wiki")),
        "schema_version" := F.Scalar(F.Num(1)),
        "sources" := F.Sources([map["path" := F.Str(path), "sha256" := F.Str("h")]]),
        "updated" := F.Scalar(F.Str("now"))
      ],
      body)
  }

  lemma ShortAround(path: string, body: string)
    ensures ShortText(path, body) == Before() + path + LINES_BETWEEN + body
  {
    hide F.FirstLines, Join;
    var first := F.FirstLines(CitingFront("", "", ""));
    FirstOfCiting("", "", "");
    JoinAround(first, "  - path: " + path, ["    sha256: h", "updated: now"]);
    LastTwo();
    var head, last := Join(first, "\n"), Join(["    sha256: h", "updated: now"], "\n");
    assert "\n" + last + F.CLOSING == LINES_BETWEEN;
    GroupText(F.OPENING, head, "  - path: ", path, last, F.CLOSING, body);
  }

  lemma GroupText(open: string, head: string, dash: string, path: string, last: string, close: string, body: string)
    ensures open + (head + "\n" + (dash + path) + "\n" + last + close + body)
         == (open + head + "\n" + dash) + path + ("\n" + last + close) + body
  {
  }

  lemma LastTwo()
    ensures Join(["    sha256: h", "updated: now"], "\n") == "    sha256: h\nupdated: now"
  {
    assert ["    sha256: h", "updated: now"][1..] == ["updated: now"];
  }

  lemma ShortLinesAreLines(path: string)
    requires '\n' !in path
    ensures ShortLines(path) != [] && forall line :: line in ShortLines(path) ==> '\n' !in line && line != F.FENCE
  {
    hide F.FirstLines, T.Separable;
    var f := CitingFront("", "", "");
    assert T.Separable(f) by { assert f.sources == [F.Source("", "", [])]; SeparableFront(); }
    T.HeaderLinesAreLines(f);
    assert forall line :: line in F.FirstLines(f) ==> line in F.HeaderLines(f) && T.HeaderLine(line);
    T.PrefixedLine("  - path: ", path);
    T.PrefixedLine("    sha256: ", "h");
    T.PrefixedLine("updated: ", "now");
    assert "    sha256: " + "h" == "    sha256: h" && "updated: " + "now" == "updated: now";
  }

  lemma SeparableFront()
    ensures T.Separable(CitingFront("", "", ""))
  {
  }

  lemma ShortReads(path: string, body: string, json: F.JsonReader)
    requires F.ReadsTheRest(json) && '\n' !in path && T.ReadDashed(path, json) == Some(F.Str(path))
    ensures AsRead(ShortPage(path, body), json)
  {
    hide F.ReadLines, F.FirstLines, F.IndexOf, Join, T.ReadDashed, ShortLines;
    var lines, rest := ShortLines(path), Join(ShortLines(path), "\n") + F.CLOSING + body;
    ShortLinesAreLines(path);
    T.FindsFence(lines, body);
    SplitJoin(lines, '\n');
    var header := Join(lines, "\n");
    assert ShortText(path, body)[4..] == rest && rest[..|header|] == header && rest[|header| + 5..] == body;
    ShortLinesRead(path, json);
  }

  /** The last three lines of such a header, from the state after `sources:`. */
  lemma ShortSourceReads(fields: map<string, F.Field>, path: string, json: F.JsonReader)
    requires F.ReadsTheRest(json) && T.ReadDashed(path, json) == Some(F.Str(path))
    ensures var r := F.ReadLines(T.Between(fields, []), ["  - path: " + path, "    sha256: h", "updated: now"], json);
            r.Ok? && r.value.fields == fields["sources" := F.Sources([map["path" := F.Str(path), "sha256" := F.Str("h")]])]
                                             ["updated" := F.Scalar(F.Str("now"))]
  {
    hide F.ReadLines, F.ReadLine, T.ReadRaw, T.ReadDashed, T.ReadNested, T.KeyLine;
    var a, b, c := "  - path: " + path, "    sha256: h", "updated: now";
    var st, first := T.Between(fields, []), map["path" := F.Str(path)];
    KeyLinesAre();
    Word("h", json);
    Word("now", json);
    T.KeysAreKeys();
    T.ReadsPath(fields, [], path, json);
    assert [a, b, c] == [a] + [b, c] && [b, c] == [b] + [c] && [c] == [c] + [];
    T.ReadsOneMore(st, a, [b, c], json);
    T.ReadsNested(fields, [], first, None, "sha256", "h", json);
    var next := T.Inside(fields, [], first["sha256" := F.Str("h")], None);
    T.ReadsOneMore(T.Inside(fields, [], first, None), b, [c], json);
    T.ReadsField(next, "updated", "now", json);
    T.ReadsOneMore(next, c, [], json);
    ReadsNothing(T.AfterField(next, "updated", F.Str("now")), json);
    var items: seq<F.Item> := [];
    assert items + [first["sha256" := F.Str("h")]] == [map["path" := F.Str(path), "sha256" := F.Str("h")]];
  }

  lemma KeyLinesAre()
    ensures "    sha256: h" == "    " + T.KeyLine("sha256", "h") && "updated: now" == T.KeyLine("updated", "now")
    ensures T.IsKey("sha256") && TrimLeft("h") != ""
  {
  }

  lemma ShortLinesRead(path: string, json: F.JsonReader)
    requires F.ReadsTheRest(json) && T.ReadDashed(path, json) == Some(F.Str(path))
    ensures var r := F.ReadLines(F.START, ShortLines(path), json); r.Ok? && r.value.fields == ShortPage(path, "").fields
  {
    hide F.ReadLines, F.FirstLines, T.ReadRaw, T.ReadDashed, F.QuoteYamlScalar, T.Between, ShortText;
    var f, rest := CitingFront("", "", ""), ["  - path: " + path, "    sha256: h", "updated: now"];
    assert ShortLines(path) == F.FirstLines(f) + rest;
    Word("term", json);
    Word("llm-wiki", json);
    OneIsRead(json);
    SIsRead(json);
    T.ReadsFirst(f, rest, json);
    ShortSourceReads(T.AfterFirst(F.Str("term"), F.Str("S"), F.Str("llm-wiki"), F.Num(1)), path, json);
  }

  lemma ReadsNothing(st: F.Reading, json: F.JsonReader)
    ensures F.ReadLines(st, [], json) == Ok(st)
  {
  }

  /** The text between the brackets of the link: lines of the header, its fence, and the start of the body. */
  function Across(): string {
    "a" + LINES_BETWEEN + "b"
  }

  lemma AcrossIsTarget()
    ensures IsTarget(Across()) && Trim(Across()) == Across()
  {
    hide Trim;
    var t := Across();
    assert ']' !in LINES_BETWEEN && '|' !in LINES_BETWEEN && '#' !in LINES_BETWEEN;
    hide LINES_BETWEEN;
    assert IsTrimmed(t) by { assert t[0] == 'a' && t[|t| - 1] == 'b'; }
    T.TrimLonger(t);
  }

  lemma AcrossIsCut(resolves: string -> bool)
    requires !resolves(Across())
    ensures DropDead(ShortText(OPEN_LINK, "b]]\n"), resolves) == ShortText("documents/a", "b\n")
    ensures HasDead(ShortText(OPEN_LINK, "b]]\n"), resolves)
  {
    hide DropDead, HasDead, MatchLink, Before, ShortText, Trim, IsTarget;
    var before, t := Before() + "documents/", Across();
    ShortAround(OPEN_LINK, "b]]\n");
    ShortAround("documents/a", "b\n");
    AcrossParts(Before());
    BeforeHasNoBracket();
    DropPlain(before, "[[" + t + "]]" + "\n", resolves);
    AcrossIsTarget();
    MatchesTarget(t, "\n");
    DropsDead("[[" + t + "]]" + "\n", Link(t, None, "\n"), resolves);
    NoLinks("\n", resolves);
  }

  lemma AcrossParts(head: string)
    ensures head + OPEN_LINK + LINES_BETWEEN + "b]]\n" == (head + "documents/") + ("[[" + Across() + "]]" + "\n")
    ensures head + "documents/a" + LINES_BETWEEN + "b\n" == (head + "documents/") + (Across() + "\n")
  {
    var m := LINES_BETWEEN;
    assert OPEN_LINK == "documents/" + "[[" + "a" && "documents/a" == "documents/" + "a";
    assert "b]]\n" == "b" + "]]" + "\n" && "b\n" == "b" + "\n";
    hide LINES_BETWEEN;
    assert head + ("documents/" + "[[" + "a") + m + ("b" + "]]" + "\n") == (head + "documents/") + ("[[" + ("a" + m + "b") + "]]" + "\n");
    assert head + ("documents/" + "a") + m + ("b" + "\n") == (head + "documents/") + (("a" + m + "b") + "\n");
  }

  lemma ShortCitesOne(path: string, body: string)
    ensures CitesOne(ShortPage(path, body), path) && SummaryIsS(ShortPage(path, body))
  {
    hide ShortText;
  }

  lemma ShortNotRepaired(r: Rules)
    requires Quiet(r)
    ensures RepairWrites(r, Real(r), ShortPage("documents/a", "b\n"), OneSource(OPEN_LINK)) == []
  {
    hide ShortText;
    var page := ShortPage("documents/a", "b\n");
    var items := page.fields["sources"].items;
    assert |OPEN_LINK| != |"documents/a"|;
    assert FixItems(items, OneSource(OPEN_LINK)) == items by { assert items[1..] == []; }
    assert Fixed(r, page, OneSource(OPEN_LINK)) == Draft(page.fields, page.body);
  }

  /**
   * A page cites the imported `documents/[[a`, and the next closing brackets stand in its body: link dropping
   * takes both pairs away, and lint reports a source that is not in the current set.
   */
  lemma LinkIntoBodyIsReported(r: Rules)
    requires Quiet(r) && !r.resolves(OnePage(ShortPage(OPEN_LINK, "b]]\n")), Across())
    ensures var page := ShortPage(OPEN_LINK, "b]]\n");
            var w, sources := OnePage(page), OneSource(OPEN_LINK);
            && AsRead(page, r.json)
            && Gc(r, Real(r), w, sources, []) == Some(w) && Gc(r, Meant(r), w, sources, []) == Some(w)
            && !RunFits(r, w, sources, [])
            && Repair(r, Real(r), w, sources).Some?
            && IsLintError(r, Repair(r, Real(r), w, sources).value, sources, NotImported("p", "documents/a"))
  {
    hide Gc, Repair, ShortText, ShortPage, IsLintError, RunFits, Unlinked, OneSource, Across, CitesOne, SummaryIsS;
    var page, after := ShortPage(OPEN_LINK, "b]]\n"), ShortPage("documents/a", "b\n");
    var w := OnePage(page);
    ShortIsUnlinked(target => r.resolves(w, target), r.json);
    ShortCitesOne(OPEN_LINK, "b]]\n");
    ShortCitesOne("documents/a", "b\n");
    ShortNotRepaired(r);
    assert |OPEN_LINK| != |"documents/a"|;
    CutIsReported(r, page, OPEN_LINK, after, "documents/a");
  }

  lemma ShortIsUnlinked(resolves: string -> bool, json: F.JsonReader)
    requires F.ReadsTheRest(json) && !resolves(Across())
    ensures AsRead(ShortPage(OPEN_LINK, "b]]\n"), json)
    ensures Unlinked(ShortPage(OPEN_LINK, "b]]\n"), resolves, json) == ShortPage("documents/a", "b\n")
  {
    hide ShortText, DropDead, HasDead, ReadPage, Across, T.ReadRaw, T.ReadDashed, T.ReadNested;
    Word(OPEN_LINK, json);
    Word("documents/a", json);
    OneLineHasNoFeed(OPEN_LINK);
    OneLineHasNoFeed("documents/a");
    ShortReads(OPEN_LINK, "b]]\n", json);
    ShortReads("documents/a", "b\n", json);
    AcrossIsCut(resolves);
  }

  // ---------------------------------------------------------------- a blank at the end of a path

  /** A path that ends with a blank is read without it. */
  lemma BlankIsTrimmed(q: string, json: F.JsonReader)
    requires F.ReadsTheRest(json) && T.RawFits(q, json) && q != ""
    ensures T.ReadDashed(q + " ", json) == Some(F.Str(q))
  {
    hide F.IsInteger, F.FromJson;
    assert OneLine(q + " ");
    TrimIgnoresTrailing(q, ' ');
    T.SameScalar(q + " ", json);
    T.ScalarIff(q, json);
  }

  lemma BlankRereads(json: F.JsonReader)
    requires F.ReadsTheRest(json)
    ensures Reread(CitingDraft(BLANK, "h", "now"), json)
         == CitingPage(CitingText(BLANK, "h", "now"), "documents/a", "h", "now")
  {
    hide CitingText, CitingFields, T.ReadRaw, T.ReadDashed, T.ReadNested, Printed, ReadPage;
    Word("now", json);
    Word("h", json);
    Word("documents/a", json);
    BlankIsTrimmed("documents/a", json);
    assert "documents/a" + " " == BLANK;
    CitingReads(BLANK, "documents/a", "h", "now", "now", json);
    FrontOfCiting(BLANK, "h", "now");
  }

  lemma SettledKeepsPath(path: string, hash: string, updated: string)
    ensures var page := Settled(CitingDraft(path, hash, updated)); |Cited(page)| == 1 && KeyOf(Cited(page)[0]) == path
  {
    hide Settled;
    SettledCites(CitingDraft(path, hash, updated));
  }

  const BLANK: string := "documents/a "

  lemma BlankIsPlain()
    ensures '[' !in Json.Quoted(BLANK) && T.NoSeparators(BLANK)
  {
    assert '[' !in BLANK && T.NoSeparators(BLANK);
    QuotedHasNoBracket(BLANK);
  }

  /**
   * A page cites the imported `documents/a ` from a quoted line, at a stale hash: repair writes the
   * recorded hash, the path is read again without its blank, and lint reports it.
   */
  lemma BlankInPathIsReported(r: Rules)
    requires Quiet(r)
    ensures var page := CitingPage(CitingText(Json.Quoted(BLANK), "x", "now"), BLANK, "x", "now");
            var w, sources := OnePage(page), OneSource(BLANK);
            && AsRead(page, r.json)
            && Gc(r, Real(r), w, sources, []) == Some(w) && Gc(r, Meant(r), w, sources, []) == Some(w)
            && !RunFits(r, w, sources, [])
            && Repair(r, Real(r), w, sources).Some?
            && IsLintError(r, Repair(r, Real(r), w, sources).value, sources, NotImported("p", "documents/a"))
  {
    hide Gc, Repair, CitingText, CitingFields, IsLintError, RunFits, Reread, Settled, OneSource, KeyOf, CitedIn, VisitedIn;
    hide T.ReadRaw, T.ReadDashed, T.ReadNested, Json.Quoted, T.NoSeparators;
    var path, shown := BLANK, Json.Quoted(BLANK);
    var after := CitingPage(CitingText(path, "h", "now"), "documents/a", "h", "now");
    BlankIsPlain();
    QuotedIsRead(path, r.json);
    Word("now", r.json);
    Word("x", r.json);
    CitingReads(shown, path, "x", "now", "now", r.json);
    BlankRereads(r.json);
    CitedOfOne(after.text, "documents/a", "h", "now");
    SettledKeepsPath(path, "h", "now");
    SummaryOfCiting(after.text, "documents/a", "h", "now");
    StaleIsLost(r, shown, path, "now", "now", after);
    var w := OnePage(CitingPage(CitingText(shown, "x", "now"), path, "x", "now"));
    ShorterIsUnknown("documents/a", path);
    ReportsUnrecorded(r, Repair(r, Real(r), w, OneSource(path)).value, after, "documents/a", OneSource(path));
  }

  // ---------------------------------------------------------------- detaching beside such a path

  function SiblingFront(): F.Front {
    CitingFront("", "", "now").(sources := [F.Source("documents/a", "h", []), F.Source(Json.Quoted(BLANK), "h", [])])
  }

  function SiblingFields(): map<string, F.Field> {
    HeaderFields([SourceItem("documents/a", "h"), SourceItem(BLANK, "h")], "now")
  }

  /** A page that cites `documents/a` and, from a quoted line, `documents/a `. */
  function SiblingPage(): (page: Page)
    ensures page.Page?
  {
    Page(F.Serialized(SiblingFront(), "\n"), SiblingFields(), "\n")
  }

  lemma SiblingLinesRead(json: F.JsonReader)
    requires F.ReadsTheRest(json)
    ensures T.ReadSource(F.Source("documents/a", "h", []), json) == Some(SourceItem("documents/a", "h"))
    ensures T.ReadSource(F.Source(Json.Quoted(BLANK), "h", []), json) == Some(SourceItem(BLANK, "h"))
    ensures '\n' !in Json.Quoted(BLANK) && '\n' !in "documents/a"
  {
    hide T.ReadDashed, T.ReadSource, T.ReadNested, T.ReadRaw, T.RawFits, Json.Quoted, T.NoSeparators, SourceItem, BLANK;
    Word("documents/a", json);
    Word("h", json);
    BlankIsPlain();
    QuotedIsRead(BLANK, json);
    OneLineHasNoFeed("documents/a");
    ItemIsRead("documents/a", "documents/a", "h", json);
    ItemIsRead(Json.Quoted(BLANK), BLANK, "h", json);
  }

  lemma TwoAreRead(a: F.Source, b: F.Source, x: F.Item, y: F.Item, json: F.JsonReader)
    requires T.ReadSource(a, json) == Some(x) && T.ReadSource(b, json) == Some(y)
    ensures T.ReadSources([a, b], json) == Some([x, y])
  {
    hide T.ReadSource, T.ReadSources;
    NoneAreRead(json);
    SourcesAreRead(b, y, [], [], json);
    assert [b] + [] == [b] && [y] + [] == [y];
    SourcesAreRead(a, x, [b], [y], json);
    assert [a] + [b] == [a, b] && [x] + [y] == [x, y];
  }

  lemma SiblingSourcesRead(json: F.JsonReader)
    requires F.ReadsTheRest(json)
    ensures T.ReadSources(SiblingFront().sources, json) == Some([SourceItem("documents/a", "h"), SourceItem(BLANK, "h")])
    ensures T.Separable(SiblingFront()) && T.ReadRaw(SiblingFront().updated, json) == Some(F.Str("now"))
  {
    hide T.ReadSource, T.ReadSources, T.ReadRaw, T.ReadDashed, T.ReadNested, T.RawFits, Json.Quoted, SourceItem, BLANK;
    Word("now", json);
    SiblingLinesRead(json);
    TwoAreRead(F.Source("documents/a", "h", []), F.Source(Json.Quoted(BLANK), "h", []),
               SourceItem("documents/a", "h"), SourceItem(BLANK, "h"), json);
  }

  lemma SiblingsAreRead(json: F.JsonReader)
    requires F.ReadsTheRest(json)
    ensures AsRead(SiblingPage(), json)
  {
    hide T.ReadFront, T.ReadSources, T.ReadRaw, F.Parsed, F.Serialized, T.Separable, SourceItem, HeaderFields, Json.Quoted;
    SiblingSourcesRead(json);
    FrontIsRead(SiblingFront(), [SourceItem("documents/a", "h"), SourceItem(BLANK, "h")], "now", json);
    T.ReadsPage(SiblingFront(), "\n", json);
    FeedEnds();
  }

  lemma OthersOfTwo(a: F.Item, b: F.Item, path: DocPath)
    requires path != "" && PathOf(a) == path && PathOf(b) != "" && PathOf(b) != path
    ensures Others([a, b], path) == [b]
  {
    hide PathOf;
    assert [a, b][1..] == [b] && [b][1..] == [];
    assert Others([], path) == [];
    assert Others([b], path) == [b];
  }

  lemma SiblingPaths()
    ensures PathOf(SourceItem("documents/a", "h")) == "documents/a" && PathOf(SourceItem(BLANK, "h")) == BLANK
    ensures BLANK != "" && BLANK != "documents/a"
  {
    assert |BLANK| != |"documents/a"|;
  }

  lemma SiblingsDetached()
    ensures Cites(SiblingPage(), "documents/a") && !OnlyCites(SiblingPage(), "documents/a")
    ensures WithoutSource(SiblingPage(), "documents/a") == CitingDraft(BLANK, "h", "now")
  {
    hide SiblingFront, F.Serialized, SourceItem, BLANK, PathOf, Others;
    var page, a, b := SiblingPage(), SourceItem("documents/a", "h"), SourceItem(BLANK, "h");
    assert Cited(page) == [a, b] && a in Cited(page);
    SiblingPaths();
    OthersOfTwo(a, b, "documents/a");
    assert WithCited(HeaderFields([a, b], "now"), [b]) == HeaderFields([b], "now");
  }

  /**
   * Detaching `documents/a` from a page that also cites `documents/a `: the line that stays is printed
   * bare and read without its blank, so the page still cites the source.
   */
  lemma DetachLeavesSibling(json: F.JsonReader)
    requires F.ReadsTheRest(json)
    ensures AsRead(SiblingPage(), json) && Cites(SiblingPage(), "documents/a") && !OnlyCites(SiblingPage(), "documents/a")
    ensures Cites(Detached(SiblingPage(), "documents/a", json), "documents/a")
  {
    hide SiblingPage, CitingText, Reread, WithoutSource, OnlyCites;
    SiblingsAreRead(json);
    SiblingsDetached();
    BlankRereads(json);
    CitedOfOne(CitingText(BLANK, "h", "now"), "documents/a", "h", "now");
    hide HeaderFields, KeyOf, PathOf;
    var after := CitingPage(CitingText(BLANK, "h", "now"), "documents/a", "h", "now");
    assert Cited(after)[0] in Cited(after);
  }

  // ---------------------------------------------------------------- a line feed in a value

  /** A header whose last value goes on in a line that is no header line cannot be read. */
  lemma StrayLineIsUnreadable(f: F.Front, u: string, x: string, body: string, json: F.JsonReader)
    requires f.updated == u + "\n" + x && T.Separable(f.(updated := u)) && '\n' !in x && x != F.FENCE
    requires Trim(x) != "" && F.MatchKeyed(x).None? && !F.IsSourcesLine(x)
    ensures F.Parsed(F.Serialized(f, body), json).Err?
  {
    hide F.HeaderLines, F.IndexOf, F.ReadLines, F.Terminated, StrayLines, T.HeaderLine;
    var lines := StrayLines(f, u, x);
    StrayText(f, u, x);
    StrayLinesAreLines(f, u, x);
    T.SerializedText(f, body);
    var header := Join(lines, "\n");
    T.FindsFence(lines, F.Terminated(body));
    SplitJoin(lines, '\n');
    StrayLineFails(f, u, x, json);
    var rest := header + F.CLOSING + F.Terminated(body);
    assert F.Serialized(f, body)[4..] == rest && rest[..|header|] == header;
  }

  /** The lines such a header really has. */
  function StrayLines(f: F.Front, u: string, x: string): seq<string> {
    F.FirstLines(f) + (F.SourceLines(f.sources) + ["updated: " + u, x])
  }

  lemma StrayText(f: F.Front, u: string, x: string)
    requires f.updated == u + "\n" + x
    ensures Join(F.HeaderLines(f), "\n") == Join(StrayLines(f, u, x), "\n")
  {
    hide F.FirstLines, F.SourceLines;
    var head := F.FirstLines(f) + F.SourceLines(f.sources);
    SameText(head, "updated: " + u, x);
    assert "updated: " + f.updated == "updated: " + u + "\n" + x;
    assert head + ["updated: " + u, x] == StrayLines(f, u, x);
  }

  lemma StrayLinesAreLines(f: F.Front, u: string, x: string)
    requires T.Separable(f.(updated := u)) && '\n' !in x && x != F.FENCE
    ensures StrayLines(f, u, x) != [] && forall line :: line in StrayLines(f, u, x) ==> T.HeaderLine(line)
    ensures forall line :: line in StrayLines(f, u, x) ==> '\n' !in line && line != F.FENCE
  {
    hide F.FirstLines, F.SourceLines, T.Separable;
    var g := f.(updated := u);
    SameFirst(f, u);
    T.HeaderLinesAreLines(g);
    assert F.HeaderLines(g) == F.FirstLines(f) + F.SourceLines(f.sources) + ["updated: " + u];
    assert forall line :: line in StrayLines(f, u, x) ==> line in F.HeaderLines(g) || line == x;
  }

  lemma SameFirst(f: F.Front, u: string)
    ensures F.FirstLines(f.(updated := u)) == F.FirstLines(f)
  {
  }

  lemma {:induction false} SameText(head: seq<string>, a: string, x: string)
    ensures Join(head + [a + "\n" + x], "\n") == Join(head + [a, x], "\n")
  {
    if head == [] {
      assert head + [a + "\n" + x] == [a + "\n" + x] && head + [a, x] == [a] + [x];
      T.JoinMore([x], a);
    } else {
      SameText(head[1..], a, x);
      assert head + [a + "\n" + x] == [head[0]] + (head[1..] + [a + "\n" + x]);
      assert head + [a, x] == [head[0]] + (head[1..] + [a, x]);
      T.JoinMore(head[1..] + [a + "\n" + x], head[0]);
      T.JoinMore(head[1..] + [a, x], head[0]);
    }
  }

  lemma StrayLineFails(f: F.Front, u: string, x: string, json: F.JsonReader)
    requires Trim(x) != "" && F.MatchKeyed(x).None? && !F.IsSourcesLine(x)
    ensures F.ReadLines(F.START, StrayLines(f, u, x), json).Err?
  {
    hide F.ReadLines, F.FirstLines, F.SourceLines, T.ReadRaw, T.ReadSources, T.Between, F.QuoteYamlScalar;
    var tail := ["updated: " + u, x];
    T.ReadsFirst(f, F.SourceLines(f.sources) + tail, json);
    if T.FirstRead(f, json) {
      var fields := T.AfterFirst(T.ReadRaw(f.kind, json).value, T.ReadRaw(F.QuoteYamlScalar(f.summary), json).value,
                                 T.ReadRaw(f.managedBy, json).value, T.ReadRaw(f.schemaVersion, json).value);
      T.ReadsAllSources(fields, [], f.sources, tail, json);
      if T.ReadSources(f.sources, json).Some? {
        LastLinesFail(fields, [] + T.ReadSources(f.sources, json).value, u, x, json);
      }
    }
  }

  lemma LastLinesFail(fields: map<string, F.Field>, items: seq<F.Item>, u: string, x: string, json: F.JsonReader)
    requires Trim(x) != "" && F.MatchKeyed(x).None? && !F.IsSourcesLine(x)
    ensures F.ReadLines(T.Between(fields, items), ["updated: " + u, x], json).Err?
  {
    hide F.MatchKeyed, F.IsSourcesLine, Trim, T.ReadRaw, F.ReadLine;
    T.KeysAreKeys();
    var st := T.Between(fields, items);
    assert "updated: " + u == T.KeyLine("updated", u);
    T.ReadsField(st, "updated", u, json);
    assert ["updated: " + u, x] == ["updated: " + u] + [x];
    T.ReadsOneMore(st, "updated: " + u, [x], json);
    if T.ReadRaw(u, json).Some? {
      var next := T.AfterField(st, "updated", T.ReadRaw(u, json).value);
      StrayLine(next, x, json);
      assert [x] == [x] + [];
      T.ReadsOneMore(next, x, [], json);
    }
  }

  lemma StrayLine(st: F.Reading, x: string, json: F.JsonReader)
    requires !st.inSources && Trim(x) != "" && F.MatchKeyed(x).None? && !F.IsSourcesLine(x)
    ensures F.ReadLine(st, x, json).Err?
  {
  }

  const FED: string := "now\nx"

  /**
   * A page whose `updated` was quoted with a line feed in it cites an imported source at a stale
   * hash: repair writes a header that cannot be read, and the index rebuild throws.
   */
  lemma FeedInValueThrows(r: Rules)
    requires Quiet(r)
    ensures var page := CitingPage(CitingText("documents/a", "x", Json.Quoted(FED)), "documents/a", "x", FED);
            var w, sources := OnePage(page), OneSource("documents/a");
            && AsRead(page, r.json)
            && Gc(r, Real(r), w, sources, []) == Some(w) && Gc(r, Meant(r), w, sources, []) == Some(w)
            && !RunFits(r, w, sources, [])
            && Repair(r, Real(r), w, sources) == None
  {
    hide Gc, Repair, CitingText, CitingFields, RunFits, Reread, Settled, OneSource;
    hide T.ReadRaw, T.ReadDashed, T.ReadNested, Json.Quoted, T.NoSeparators, FED;
    FedIsPlain();
    QuotedIsRead(FED, r.json);
    Word("documents/a", r.json);
    Word("x", r.json);
    OneLineHasNoFeed("documents/a");
    CitingReads("documents/a", "documents/a", "x", Json.Quoted(FED), FED, r.json);
    FeedRereads(r.json);
    StaleIsLost(r, "documents/a", "documents/a", Json.Quoted(FED), FED, Reread(CitingDraft("documents/a", "h", FED), r.json));
  }

  lemma FedIsPlain()
    ensures '[' !in Json.Quoted(FED) && T.NoSeparators(FED)
  {
    assert '[' !in FED && T.NoSeparators(FED);
    QuotedHasNoBracket(FED);
  }

  lemma FeedRereads(json: F.JsonReader)
    ensures Reread(CitingDraft("documents/a", "h", FED), json).Broken?
  {
    hide F.Parsed, F.Serialized, FrontOf, CitingFields, Trim, F.MatchKeyed;
    FrontOfCiting("documents/a", "h", FED);
    assert "now" + "\n" + "x" == FED;
    StrayX();
    StrayLineIsUnreadable(CitingFront("documents/a", "h", FED), "now", "x", "\n", json);
  }

  lemma StrayX()
    ensures Trim("x") != "" && F.MatchKeyed("x").None? && !F.IsSourcesLine("x")
  {
    T.TrimLonger("x");
  }
}
