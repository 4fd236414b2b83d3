/** Orphan collection and repair leave nothing for lint to report about sources and the index, where files can carry it. */
module QualityTheorems {
  import opened Text
  import opened Whitespace
  import opened SourcePlan
  import opened WikiTree
  import opened WikiIndex
  import opened Links
  import opened PageFile
  import opened Quality
  import opened Headings
  import Ingest
  import F = Frontmatter
  import T = FrontmatterTheorems

  // ---------------------------------------------------------------- the index

  /** No line feed in what the index prints of a page. */
  ghost predicate OneIndexLine(page: Page, slug: Slug)
    requires page.Page?
  {
    '\n' !in SectionOf(page.fields) && '\n' !in IndexSummary(page, slug)
  }

  ghost predicate PrintsOnOneLine(w: Wiki) {
    forall slug :: slug in w.pages && w.pages[slug].Page? ==> OneIndexLine(w.pages[slug], slug)
  }

  /** The index line can carry the slug, and the summary leaves something on it. */
  ghost predicate IndexCarries(w: Wiki) {
    forall slug :: slug in w.pages && w.pages[slug].Page? ==>
      SlugFits(slug) && SummaryShows(IndexSummary(w.pages[slug], slug))
  }

  lemma RebuiltRows(r: Rules, v: Ways, w: Wiki)
    requires Sorts(r.order) && Rebuilt(r, v, w).Some? && PrintsOnOneLine(Rebuilt(r, v, w).value)
    ensures var w' := Rebuilt(r, v, w).value;
      && Readable(w') && w'.pages.Keys == w.pages.Keys
      && RowsFit(RowsOf(w'.pages)) && w'.index == Some(IndexText(r.order, RowsOf(w'.pages)))
  {
    hide IndexSummary, SectionOf, Indexed, IndexText, IndexAlias;
    var w' := Rebuilt(r, v, w).value;
    forall slug | slug in w'.pages
      ensures RowFits(RowOf(w'.pages[slug], slug))
    {
      AliasFits(Display(w'.pages[slug].body, slug));
    }
  }

  /** The printed index raises an index error exactly for a page whose summary does not show. */
  lemma PrintedIndexIsClean(order: Order, rows: map<string, Row>, w: Wiki, e: LintError)
    requires Sorts(order) && RowsFit(rows) && SlugsFit(rows)
    requires w.pages.Keys == rows.Keys && w.index == Some(IndexText(order, rows))
    ensures IndexError(w, e) <==> e.IndexMisses? && e.slug in rows && !SummaryShows(rows[e.slug].summary)
  {
    hide IndexText, SummaryShows, TrimRight;
    var entries := IndexEntries(IndexText(order, rows));
    IndexRoundTrip(order, rows);
    forall i, j | 0 <= i < j < |entries|
      ensures entries[i].slug != entries[j].slug
    {
      IndexHasNoRepeats(order, rows, i, j);
    }
    assert forall i :: 0 <= i < |entries| ==> entries[i] in entries;
    if e.IndexMisses? && e.slug in rows && SummaryShows(rows[e.slug].summary) {
      assert RowItem(e.slug, rows[e.slug]) in entries;
    }
  }

  /** The rebuilt index passes lint exactly when its lines can carry every slug and every summary. */
  lemma RebuiltIndexCleanIff(r: Rules, v: Ways, w: Wiki)
    requires Sorts(r.order) && Rebuilt(r, v, w).Some? && PrintsOnOneLine(Rebuilt(r, v, w).value)
    ensures (forall e :: !IndexError(Rebuilt(r, v, w).value, e)) <==> IndexCarries(Rebuilt(r, v, w).value)
  {
    hide Rebuilt, IndexSummary, SummaryShows, IndexText, IndexEntries;
    RebuiltRows(r, v, w);
    var w' := Rebuilt(r, v, w).value;
    var rows := RowsOf(w'.pages);
    if slug :| slug in w'.pages && !SlugFits(slug) {
      UnfitSlugIsMissing(w'.index.value, slug);
      UnlistedIsMissed(w', slug);
    } else {
      forall e
        ensures IndexError(w', e) <==> e.IndexMisses? && e.slug in rows && !SummaryShows(rows[e.slug].summary)
      {
        PrintedIndexIsClean(r.order, rows, w', e);
      }
      if slug :| slug in w'.pages && !SummaryShows(IndexSummary(w'.pages[slug], slug)) {
        assert IndexError(w', IndexMisses(slug));
      }
    }
  }

  lemma UnlistedIsMissed(w: Wiki, slug: Slug)
    requires w.index.Some? && slug in w.pages
    requires forall item :: item in IndexEntries(w.index.value) ==> item.slug != slug
    ensures IndexError(w, IndexMisses(slug))
  {
    var entries := IndexEntries(w.index.value);
    assert forall i :: 0 <= i < |entries| ==> entries[i] in entries;
  }

  /** No line feed in what the rebuilt index will print of a page. */
  ghost predicate WillPrintOnOneLine(page: Page, slug: Slug)
    requires page.Page?
  {
    '\n' !in TextOf(page.fields, "type") && '\n' !in IndexSummary(page, slug)
  }

  /** The summary leaves something on the line, and that is one line, once the page was rewritten with it. */
  predicate WillShow(page: Page, slug: Slug)
    requires page.Page?
  {
    var s := Trim(IndexSummary(page, slug));
    s != "" && OneLine(s)
  }

  /** The index line will carry the slug and the summary of every page. */
  ghost predicate WillCarry(w: Wiki) {
    forall slug :: slug in w.pages && w.pages[slug].Page? ==> SlugFits(slug) && WillShow(w.pages[slug], slug)
  }

  ghost predicate AllWillPrint(w: Wiki) {
    forall slug :: slug in w.pages && w.pages[slug].Page? ==> WillPrintOnOneLine(w.pages[slug], slug)
  }

  lemma SectionIsOneLine(fields: map<string, F.Field>)
    requires '\n' !in TextOf(fields, "type")
    ensures '\n' !in SectionOf(fields)
  {
    if "type" in fields && fields["type"].Scalar? && fields["type"].value.Str? {
      TrimTrims(fields["type"].value.s);
    }
  }

  /** The fields the index is made of, once the page was written with its summary. */
  lemma SettledForIndex(page: Page, slug: Slug)
    requires page.Page? && IndexWrites(page, slug) != []
    ensures var d, s := IndexWrites(page, slug)[0], IndexSummary(page, slug);
      && TextOf(Settled(d).fields, "type") == TextOf(page.fields, "type")
      && Settled(d).body == F.Terminated(page.body)
      && IndexSummary(Settled(d), slug) == if Trim(s) != "" then Trim(s) else Display(page.body, slug)
  {
    hide IndexSummary, Settled, Heading;
    var d, s := IndexWrites(page, slug)[0], IndexSummary(page, slug);
    HeadingTerminated(page.body);
    assert d.fields["summary"] == F.Scalar(F.Str(s)) && TextOf(d.fields, "type") == TextOf(page.fields, "type");
    SettledTexts(d, s);
    SummaryIs(Settled(d), slug);
  }

  lemma SettledTexts(d: Draft, s: string)
    requires "summary" in d.fields && d.fields["summary"] == F.Scalar(F.Str(s))
    ensures var page := Settled(d);
      && ScalarSummary(page.fields) == Trim(s) && TextOf(page.fields, "type") == TextOf(d.fields, "type")
      && page.body == F.Terminated(d.body)
  {
    hide SourcesOf, VisitedIn, Printed, T.ItemsOf, Trim;
    assert FrontOf(d).summary == s;
    assert Settled(d).fields["summary"] == F.Scalar(F.Str(s));
    assert Settled(d).fields["type"] == F.Scalar(F.Str(TextOf(d.fields, "type")));
  }

  lemma SummaryIs(page: Page, slug: Slug)
    requires page.Page?
    ensures IndexSummary(page, slug)
         == if ScalarSummary(page.fields) != "" then ScalarSummary(page.fields) else Display(page.body, slug)
  {
    hide ScalarSummary, Display;
  }

  lemma HeadingTerminated(body: string)
    ensures Heading(F.Terminated(body)) == Heading(body)
  {
    hide HeadingFrom;
    HeadingFed(body, true);
  }

  /** What stands in the index for a page: trimmed, or the slug as it is. */
  lemma SummaryIsTrimmed(page: Page, slug: Slug)
    requires page.Page?
    ensures var s := IndexSummary(page, slug);
      || (s == slug && Display(page.body, slug) == slug)
      || (IsTrimmed(s) && (s == "" ==> Display(page.body, slug) == ""))
  {
    hide Shown, HeadingFrom;
    HeadingIsTrimmed(page.body, true);
    SummaryIs(page, slug);
    ScalarIsTrimmed(page.fields);
  }

  lemma ScalarIsTrimmed(fields: map<string, F.Field>)
    ensures IsTrimmed(ScalarSummary(fields))
  {
    hide Shown, Trim;
    if "summary" in fields && fields["summary"].Scalar? {
      TrimTrims(Shown(fields["summary"].value));
    }
  }

  lemma ShowsTrimmed(s: string)
    ensures IsTrimmed(s) ==> Trim(s) == s && TrimRight(s) == s
    ensures Trim(s) == "" ==> TrimRight(s) == ""
  {
    T.TrimLonger(s);
    TrimTrims(s);
    TrimRightPrefix(s);
    assert TrimRight(s) != "" ==> TrimRight(s)[|TrimRight(s)| - 1] in s;
  }

  lemma UnwrittenIsTrimmed(page: Page, slug: Slug)
    requires page.Page? && IndexWrites(page, slug) == []
    ensures var s := IndexSummary(page, slug); Trim(s) == "" || Trim(s) == s
  {
    hide Display;
    SummaryIs(page, slug);
    ScalarIsTrimmed(page.fields);
  }

  lemma IndexedShows(r: Rules, page: Page, slug: Slug)
    requires page.Page?
    ensures var q := Indexed(Meant(r), page, slug);
      && q.Page?
      && (WillPrintOnOneLine(page, slug) ==> OneIndexLine(q, slug))
      && (SummaryShows(IndexSummary(q, slug)) <==> WillShow(page, slug))
  {
    hide IndexWrites, IndexSummary, Settled, Display, SectionOf, Trim, TrimRight, TextOf, OneLine;
    var q, s := Indexed(Meant(r), page, slug), IndexSummary(page, slug);
    SectionWillBeOneLine(page);
    TrimTrims(s);
    ShowsTrimmed("");
    ShowsTrimmed(s);
    ShowsTrimmed(Trim(s));
    if IndexWrites(page, slug) == [] {
      UnwrittenIsTrimmed(page, slug);
    } else {
      SettledForIndex(page, slug);
      SummaryIsTrimmed(page, slug);
      assert q == Settled(IndexWrites(page, slug)[0]);
      SectionWillBeOneLine(q);
      if Trim(s) == "" {
        assert TrimRight(IndexSummary(q, slug)) == "";
      }
    }
  }

  lemma SectionWillBeOneLine(page: Page)
    requires page.Page?
    ensures '\n' !in TextOf(page.fields, "type") ==> '\n' !in SectionOf(page.fields)
  {
    hide TextOf, SectionOf;
    if '\n' !in TextOf(page.fields, "type") {
      SectionIsOneLine(page.fields);
    }
  }

  /**
   * The index rebuilt over fitting headers passes lint exactly when its lines can carry every slug and every
   * summary, as the pages are before the rebuild.
   */
  lemma MeantIndexCleanIff(r: Rules, w: Wiki)
    requires Sorts(r.order) && Rebuilt(r, Meant(r), w).Some? && AllWillPrint(w)
    ensures (forall e :: !IndexError(Rebuilt(r, Meant(r), w).value, e)) <==> WillCarry(w)
  {
    hide IndexSummary, SummaryShows, IndexText, IndexError, WillPrintOnOneLine, OneIndexLine, Indexed, SlugFits, WillShow;
    var w' := Rebuilt(r, Meant(r), w).value;
    forall slug | slug in w.pages
      ensures w.pages[slug].Page? && w'.pages[slug].Page? && OneIndexLine(w'.pages[slug], slug)
      ensures SummaryShows(IndexSummary(w'.pages[slug], slug)) <==> WillShow(w.pages[slug], slug)
    {
      ReadableBefore(r, w, slug);
      IndexedShows(r, w.pages[slug], slug);
    }
    RebuiltIndexCleanIff(r, Meant(r), w);
  }

  lemma ReadableBefore(r: Rules, w: Wiki, slug: Slug)
    requires Sorts(r.order) && Rebuilt(r, Meant(r), w).Some? && slug in w.pages
    ensures w.pages[slug].Page? && Rebuilt(r, Meant(r), w).value.pages[slug] == Indexed(Meant(r), w.pages[slug], slug)
  {
    hide IndexSummary, IndexText, Settled;
    assert IndexedPages(Meant(r), w.pages)[slug] == Indexed(Meant(r), w.pages[slug], slug);
  }

  // ---------------------------------------------------------------- sources

  /** Every cited source of every readable page is recorded as imported. */
  ghost predicate CitesImported(w: Wiki, sources: Sources) {
    forall slug, item :: slug in w.pages && w.pages[slug].Page? && item in Cited(w.pages[slug]) ==>
      IsImported(sources, KeyOf(item))
  }

  /** The item with its recorded hash, if there is one, and everything else as it was. */
  ghost predicate IsFixed(before: F.Item, after: F.Item, sources: Sources) {
    && KeyOf(after) == KeyOf(before)
    && (forall key :: key != "sha256" ==> (key in after <==> key in before) && (key in after ==> after[key] == before[key]))
    && match RecordedHash(sources, KeyOf(before))
       case Some(hash) => "sha256" in after && after["sha256"] == F.Str(hash)
       case None => after == before
  }

  /** Afterwards a source with a recorded hash carries it; its key, every other field and the order stay. */
  lemma {:induction false} FixItemsMeans(items: seq<F.Item>, i: nat, sources: Sources)
    requires i < |items|
    ensures |FixItems(items, sources)| == |items| && IsFixed(items[i], FixItems(items, sources)[i], sources)
  {
    hide FixItem, IsFixed;
    FixItemsSize(items, sources);
    if i == 0 {
      FixItemMeans(items[0], sources);
    } else {
      FixItemsMeans(items[1..], i - 1, sources);
    }
  }

  lemma {:induction false} FixItemsSize(items: seq<F.Item>, sources: Sources)
    ensures |FixItems(items, sources)| == |items|
  {
    if items != [] {
      FixItemsSize(items[1..], sources);
    }
  }

  lemma FixItemMeans(item: F.Item, sources: Sources)
    ensures IsFixed(item, FixItem(item, sources), sources)
  {
    hide Shown;
  }

  /** A source that lint has nothing to say about: imported, and at the recorded hash where there is one. */
  ghost predicate Good(item: F.Item, sources: Sources) {
    && IsImported(sources, KeyOf(item))
    && (RecordedHash(sources, KeyOf(item)).Some? ==>
          "sha256" in item && item["sha256"] == F.Str(RecordedHash(sources, KeyOf(item)).value))
  }

  ghost predicate GoodFields(fields: map<string, F.Field>, sources: Sources) {
    VisitedIn(fields) == CitedIn(fields) && forall item :: item in CitedIn(fields) ==> Good(item, sources)
  }

  ghost predicate GoodPage(page: Page, sources: Sources) {
    page.Page? && GoodFields(page.fields, sources)
  }

  ghost predicate ImportedPage(page: Page, sources: Sources) {
    page.Page? ==> forall item :: item in Cited(page) ==> IsImported(sources, KeyOf(item))
  }

  /** The sources are a list, or there are none. */
  ghost predicate Listed(page: Page) {
    page.Page? && "sources" in page.fields ==> page.fields["sources"].Sources?
  }

  lemma SettledIsGood(d: Draft, sources: Sources)
    requires GoodFields(d.fields, sources)
    ensures GoodPage(Settled(d), sources)
  {
    hide Settled, VisitedIn, CitedIn, KeyOf;
    SettledCites(d);
    forall item | item in Cited(Settled(d)) ensures Good(item, sources) {
      var i :| 0 <= i < |Cited(Settled(d))| && Cited(Settled(d))[i] == item;
      assert VisitedIn(d.fields)[i] in CitedIn(d.fields);
    }
  }

  lemma SameIsGood(d: Draft, items: seq<F.Item>, sources: Sources)
    requires VisitedIn(d.fields) == CitedIn(d.fields) && SameCited(CitedIn(d.fields), items)
    requires forall item :: item in items ==> Good(item, sources)
    ensures GoodPage(Settled(d), sources)
  {
    hide Settled, VisitedIn, CitedIn, KeyOf;
    SettledCites(d);
    forall item | item in Cited(Settled(d)) ensures Good(item, sources) {
      var i :| 0 <= i < |Cited(Settled(d))| && Cited(Settled(d))[i] == item;
      assert items[i] in items;
      assert ItemText(items[i], "sha256") == ItemText(CitedIn(d.fields)[i], "sha256");
    }
  }

  lemma FixedIsGood(r: Rules, page: Page, sources: Sources)
    requires page.Page? && Listed(page) && ImportedPage(page, sources)
    ensures GoodFields(Fixed(r, page, sources).fields, sources)
  {
    hide KeyOf, RecordedHash, FixItems, Shown;
    var fixed, items := FixCited(page.fields, sources), CitedIn(page.fields);
    FixItemsSize(items, sources);
    assert CitedIn(fixed) == FixItems(items, sources) && VisitedIn(fixed) == CitedIn(fixed);
    forall item | item in CitedIn(fixed) ensures Good(item, sources) {
      var i :| 0 <= i < |CitedIn(fixed)| && CitedIn(fixed)[i] == item;
      FixItemsMeans(items, i, sources);
      assert items[i] in Cited(page);
    }
  }

  /** Repair as it is meant makes every page readable and gives every cited source its recorded hash. */
  lemma MeantRepairIsGood(r: Rules, page: Page, sources: Sources)
    requires SoundRules(r) && Listed(page) && ImportedPage(page, sources)
    ensures GoodPage(RepairPage(r, Meant(r), page, sources), sources)
  {
    hide Settled, Fixed, Good, KeyOf, SameCited, Printed;
    if page.Broken? {
      NormalisedIsGood(r, page, sources);
    } else {
      FixedIsGood(r, page, sources);
      var fixed := Fixed(r, page, sources);
      if fixed == Draft(page.fields, page.body) {
        if r.size(page.text) > r.maxBytes { NormalisedIsGood(r, page, sources); }
      } else {
        var next := fixed.(body := EndLine(fixed.body));
        SettledIsGood(next, sources);
        if r.size(Printed(next)) > r.maxBytes { NormalisedIsGood(r, Settled(next), sources); }
      }
    }
  }

  lemma NormalisedIsGood(r: Rules, page: Page, sources: Sources)
    requires SoundRules(r) && (page.Page? ==> GoodPage(page, sources))
    ensures GoodPage(Settled(r.normalise(page)), sources)
  {
    hide Settled, VisitedIn, CitedIn, KeyOf;
    SameIsGood(r.normalise(page), Cited(page), sources);
  }

  lemma IndexedIsGood(r: Rules, page: Page, slug: Slug, sources: Sources)
    requires GoodPage(page, sources)
    ensures GoodPage(Indexed(Meant(r), page, slug), sources)
  {
    hide Settled, Good, IndexSummary, VisitedIn, CitedIn;
    var writes := IndexWrites(page, slug);
    if writes != [] {
      SettledIsGood(writes[0], sources);
    }
  }

  // ---------------------------------------------------------------- what is written along the way

  function SavedAll(v: Ways, writes: seq<Draft>): (r: seq<Page>)
    ensures |r| == |writes| && forall i :: 0 <= i < |r| ==> r[i] == v.save(writes[i])
  {
    seq(|writes|, i requires 0 <= i < |writes| => v.save(writes[i]))
  }

  /** The page's file after link dropping, after each write of repair, and after the index rebuild. */
  function RepairStates(r: Rules, v: Ways, w: Wiki, page: Page, slug: Slug, sources: Sources): seq<Page> {
    var u := v.unlink(w, page);
    var last := RepairPage(r, v, u, sources);
    [u] + SavedAll(v, RepairWrites(r, v, u, sources)) + SavedAll(v, IndexWrites(last, slug))
  }

  /** What repair means to write of the page. */
  function RepairMeans(r: Rules, w: Wiki, page: Page, slug: Slug, sources: Sources): seq<Draft> {
    var v := Meant(r);
    var u := v.unlink(w, page);
    RepairWrites(r, v, u, sources) + IndexWrites(RepairPage(r, v, u, sources), slug)
  }

  /** Link dropping spares the page's sources, and every header repair means to write fits its lines. */
  ghost predicate RepairFits(r: Rules, w: Wiki, page: Page, slug: Slug, sources: Sources) {
    && LinksSpared(page, target => r.resolves(w, target), r.json)
    && forall p :: p in RepairMeans(r, w, page, slug, sources) ==> Fits(p, r.json)
  }

  lemma SavedIff(r: Rules, writes: seq<Draft>)
    requires F.ReadsTheRest(r.json)
    ensures SavedAll(Real(r), writes) == SavedAll(Meant(r), writes) <==> forall p :: p in writes ==> Fits(p, r.json)
  {
    hide Fits, Reread, Settled, F.ReadsTheRest;
    var a, b := SavedAll(Real(r), writes), SavedAll(Meant(r), writes);
    forall i | 0 <= i < |writes| ensures a[i] == b[i] <==> Fits(writes[i], r.json) {
      RereadIff(writes[i], r.json);
    }
  }

  /** From the same file, the writes of repair go as meant exactly when their headers fit. */
  lemma WritesIff(r: Rules, u: Page, sources: Sources)
    requires F.ReadsTheRest(r.json)
    ensures var a, b := RepairWrites(r, Real(r), u, sources), RepairWrites(r, Meant(r), u, sources);
      && |a| == |b|
      && (SavedAll(Real(r), a) == SavedAll(Meant(r), b) <==> forall p :: p in b ==> Fits(p, r.json))
      && (SavedAll(Real(r), a) == SavedAll(Meant(r), b) ==>
            RepairPage(r, Real(r), u, sources) == RepairPage(r, Meant(r), u, sources))
  {
    hide Fits, Reread, Settled, Fixed, F.ReadsTheRest;
    var a, b := RepairWrites(r, Real(r), u, sources), RepairWrites(r, Meant(r), u, sources);
    var x, y := SavedAll(Real(r), a), SavedAll(Meant(r), b);
    if |a| == 2 {
      RereadIff(b[0], r.json);
      assert x[0] == y[0] ==> a == b;
      assert x == y ==> x[0] == y[0] && x[1] == y[1];
    }
    if a == b {
      SavedIff(r, b);
    }
  }

  /** One page's repair goes as meant exactly when links spare its sources and every header it writes fits. */
  lemma PageRunIff(r: Rules, w: Wiki, page: Page, slug: Slug, sources: Sources)
    requires F.ReadsTheRest(r.json)
    ensures RepairStates(r, Real(r), w, page, slug, sources) == RepairStates(r, Meant(r), w, page, slug, sources)
            <==> RepairFits(r, w, page, slug, sources)
  {
    hide Fits, Unlinked, MeantUnlinked, LinksSpared, RepairWrites, RepairPage, IndexWrites, SavedAll, F.ReadsTheRest;
    var resolves := target => r.resolves(w, target);
    UnlinkIff(page, resolves, r.json);
    var done, meant := Real(r).unlink(w, page), Meant(r).unlink(w, page);
    SpareIff(r, w, page);
    var xs, ys := RepairStates(r, Real(r), w, page, slug, sources), RepairStates(r, Meant(r), w, page, slug, sources);
    assert xs[0] == done && ys[0] == meant;
    if done == meant {
      WritesIff(r, meant, sources);
      var a, b := RepairWrites(r, Real(r), meant, sources), RepairWrites(r, Meant(r), meant, sources);
      var p, q := RepairPage(r, Real(r), meant, sources), RepairPage(r, Meant(r), meant, sources);
      SavedLength(Real(r), a);
      SavedLength(Meant(r), b);
      Cuts(done, SavedAll(Real(r), a), SavedAll(Real(r), IndexWrites(p, slug)),
           SavedAll(Meant(r), b), SavedAll(Meant(r), IndexWrites(q, slug)));
      if SavedAll(Real(r), a) == SavedAll(Meant(r), b) {
        SavedIff(r, IndexWrites(q, slug));
      }
    }
  }

  lemma SavedLength(v: Ways, writes: seq<Draft>)
    ensures |SavedAll(v, writes)| == |writes|
  {
  }

  lemma Cuts(u: Page, a: seq<Page>, c: seq<Page>, b: seq<Page>, d: seq<Page>)
    requires |a| == |b|
    ensures [u] + a + c == [u] + b + d <==> a == b && c == d
  {
    var x, y := [u] + a + c, [u] + b + d;
    assert x[1..1 + |a|] == a && y[1..1 + |b|] == b && x[1 + |a|..] == c && y[1 + |b|..] == d;
  }

  lemma SpareIff(r: Rules, w: Wiki, page: Page)
    ensures Real(r).unlink(w, page) == Meant(r).unlink(w, page)
            <==> LinksSpared(page, target => r.resolves(w, target), r.json)
  {
    UnlinkIff(page, target => r.resolves(w, target), r.json);
    hide Unlinked, MeantUnlinked, LinksSpared;
  }

  // ---------------------------------------------------------------- orphan collection

  function GcStates(r: Rules, v: Ways, page: Page, slug: Slug, touched: bool, sources: Sources, prefixes: seq<string>): seq<Page> {
    SavedAll(v, GcWrites(page, sources, prefixes))
    + if touched then SavedAll(v, IndexWrites(Collected(v, page, sources, prefixes), slug)) else []
  }

  function GcMeans(r: Rules, page: Page, slug: Slug, touched: bool, sources: Sources, prefixes: seq<string>): seq<Draft> {
    GcWrites(page, sources, prefixes)
    + if touched then IndexWrites(Collected(Meant(r), page, sources, prefixes), slug) else []
  }

  /** Every header orphan collection means to write fits its lines. */
  ghost predicate GcFits(r: Rules, page: Page, slug: Slug, touched: bool, sources: Sources, prefixes: seq<string>) {
    forall p :: p in GcMeans(r, page, slug, touched, sources, prefixes) ==> Fits(p, r.json)
  }

  lemma GcRunIff(r: Rules, page: Page, slug: Slug, touched: bool, sources: Sources, prefixes: seq<string>)
    requires F.ReadsTheRest(r.json)
    ensures GcStates(r, Real(r), page, slug, touched, sources, prefixes)
            == GcStates(r, Meant(r), page, slug, touched, sources, prefixes)
            <==> GcFits(r, page, slug, touched, sources, prefixes)
    ensures GcFits(r, page, slug, touched, sources, prefixes) ==>
            && Collected(Real(r), page, sources, prefixes) == Collected(Meant(r), page, sources, prefixes)
            && (touched ==> var p := Collected(Meant(r), page, sources, prefixes);
                            Indexed(Real(r), p, slug) == Indexed(Meant(r), p, slug))
  {
    hide Fits, Reread, Settled, GcWrites, IndexWrites, F.ReadsTheRest, SavedAll, Indexed;
    var writes := GcWrites(page, sources, prefixes);
    var p, q := Collected(Real(r), page, sources, prefixes), Collected(Meant(r), page, sources, prefixes);
    var c := if touched then SavedAll(Real(r), IndexWrites(p, slug)) else [];
    var d := if touched then SavedAll(Meant(r), IndexWrites(q, slug)) else [];
    var a, b := SavedAll(Real(r), writes), SavedAll(Meant(r), writes);
    SavedIff(r, writes);
    SavedLength(Real(r), writes);
    SavedLength(Meant(r), writes);
    CutsHead(a, c, b, d);
    if a == b {
      CollectedSame(r, page, sources, prefixes);
      SavedIff(r, IndexWrites(q, slug));
      IndexedSame(r, q, slug);
    }
  }

  lemma CutsHead(a: seq<Page>, c: seq<Page>, b: seq<Page>, d: seq<Page>)
    requires |a| == |b|
    ensures a + c == b + d <==> a == b && c == d
  {
    var x, y := a + c, b + d;
    assert x[..|a|] == a && y[..|b|] == b && x[|a|..] == c && y[|b|..] == d;
  }

  lemma CollectedSame(r: Rules, page: Page, sources: Sources, prefixes: seq<string>)
    requires SavedAll(Real(r), GcWrites(page, sources, prefixes)) == SavedAll(Meant(r), GcWrites(page, sources, prefixes))
    ensures Collected(Real(r), page, sources, prefixes) == Collected(Meant(r), page, sources, prefixes)
  {
    hide Reread, Settled, GcWrites;
    var writes := GcWrites(page, sources, prefixes);
    if writes != [] {
      assert SavedAll(Real(r), writes)[0] == SavedAll(Meant(r), writes)[0];
    }
  }

  lemma IndexedSame(r: Rules, page: Page, slug: Slug)
    ensures SavedAll(Real(r), IndexWrites(page, slug)) == SavedAll(Meant(r), IndexWrites(page, slug)) ==>
              Indexed(Real(r), page, slug) == Indexed(Meant(r), page, slug)
  {
    hide Reread, Settled, IndexWrites;
    var writes := IndexWrites(page, slug);
    if writes != [] && SavedAll(Real(r), writes) == SavedAll(Meant(r), writes) {
      assert SavedAll(Real(r), writes)[0] == SavedAll(Meant(r), writes)[0];
    }
  }

  ghost predicate Stays(page: Page, sources: Sources, prefixes: seq<string>) {
    FateOf(page, sources, prefixes) != Remove
  }

  // ---------------------------------------------------------------- the whole run

  /** The recorded sources once the sources of removed pages are marked. */
  function Marked(w: Wiki, sources: Sources, prefixes: seq<string>): Sources {
    Ingest.MarkForRecompile(sources, Recompile(w.pages, sources, prefixes))
  }

  /** Every file reads, after each pass of orphan collection and repair, as it was meant to. */
  ghost predicate RunAsMeant(r: Rules, w: Wiki, sources: Sources, prefixes: seq<string>)
    requires Sorts(r.order) && Gc(r, Meant(r), w, sources, prefixes).Some?
  {
    var touched, g := GcTouches(w.pages, sources, prefixes), Gc(r, Meant(r), w, sources, prefixes).value;
    && (forall slug :: slug in w.pages && Stays(w.pages[slug], sources, prefixes) ==>
          GcStates(r, Real(r), w.pages[slug], slug, touched, sources, prefixes)
          == GcStates(r, Meant(r), w.pages[slug], slug, touched, sources, prefixes))
    && (forall slug :: slug in g.pages ==>
          RepairStates(r, Real(r), g, g.pages[slug], slug, Marked(w, sources, prefixes))
          == RepairStates(r, Meant(r), g, g.pages[slug], slug, Marked(w, sources, prefixes)))
  }

  /** Link dropping spares every file's sources, and every header the passes mean to write fits its lines. */
  ghost predicate RunFits(r: Rules, w: Wiki, sources: Sources, prefixes: seq<string>)
    requires Sorts(r.order) && Gc(r, Meant(r), w, sources, prefixes).Some?
  {
    var touched, g := GcTouches(w.pages, sources, prefixes), Gc(r, Meant(r), w, sources, prefixes).value;
    && (forall slug :: slug in w.pages && Stays(w.pages[slug], sources, prefixes) ==>
          GcFits(r, w.pages[slug], slug, touched, sources, prefixes))
    && (forall slug :: slug in g.pages ==> RepairFits(r, g, g.pages[slug], slug, Marked(w, sources, prefixes)))
  }

  /** The passes do what they are meant to do, file by file, exactly when links and headers allow it. */
  lemma RunAsMeantIff(r: Rules, w: Wiki, sources: Sources, prefixes: seq<string>)
    requires Sorts(r.order) && F.ReadsTheRest(r.json) && Gc(r, Meant(r), w, sources, prefixes).Some?
    ensures RunAsMeant(r, w, sources, prefixes) <==> RunFits(r, w, sources, prefixes)
  {
    hide GcStates, RepairStates, GcFits, RepairFits, Gc, F.ReadsTheRest, Stays;
    var touched, g := GcTouches(w.pages, sources, prefixes), Gc(r, Meant(r), w, sources, prefixes).value;
    forall slug | slug in w.pages
      ensures GcStates(r, Real(r), w.pages[slug], slug, touched, sources, prefixes)
              == GcStates(r, Meant(r), w.pages[slug], slug, touched, sources, prefixes)
              <==> GcFits(r, w.pages[slug], slug, touched, sources, prefixes)
    {
      GcRunIff(r, w.pages[slug], slug, touched, sources, prefixes);
    }
    forall slug | slug in g.pages
      ensures RepairStates(r, Real(r), g, g.pages[slug], slug, Marked(w, sources, prefixes))
              == RepairStates(r, Meant(r), g, g.pages[slug], slug, Marked(w, sources, prefixes))
              <==> RepairFits(r, g, g.pages[slug], slug, Marked(w, sources, prefixes))
    {
      PageRunIff(r, g, g.pages[slug], slug, Marked(w, sources, prefixes));
    }
  }

  /** A run that goes as meant ends as meant. */
  lemma FittingGcIsMeant(r: Rules, w: Wiki, sources: Sources, prefixes: seq<string>)
    requires Sorts(r.order) && F.ReadsTheRest(r.json)
    requires forall slug :: slug in w.pages && Stays(w.pages[slug], sources, prefixes) ==>
               GcFits(r, w.pages[slug], slug, GcTouches(w.pages, sources, prefixes), sources, prefixes)
    ensures Gc(r, Real(r), w, sources, prefixes) == Gc(r, Meant(r), w, sources, prefixes)
  {
    hide GcFits, Collected, Indexed, F.ReadsTheRest, GcTouches, Real, Meant, FateOf, IndexText, RowsOf;
    var touched := GcTouches(w.pages, sources, prefixes);
    if touched {
      var a := CollectedPages(Real(r), w.pages, sources, prefixes);
      var b := CollectedPages(Meant(r), w.pages, sources, prefixes);
      assert a.Keys == b.Keys;
      forall slug | slug in b
        ensures a[slug] == b[slug] && Indexed(Real(r), a[slug], slug) == Indexed(Meant(r), b[slug], slug)
      {
        GcRunIff(r, w.pages[slug], slug, touched, sources, prefixes);
      }
      assert a == b;
      assert IndexedPages(Real(r), a) == IndexedPages(Meant(r), b);
    }
  }

  lemma FittingPagesAreMeant(r: Rules, g: Wiki, sources: Sources)
    requires Sorts(r.order) && F.ReadsTheRest(r.json)
    requires forall slug :: slug in g.pages ==> RepairFits(r, g, g.pages[slug], slug, sources)
    ensures var a, b := RepairedPages(r, Real(r), g, sources), RepairedPages(r, Meant(r), g, sources);
            a == b && IndexedPages(Real(r), a) == IndexedPages(Meant(r), b)
  {
    hide RepairFits, RepairPage, Indexed, F.ReadsTheRest, Real, Meant;
    var a, b := RepairedPages(r, Real(r), g, sources), RepairedPages(r, Meant(r), g, sources);
    forall slug | slug in g.pages
      ensures a[slug] == b[slug] && Indexed(Real(r), a[slug], slug) == Indexed(Meant(r), b[slug], slug)
    {
      FittingPageIsMeant(r, g, g.pages[slug], slug, sources);
    }
    assert a == b;
  }

  lemma FittingRepairIsMeant(r: Rules, g: Wiki, sources: Sources)
    requires Sorts(r.order) && F.ReadsTheRest(r.json)
    requires forall slug :: slug in g.pages ==> RepairFits(r, g, g.pages[slug], slug, sources)
    ensures Repair(r, Real(r), g, sources) == Repair(r, Meant(r), g, sources)
  {
    hide RepairFits, RepairedPages, IndexedPages, F.ReadsTheRest, Real, Meant;
    FittingPagesAreMeant(r, g, sources);
  }

  lemma FittingPageIsMeant(r: Rules, w: Wiki, page: Page, slug: Slug, sources: Sources)
    requires F.ReadsTheRest(r.json) && RepairFits(r, w, page, slug, sources)
    ensures Real(r).unlink(w, page) == Meant(r).unlink(w, page)
    ensures var u := Meant(r).unlink(w, page);
            var p := RepairPage(r, Meant(r), u, sources);
            RepairPage(r, Real(r), u, sources) == p && Indexed(Real(r), p, slug) == Indexed(Meant(r), p, slug)
  {
    hide Fits, Unlinked, MeantUnlinked, LinksSpared, RepairWrites, RepairPage, IndexWrites, F.ReadsTheRest, Reread, Settled;
    SpareIff(r, w, page);
    var u := Meant(r).unlink(w, page);
    WritesIff(r, u, sources);
    assert forall p :: p in RepairWrites(r, Meant(r), u, sources) ==> p in RepairMeans(r, w, page, slug, sources);
    var writes := IndexWrites(RepairPage(r, Meant(r), u, sources), slug);
    SavedIff(r, writes);
    if writes != [] {
      assert SavedAll(Real(r), writes)[0] == SavedAll(Meant(r), writes)[0];
    }
  }

  ghost predicate AllListed(w: Wiki) {
    forall slug :: slug in w.pages ==> Listed(w.pages[slug])
  }

  /** The sources are no text, which a loop would visit letter by letter. */
  ghost predicate Plain(page: Page) {
    page.Page? ==> Visited(page) == Cited(page)
  }

  lemma ListedIsPlain(page: Page)
    requires Listed(page)
    ensures Plain(page)
  {
  }

  /** The page as orphan collection leaves it. */
  function GcPage(v: Ways, page: Page, slug: Slug, touched: bool, sources: Sources, prefixes: seq<string>): Page {
    if touched then Indexed(v, Collected(v, page, sources, prefixes), slug) else page
  }

  lemma GcPages(r: Rules, v: Ways, w: Wiki, sources: Sources, prefixes: seq<string>)
    requires Sorts(r.order) && Gc(r, v, w, sources, prefixes).Some?
    ensures var touched, g := GcTouches(w.pages, sources, prefixes), Gc(r, v, w, sources, prefixes).value;
      && (forall slug :: slug in g.pages <==> slug in w.pages && Stays(w.pages[slug], sources, prefixes))
      && (forall slug :: slug in g.pages ==> g.pages[slug] == GcPage(v, w.pages[slug], slug, touched, sources, prefixes))
  {
    hide FateOf, Indexed, Collected, IndexText, RowsOf;
  }

  /** A text for sources, reprinted with a new summary, becomes a list of sources without a path. */
  ghost predicate Respelled(page: Page, slug: Slug, touched: bool) {
    page.Page? && Visited(page) != Cited(page) && touched && IndexWrites(page, slug) != []
  }

  lemma RespelledCites(page: Page, slug: Slug, sources: Sources)
    requires page.Page? && Visited(page) != Cited(page) && IndexWrites(page, slug) != []
    ensures ImportedPage(Settled(IndexWrites(page, slug)[0]), sources) <==> IsImported(sources, "undefined")
  {
    hide Settled, IndexSummary;
    var d := IndexWrites(page, slug)[0];
    assert VisitedIn(d.fields) == Visited(page) && |Visited(page)| > 0;
    SettledCites(d);
    var items := Cited(Settled(d));
    assert forall i :: 0 <= i < |items| ==> KeyOf(items[i]) == "undefined";
    assert items[0] in items;
  }

  lemma GcPageIsImportedIff(r: Rules, page: Page, slug: Slug, touched: bool, sources: Sources, prefixes: seq<string>)
    requires Stays(page, sources, prefixes) && (touched || FateOf(page, sources, prefixes) == Keep)
    ensures ImportedPage(GcPage(Meant(r), page, slug, touched, sources, prefixes), sources)
            <==> (Respelled(page, slug, touched) ==> IsImported(sources, "undefined"))
  {
    hide KeyOf, Settled, FateOf, IndexWrites, ImportedPage, Collected, VisitedIn, CitedIn;
    if !touched {
      KeptIsImported(page, sources, prefixes);
    } else if Plain(page) {
      CollectedIsImported(r, page, slug, sources, prefixes);
    } else {
      TextIsKept(Meant(r), page, sources, prefixes);
      if IndexWrites(page, slug) == [] {
        KeptIsImported(page, sources, prefixes);
      } else {
        RespelledCites(page, slug, sources);
      }
    }
  }

  lemma TextIsKept(v: Ways, page: Page, sources: Sources, prefixes: seq<string>)
    requires !Plain(page)
    ensures FateOf(page, sources, prefixes) == Keep && Collected(v, page, sources, prefixes) == page
  {
    assert Cited(page) == [];
  }

  /**
   * Orphan collection as it is meant leaves only cited sources that are imported, exactly when no page whose
   * sources are a text is reprinted. A list stays a list.
   */
  lemma MeantGcLeavesImported(r: Rules, w: Wiki, sources: Sources, prefixes: seq<string>)
    requires Sorts(r.order) && Gc(r, Meant(r), w, sources, prefixes).Some?
    ensures var g, touched := Gc(r, Meant(r), w, sources, prefixes).value, GcTouches(w.pages, sources, prefixes);
      && (CitesImported(g, sources) <==>
            (forall slug :: slug in w.pages && Respelled(w.pages[slug], slug, touched) ==> IsImported(sources, "undefined")))
      && (AllListed(w) ==> CitesImported(g, sources) && AllListed(g))
  {
    hide Gc, GcTouches, KeyOf, FateOf, GcPage, Respelled, Listed, ImportedPage;
    var g, touched := Gc(r, Meant(r), w, sources, prefixes).value, GcTouches(w.pages, sources, prefixes);
    GcPages(r, Meant(r), w, sources, prefixes);
    ImportedPages(g, sources);
    forall slug | slug in g.pages
      ensures ImportedPage(g.pages[slug], sources)
              <==> (Respelled(w.pages[slug], slug, touched) ==> IsImported(sources, "undefined"))
      ensures Listed(w.pages[slug]) ==> Listed(g.pages[slug]) && !Respelled(w.pages[slug], slug, touched)
    {
      if !touched {
        UntouchedIsKept(w.pages, slug, sources, prefixes);
      }
      GcPageIsImportedIff(r, w.pages[slug], slug, touched, sources, prefixes);
      if Listed(w.pages[slug]) {
        GcPageIsListed(r, w.pages[slug], slug, touched, sources, prefixes);
      }
    }
    forall slug | slug in w.pages && Respelled(w.pages[slug], slug, touched) ensures slug in g.pages {
      RespelledStays(r, w.pages[slug], slug, touched, sources, prefixes);
    }
  }

  lemma ImportedPages(w: Wiki, sources: Sources)
    ensures CitesImported(w, sources) <==> forall slug :: slug in w.pages ==> ImportedPage(w.pages[slug], sources)
  {
    hide KeyOf, Cited;
  }

  lemma RespelledStays(r: Rules, page: Page, slug: Slug, touched: bool, sources: Sources, prefixes: seq<string>)
    requires Respelled(page, slug, touched)
    ensures Stays(page, sources, prefixes)
  {
    hide FateOf, IndexWrites, Collected;
    TextIsKept(Meant(r), page, sources, prefixes);
  }

  lemma GcPageIsListed(r: Rules, page: Page, slug: Slug, touched: bool, sources: Sources, prefixes: seq<string>)
    requires Listed(page) && Stays(page, sources, prefixes)
    ensures Listed(GcPage(Meant(r), page, slug, touched, sources, prefixes)) && !Respelled(page, slug, touched)
  {
    hide Settled, IndexWrites, FateOf, GcWrites;
    ListedIsPlain(page);
    var writes := GcWrites(page, sources, prefixes);
    if writes != [] {
      SettledIsListed(writes[0]);
    }
    var p := Collected(Meant(r), page, sources, prefixes);
    var more := IndexWrites(p, slug);
    if more != [] {
      SettledIsListed(more[0]);
    }
  }

  lemma UntouchedIsKept(pages: map<Slug, Page>, slug: Slug, sources: Sources, prefixes: seq<string>)
    requires !GcTouches(pages, sources, prefixes) && slug in pages
    ensures FateOf(pages[slug], sources, prefixes) == Keep
  {
    hide FateOf;
  }

  lemma CollectedIsImported(r: Rules, page: Page, slug: Slug, sources: Sources, prefixes: seq<string>)
    requires Plain(page) && FateOf(page, sources, prefixes) != Remove
    ensures ImportedPage(Indexed(Meant(r), Collected(Meant(r), page, sources, prefixes), slug), sources)
  {
    hide KeyOf, Settled, FateOf, IndexSummary;
    var p := Collected(Meant(r), page, sources, prefixes);
    match FateOf(page, sources, prefixes) {
      case Keep => KeptIsImported(page, sources, prefixes);
      case Remove =>
      case Rewrite(items) =>
        RewriteIsKept(page, items, sources, prefixes);
        var written := GcWrites(page, sources, prefixes)[0];
        assert CitedIn(written.fields) == items && VisitedIn(written.fields) == items;
        SettledIsImported(written, sources);
        SettledIsListed(written);
        ListedIsPlain(p);
    }
    assert Plain(p) && ImportedPage(p, sources);
    var writes := IndexWrites(p, slug);
    if writes != [] {
      assert CitedIn(writes[0].fields) == Cited(p) && VisitedIn(writes[0].fields) == Cited(p);
      SettledIsImported(writes[0], sources);
    }
  }

  lemma RewriteIsKept(page: Page, items: seq<F.Item>, sources: Sources, prefixes: seq<string>)
    requires FateOf(page, sources, prefixes) == Rewrite(items)
    ensures page.Page? && forall item :: item in items ==> IsImported(sources, KeyOf(item))
  {
    hide KeyOf;
  }

  lemma SettledIsListed(d: Draft)
    ensures Listed(Settled(d))
  {
    hide FrontOf, Printed;
  }

  lemma KeptIsImported(page: Page, sources: Sources, prefixes: seq<string>)
    requires FateOf(page, sources, prefixes) == Keep
    ensures ImportedPage(page, sources)
  {
    hide KeyOf;
  }

  lemma SettledIsImported(d: Draft, sources: Sources)
    requires VisitedIn(d.fields) == CitedIn(d.fields)
    requires forall item :: item in CitedIn(d.fields) ==> IsImported(sources, KeyOf(item))
    ensures ImportedPage(Settled(d), sources)
  {
    hide Settled, KeyOf, VisitedIn, CitedIn;
    SettledCites(d);
    forall item | item in Cited(Settled(d)) ensures IsImported(sources, KeyOf(item)) {
      var i :| 0 <= i < |Cited(Settled(d))| && Cited(Settled(d))[i] == item;
      assert CitedIn(d.fields)[i] in CitedIn(d.fields);
    }
  }

  // ---------------------------------------------------------------- files and what is read of them

  ghost predicate AllAsRead(w: Wiki, json: F.JsonReader) {
    forall slug :: slug in w.pages ==> AsRead(w.pages[slug], json)
  }

  lemma RepairKeepsReading(r: Rules, w: Wiki, page: Page, slug: Slug, sources: Sources)
    requires AsRead(page, r.json)
    ensures AsRead(Indexed(Real(r), RepairPage(r, Real(r), Real(r).unlink(w, page), sources), slug), r.json)
  {
    hide Reread, IndexWrites, RepairWrites, DropDead, HasDead;
    TextStays(DropDead(page.text, target => r.resolves(w, target)), r.json);
    hide ReadPage;
  }

  /** Both passes leave pages that are what their files read as. */
  lemma PassesKeepReading(r: Rules, w: Wiki, sources: Sources, marked: Sources, prefixes: seq<string>)
    requires Sorts(r.order) && AllAsRead(w, r.json) && Gc(r, Real(r), w, sources, prefixes).Some?
    ensures var g := Gc(r, Real(r), w, sources, prefixes).value;
      && AllAsRead(g, r.json)
      && (Repair(r, Real(r), g, marked).Some? ==> AllAsRead(Repair(r, Real(r), g, marked).value, r.json))
  {
    hide Gc, ReadPage, Reread, IndexWrites, GcWrites, RepairPage, IndexText, RowsOf, FateOf, GcTouches, Unlinked;
    GcPages(r, Real(r), w, sources, prefixes);
    var g := Gc(r, Real(r), w, sources, prefixes).value;
    forall slug | slug in g.pages
      ensures AsRead(g.pages[slug], r.json)
      ensures AsRead(Indexed(Real(r), RepairPage(r, Real(r), Real(r).unlink(g, g.pages[slug]), marked), slug), r.json)
    {
      RepairKeepsReading(r, g, g.pages[slug], slug, marked);
    }
  }

  // ---------------------------------------------------------------- lint

  lemma MarkKeepsImported(sources: Sources, paths: set<DocPath>)
    ensures forall key :: IsImported(Ingest.MarkForRecompile(sources, paths), key) <==> IsImported(sources, key)
  {
  }

  /** The kinds of error that repair is there to prevent. */
  ghost predicate IsSourceError(e: LintError) {
    e.Unreadable? || e.NotImported? || e.HashDiffers?
  }

  lemma NoSourceErrors(r: Rules, w: Wiki, sources: Sources, e: LintError)
    requires IsSourceError(e) && forall slug :: slug in w.pages ==> GoodPage(w.pages[slug], sources)
    ensures !IsLintError(r, w, sources, e)
  {
    hide KeyOf, CitedIn, VisitedIn, RecordedHash;
    forall slug | slug in w.pages
      ensures !PageError(r, w, slug, sources, e)
    {
      assert GoodPage(w.pages[slug], sources);
      var items := Visited(w.pages[slug]);
      forall i | 0 <= i < |items|
        ensures !RefError(items[i], slug, sources, e)
      {
        assert items[i] in Cited(w.pages[slug]);
      }
    }
  }

  /** Repair as it is meant always returns, and every page it leaves is readable and good. */
  lemma MeantRepairReturns(r: Rules, g: Wiki, sources: Sources)
    requires SoundRules(r) && CitesImported(g, sources) && AllListed(g)
    ensures Repair(r, Meant(r), g, sources).Some?
    ensures forall slug :: slug in Repair(r, Meant(r), g, sources).value.pages ==>
              GoodPage(Repair(r, Meant(r), g, sources).value.pages[slug], sources)
  {
    hide RepairPage, Indexed, MeantUnlinked, GoodPage, IndexText, Cited, KeyOf, Listed;
    var v := Meant(r);
    var pages := RepairedPages(r, v, g, sources);
    forall slug | slug in g.pages
      ensures GoodPage(Indexed(v, pages[slug], slug), sources) && Indexed(v, pages[slug], slug).Page?
    {
      MeantPageIsGood(r, g, g.pages[slug], slug, sources);
    }
  }

  lemma MeantPageIsGood(r: Rules, g: Wiki, page: Page, slug: Slug, sources: Sources)
    requires SoundRules(r) && Listed(page) && ImportedPage(page, sources)
    ensures var p := RepairPage(r, Meant(r), Meant(r).unlink(g, page), sources);
            GoodPage(Indexed(Meant(r), p, slug), sources) && Indexed(Meant(r), p, slug).Page?
  {
    hide RepairPage, Indexed, SoundRules;
    var resolves := target => r.resolves(g, target);
    UnlinkKeepsImported(page, resolves, r.json, sources);
    var u := MeantUnlinked(page, resolves, r.json);
    MeantRepairIsGood(r, u, sources);
    IndexedIsGood(r, RepairPage(r, Meant(r), u, sources), slug, sources);
  }

  lemma UnlinkKeepsImported(page: Page, resolves: string -> bool, json: F.JsonReader, sources: Sources)
    requires Listed(page) && ImportedPage(page, sources)
    ensures Listed(MeantUnlinked(page, resolves, json)) && ImportedPage(MeantUnlinked(page, resolves, json), sources)
  {
    hide KeyOf, Unlinked, DropDead;
    if page.Page? {
      MeantKeepsSources(page, resolves, json);
      var u := MeantUnlinked(page, resolves, json);
      hide MeantUnlinked;
      forall item | item in Cited(u) ensures IsImported(sources, KeyOf(item)) {
        var i :| 0 <= i < |Cited(u)| && Cited(u)[i] == item;
        assert Cited(page)[i] in Cited(page);
      }
    }
  }

  /**
   * Repair discharges lint, where the files can carry it. The passes do file by file what they are
   * meant to do exactly when link dropping spares every file's sources and every header they mean
   * to write fits its lines. Then, if sources are lists, no page is unreadable or cites an
   * unrecorded source or a stale hash, and the index check passes exactly when the index lines can
   * carry the slug and summary every repaired page has before the rebuild.
   */
  lemma RepairDischargesLint(r: Rules, w: Wiki, sources: Sources, prefixes: seq<string>)
    requires SoundRules(r) && Gc(r, Meant(r), w, sources, prefixes).Some?
    ensures RunAsMeant(r, w, sources, prefixes) <==> RunFits(r, w, sources, prefixes)
    ensures RunFits(r, w, sources, prefixes) && AllListed(w) ==>
      var marked := Marked(w, sources, prefixes);
      && Gc(r, Real(r), w, sources, prefixes) == Gc(r, Meant(r), w, sources, prefixes)
      && var g := Gc(r, Real(r), w, sources, prefixes).value;
        && Repair(r, Real(r), g, marked).Some?
        && var w' := Repair(r, Real(r), g, marked).value;
          && (forall e :: IsSourceError(e) ==> !IsLintError(r, w', marked, e))
          && var before := g.(pages := RepairedPages(r, Real(r), g, marked));
            AllWillPrint(before) ==> ((forall e :: !IndexError(w', e)) <==> WillCarry(before))
  {
    hide Gc, Repair, GcFits, RepairFits, GoodPage, AllListed, RunAsMeant, IsLintError, IndexError, CitesImported;
    RunAsMeantIff(r, w, sources, prefixes);
    if RunFits(r, w, sources, prefixes) && AllListed(w) {
      var g, marked := Gc(r, Meant(r), w, sources, prefixes).value, Marked(w, sources, prefixes);
      FittingGcIsMeant(r, w, sources, prefixes);
      FittingRepairIsMeant(r, g, marked);
      MeantGcLeavesImported(r, w, sources, prefixes);
      MarkedImports(g, w, sources, prefixes);
      MeantRepairReturns(r, g, marked);
      var w' := Repair(r, Meant(r), g, marked).value;
      forall e | IsSourceError(e)
        ensures !IsLintError(r, w', marked, e)
      {
        NoSourceErrors(r, w', marked, e);
      }
      FittingPagesAreMeant(r, g, marked);
      RepairedIndexCleanIff(r, g, marked);
    }
  }

  lemma MarkedImports(g: Wiki, w: Wiki, sources: Sources, prefixes: seq<string>)
    requires CitesImported(g, sources)
    ensures CitesImported(g, Marked(w, sources, prefixes))
  {
    hide Recompile, KeyOf, Cited;
    MarkKeepsImported(sources, Recompile(w.pages, sources, prefixes));
  }

  lemma RepairedIndexCleanIff(r: Rules, g: Wiki, sources: Sources)
    requires SoundRules(r) && Repair(r, Meant(r), g, sources).Some?
    ensures var w', before := Repair(r, Meant(r), g, sources).value, g.(pages := RepairedPages(r, Meant(r), g, sources));
            AllWillPrint(before) ==> ((forall e :: !IndexError(w', e)) <==> WillCarry(before))
  {
    hide Rebuilt, IndexError, WillCarry, AllWillPrint;
    var before := g.(pages := RepairedPages(r, Meant(r), g, sources));
    if AllWillPrint(before) {
      MeantIndexCleanIff(r, before);
    }
  }

  /**
   * After orphan collection whose headers fit, every cited source is imported, exactly when no page whose sources
   * are a text was reprinted.
   */
  lemma GcLeavesImported(r: Rules, w: Wiki, sources: Sources, prefixes: seq<string>)
    requires Sorts(r.order) && F.ReadsTheRest(r.json) && Gc(r, Real(r), w, sources, prefixes).Some?
    requires forall slug :: slug in w.pages && Stays(w.pages[slug], sources, prefixes) ==>
               GcFits(r, w.pages[slug], slug, GcTouches(w.pages, sources, prefixes), sources, prefixes)
    ensures CitesImported(Gc(r, Real(r), w, sources, prefixes).value, sources) <==>
              forall slug :: slug in w.pages && Respelled(w.pages[slug], slug, GcTouches(w.pages, sources, prefixes)) ==>
                IsImported(sources, "undefined")
  {
    hide Gc, GcFits, CitesImported, AllListed, Respelled, GcTouches;
    FittingGcIsMeant(r, w, sources, prefixes);
    MeantGcLeavesImported(r, w, sources, prefixes);
  }

  /** A page that cited a restricted, no longer imported source is removed, and its text with it. */
  lemma GcDropsRestricted(r: Rules, w: Wiki, sources: Sources, prefixes: seq<string>, slug: Slug)
    requires Sorts(r.order) && Gc(r, Real(r), w, sources, prefixes).Some? && slug in w.pages && w.pages[slug].Page?
    requires CitesRestricted(Cited(w.pages[slug]), prefixes)
    requires exists item :: item in Cited(w.pages[slug]) && !IsImported(sources, KeyOf(item))
    ensures slug !in Gc(r, Real(r), w, sources, prefixes).value.pages
    ensures forall item ::
              item in Cited(w.pages[slug]) && IsImported(sources, KeyOf(item)) && !IsRestrictedPath(KeyOf(item), prefixes)
              ==> KeyOf(item) in Recompile(w.pages, sources, prefixes)
  {
    hide KeyOf, Cited, IsRestrictedPath, IndexText, Indexed, Collected;
    var page := w.pages[slug];
    var item :| item in Cited(page) && !IsImported(sources, KeyOf(item));
    assert item !in KeptItems(Cited(page), sources);
    assert FateOf(page, sources, prefixes) == Remove;
    forall other | other in Cited(page) && IsImported(sources, KeyOf(other)) && !IsRestrictedPath(KeyOf(other), prefixes)
      ensures KeyOf(other) in Recompile(w.pages, sources, prefixes)
    {
      assert other in KeptItems(Cited(page), sources);
      assert KeyOf(other) in RecompileOf(page, sources, prefixes);
    }
  }

  /** A wiki lint has nothing to say about cites only recorded sources, at their recorded hashes. */
  lemma LintMeansRecorded(r: Rules, w: Wiki, sources: Sources)
    requires forall e :: !IsLintError(r, w, sources, e)
    ensures Readable(w)
    ensures forall slug, item :: slug in w.pages && item in Visited(w.pages[slug]) ==>
      && IsImported(sources, KeyOf(item))
      && (Truthy(item, "sha256") && RecordedHash(sources, KeyOf(item)).Some? ==>
            item["sha256"] == F.Str(RecordedHash(sources, KeyOf(item)).value))
  {
    hide KeyOf, Visited, RecordedHash, IndexError, Truthy;
    forall slug | slug in w.pages
      ensures w.pages[slug].Page?
    {
      assert !IsLintError(r, w, sources, Unreadable(slug));
    }
    forall slug, item | slug in w.pages && item in Visited(w.pages[slug])
      ensures !RefError(item, slug, sources, NotImported(slug, KeyOf(item)))
      ensures !RefError(item, slug, sources, HashDiffers(slug, KeyOf(item)))
    {
      assert !IsLintError(r, w, sources, NotImported(slug, KeyOf(item)));
      assert !IsLintError(r, w, sources, HashDiffers(slug, KeyOf(item)));
      var i :| 0 <= i < |Visited(w.pages[slug])| && Visited(w.pages[slug])[i] == item;
    }
  }
}
