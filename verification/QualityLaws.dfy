/**
 * What orphan collection, repair and lint decide about a page (orphan-gc.js, repair.js, lint.js), told from the page,
 * the recorded entries and the limits alone.
 */
module QualityLaws {
  import opened Text
  import opened Whitespace
  import opened SourcePlan
  import opened WikiTree
  import opened WikiIndex
  import opened PageFile
  import opened Quality
  import Headings
  import opened TextLaws
  import opened QualityTheorems
  import F = Frontmatter

  // ---------------------------------------------------------------- orphan collection

  /** The cited source is recorded as imported. */
  ghost predicate Recorded(sources: Sources, item: F.Item) {
    KeyOf(item) in sources && sources[KeyOf(item)].imported
  }

  ghost predicate AllRecorded(page: Page, sources: Sources) {
    forall i :: 0 <= i < |Cited(page)| ==> Recorded(sources, Cited(page)[i])
  }

  ghost predicate NoneRecorded(page: Page, sources: Sources) {
    forall i :: 0 <= i < |Cited(page)| ==> !Recorded(sources, Cited(page)[i])
  }

  /** A cited path lies under a restricted prefix. */
  ghost predicate TouchesRestricted(page: Page, prefixes: seq<string>) {
    exists i :: 0 <= i < |Cited(page)| && PathOf(Cited(page)[i]) != "" && IsRestrictedPath(PathOf(Cited(page)[i]), prefixes)
  }

  lemma RestrictedCited(page: Page, prefixes: seq<string>)
    ensures CitesRestricted(Cited(page), prefixes) <==> TouchesRestricted(page, prefixes)
  {
    hide IsRestrictedPath, CitedIn, PathOf;
    var items := Cited(page);
    if i :| 0 <= i < |items| && PathOf(items[i]) != "" && IsRestrictedPath(PathOf(items[i]), prefixes) {
      assert items[i] in items;
    }
  }

  lemma KeptHead(items: seq<F.Item>, sources: Sources)
    requires items != []
    ensures KeptItems(items, sources) == (if Recorded(sources, items[0]) then [items[0]] else []) + KeptItems(items[1..], sources)
  {
    hide KeyOf;
  }

  /** What is kept of a list of sources: the recorded ones, in order. */
  lemma {:induction false} KeptInOrder(items: seq<F.Item>, last: F.Item, sources: Sources)
    ensures KeptItems([], sources) == []
    ensures KeptItems(items + [last], sources) == KeptItems(items, sources) + if Recorded(sources, last) then [last] else []
  {
    KeptNothing(sources);
    hide KeptItems, Recorded;
    KeptHead(items + [last], sources);
    if items == [] {
      assert (items + [last])[1..] == [];
    } else {
      KeptHead(items, sources);
      KeptInOrder(items[1..], last, sources);
      assert (items + [last])[1..] == items[1..] + [last];
    }
  }

  lemma KeptNothing(sources: Sources)
    ensures KeptItems([], sources) == []
  {
  }

  lemma {:induction false} KeptCounts(items: seq<F.Item>, sources: Sources)
    ensures |KeptItems(items, sources)| == |items| <==> forall i :: 0 <= i < |items| ==> Recorded(sources, items[i])
    ensures KeptItems(items, sources) == [] <==> forall i :: 0 <= i < |items| ==> !Recorded(sources, items[i])
  {
    hide KeyOf;
    if items != [] {
      KeptCounts(items[1..], sources);
      var rest := KeptItems(items[1..], sources);
      assert |rest| <= |items[1..]|;
      assert forall i :: 1 <= i < |items| ==> items[i] == items[1..][i - 1];
    }
  }

  /**
   * Orphan collection keeps a page it cannot read, and one whose cited sources are all recorded. Another one goes if
   * it cites a restricted path or no recorded source, and is rewritten with the recorded ones otherwise.
   */
  lemma FateIff(page: Page, sources: Sources, prefixes: seq<string>)
    ensures FateOf(page, sources, prefixes) == Keep <==> page.Broken? || AllRecorded(page, sources)
    ensures FateOf(page, sources, prefixes) == Remove <==>
              page.Page? && !AllRecorded(page, sources) && (TouchesRestricted(page, prefixes) || NoneRecorded(page, sources))
    ensures FateOf(page, sources, prefixes).Rewrite? ==>
              FateOf(page, sources, prefixes).items == KeptItems(Cited(page), sources)
  {
    hide Recorded, CitedIn, TouchesRestricted;
    KeptCounts(Cited(page), sources);
    RestrictedCited(page, prefixes);
  }

  /** What it writes of a page: the recorded sources, its mark and the schema version; all else stays. */
  lemma GcWritesMean(page: Page, sources: Sources, prefixes: seq<string>)
    ensures |GcWrites(page, sources, prefixes)| <= 1
    ensures GcWrites(page, sources, prefixes) != [] <==>
              page.Page? && !AllRecorded(page, sources) && !TouchesRestricted(page, prefixes) && !NoneRecorded(page, sources)
    ensures GcWrites(page, sources, prefixes) != [] ==>
              var d := GcWrites(page, sources, prefixes)[0];
              && d.body == page.body
              && d.fields == page.fields[
                   "sources" := F.Sources(KeptItems(Cited(page), sources))][
                   "managed_by" := F.Scalar(F.Str("llm-wiki"))][
                   "schema_version" := F.Scalar(F.Num(1))]
  {
    hide FateOf, KeptItems, TouchesRestricted, AllRecorded, NoneRecorded;
    FateIff(page, sources, prefixes);
  }

  /** Orphan collection does nothing, and rebuilds no index, exactly where every page it can read is all recorded. */
  lemma GcLeavesIff(r: Rules, v: Ways, w: Wiki, sources: Sources, prefixes: seq<string>)
    requires Sorts(r.order)
    ensures (forall slug :: slug in w.pages ==> w.pages[slug].Broken? || AllRecorded(w.pages[slug], sources)) ==>
              Gc(r, v, w, sources, prefixes) == Some(w)
    ensures !(forall slug :: slug in w.pages ==> w.pages[slug].Broken? || AllRecorded(w.pages[slug], sources)) ==>
              Gc(r, v, w, sources, prefixes) == Rebuilt(r, v, w.(pages := CollectedPages(v, w.pages, sources, prefixes)))
  {
    hide FateOf, AllRecorded, Rebuilt, CollectedPages;
    forall slug | slug in w.pages
      ensures FateOf(w.pages[slug], sources, prefixes) == Keep <==> w.pages[slug].Broken? || AllRecorded(w.pages[slug], sources)
    {
      FateIff(w.pages[slug], sources, prefixes);
    }
  }

  /** A source whose text must be compiled again: a page it shared with a restricted path is collected. */
  ghost predicate LosesPage(pages: map<Slug, Page>, sources: Sources, prefixes: seq<string>, path: DocPath) {
    && path in sources && sources[path].imported && !IsRestrictedPath(path, prefixes)
    && exists slug :: slug in pages && pages[slug].Page?
         && !AllRecorded(pages[slug], sources) && TouchesRestricted(pages[slug], prefixes)
         && exists i :: 0 <= i < |Cited(pages[slug])| && KeyOf(Cited(pages[slug])[i]) == path
  }

  lemma RecompileOfIff(page: Page, sources: Sources, prefixes: seq<string>, path: DocPath)
    ensures path in RecompileOf(page, sources, prefixes) <==>
      && path in sources && sources[path].imported && !IsRestrictedPath(path, prefixes)
      && page.Page? && !AllRecorded(page, sources) && TouchesRestricted(page, prefixes)
      && exists i :: 0 <= i < |Cited(page)| && KeyOf(Cited(page)[i]) == path
  {
    hide CitedIn, KeyOf, IsRestrictedPath, TouchesRestricted, AllRecorded, NoneRecorded;
    FateIff(page, sources, prefixes);
    RestrictedCited(page, prefixes);
    var items := Cited(page);
    if i :| 0 <= i < |items| && KeyOf(items[i]) == path {
      if path in sources && sources[path].imported {
        assert items[i] in items && items[i] in KeptItems(items, sources);
      }
    }
    if path in RecompileOf(page, sources, prefixes) {
      var item :| item in KeptItems(items, sources) && !IsRestrictedPath(KeyOf(item), prefixes) && KeyOf(item) == path;
      var i :| 0 <= i < |items| && items[i] == item;
    }
  }

  /** Exactly the recorded, unrestricted sources of the pages collected for a restricted path are compiled again. */
  lemma RecompileIff(pages: map<Slug, Page>, sources: Sources, prefixes: seq<string>, path: DocPath)
    ensures path in Recompile(pages, sources, prefixes) <==> LosesPage(pages, sources, prefixes, path)
  {
    hide RecompileOf, IsRestrictedPath, TouchesRestricted, AllRecorded, KeyOf;
    forall slug | slug in pages
      ensures path in RecompileOf(pages[slug], sources, prefixes) <==>
        && path in sources && sources[path].imported && !IsRestrictedPath(path, prefixes)
        && pages[slug].Page? && !AllRecorded(pages[slug], sources) && TouchesRestricted(pages[slug], prefixes)
        && exists i :: 0 <= i < |Cited(pages[slug])| && KeyOf(Cited(pages[slug])[i]) == path
    {
      RecompileOfIff(pages[slug], sources, prefixes, path);
    }
  }

  // ---------------------------------------------------------------- repair

  /** A recorded hash that a citation has to carry. */
  ghost predicate Hashed(sources: Sources, key: string, hash: Hash) {
    key in sources && sources[key].imported && sources[key].sha == Some(hash) && hash != ""
  }

  /** Every cited source with a recorded hash carries it. */
  ghost predicate HashesFit(items: seq<F.Item>, sources: Sources) {
    forall i, hash: Hash :: 0 <= i < |items| && Hashed(sources, KeyOf(items[i]), hash) ==>
      "sha256" in items[i] && items[i]["sha256"] == F.Str(hash)
  }

  /** The sources that are a list; repair does not touch others. */
  ghost function ListedItems(page: Page): seq<F.Item>
    requires page.Page?
  {
    if "sources" in page.fields && page.fields["sources"].Sources? then page.fields["sources"].items else []
  }

  lemma {:induction false} FixChangesIff(items: seq<F.Item>, sources: Sources)
    ensures FixItems(items, sources) == items <==> HashesFit(items, sources)
  {
    hide KeyOf, FixItems;
    FixItemsSize(items, sources);
    forall i | 0 <= i < |items|
      ensures IsFixed(items[i], FixItems(items, sources)[i], sources)
      ensures FixItems(items, sources)[i] == items[i] <==>
        forall hash: Hash :: Hashed(sources, KeyOf(items[i]), hash) ==> "sha256" in items[i] && items[i]["sha256"] == F.Str(hash)
    {
      FixItemsMeans(items, i, sources);
      FixedSame(items[i], FixItems(items, sources)[i], sources);
    }
  }

  lemma FixedSame(before: F.Item, after: F.Item, sources: Sources)
    requires IsFixed(before, after, sources)
    ensures after == before <==>
      forall hash: Hash :: Hashed(sources, KeyOf(before), hash) ==> "sha256" in before && before["sha256"] == F.Str(hash)
  {
    hide KeyOf;
    var recorded := RecordedHash(sources, KeyOf(before));
    assert forall hash: Hash :: Hashed(sources, KeyOf(before), hash) <==> recorded == Some(hash);
    if recorded.Some? {
      assert Hashed(sources, KeyOf(before), recorded.value);
      if "sha256" in before && before["sha256"] == F.Str(recorded.value) {
        assert forall key :: key in after <==> key in before;
        assert forall key :: key in after ==> after[key] == before[key];
      }
    }
  }

  /** The summary repair starts from: what the header shows of it, and nothing for a value that counts as false. */
  ghost predicate StartsFrom(fields: map<string, F.Field>, text: string) {
    if "summary" in fields && fields["summary"].Scalar?
       && fields["summary"].value != F.Bool(false) && fields["summary"].value != F.Num(0)
    then text == Shown(fields["summary"].value)
    else text == ""
  }

  lemma StartIs(fields: map<string, F.Field>)
    ensures StartsFrom(fields, SummaryText(fields))
  {
  }

  /** What repair makes of a page: a redacted summary and body, and sources that carry their recorded hashes. */
  lemma FixedMeans(r: Rules, page: Page, sources: Sources)
    requires page.Page?
    ensures var d := Fixed(r, page, sources);
      && d.body == r.redact(page.body)
      && d.fields["summary"] == F.Scalar(F.Str(r.redact(SummaryText(page.fields))))
      && (forall key :: key != "summary" && key != "sources" ==>
            (key in d.fields <==> key in page.fields) && (key in d.fields ==> d.fields[key] == page.fields[key]))
      && (if "sources" in page.fields && page.fields["sources"].Sources?
          then "sources" in d.fields && d.fields["sources"] == F.Sources(FixItems(page.fields["sources"].items, sources))
          else ("sources" in d.fields <==> "sources" in page.fields)
               && ("sources" in d.fields ==> d.fields["sources"] == page.fields["sources"]))
  {
    hide FixItems, SummaryText;
  }

  lemma FixedIsSameIff(r: Rules, page: Page, sources: Sources)
    requires page.Page?
    ensures Fixed(r, page, sources) == Draft(page.fields, page.body) <==>
      && "summary" in page.fields && page.fields["summary"] == F.Scalar(F.Str(r.redact(SummaryText(page.fields))))
      && page.body == r.redact(page.body) && HashesFit(ListedItems(page), sources)
  {
    hide FixItems, SummaryText, HashesFit;
    FixedMeans(r, page, sources);
    FixChangesIff(ListedItems(page), sources);
    var d, listed := Fixed(r, page, sources), "sources" in page.fields && page.fields["sources"].Sources?;
    hide Fixed;
    if d.fields == page.fields {
      assert listed ==> F.Sources(FixItems(ListedItems(page), sources)) == F.Sources(ListedItems(page));
      if !listed {
        NoItemsFit(sources);
      }
    }
    if HashesFit(ListedItems(page), sources) && "summary" in page.fields && page.fields["summary"] == d.fields["summary"] {
      assert "sources" in page.fields ==> d.fields["sources"] == page.fields["sources"];
      assert d.fields.Keys == page.fields.Keys;
      assert forall key :: key in d.fields ==> d.fields[key] == page.fields[key];
      assert d.fields == page.fields;
    }
  }

  lemma NoItemsFit(sources: Sources)
    ensures HashesFit([], sources)
  {
  }

  /**
   * Repair leaves a page's file alone exactly when it can be read, its summary is a redacted text, its body is
   * redacted, its listed sources carry the recorded hashes, and the file is within the limit.
   */
  lemma RepairLeavesIff(r: Rules, v: Ways, page: Page, sources: Sources)
    ensures RepairWrites(r, v, page, sources) == [] <==>
      && page.Page?
      && "summary" in page.fields && page.fields["summary"] == F.Scalar(F.Str(r.redact(SummaryText(page.fields))))
      && page.body == r.redact(page.body)
      && HashesFit(ListedItems(page), sources)
      && r.size(page.text) <= r.maxBytes
  {
    hide Fixed, SummaryText, HashesFit, Printed, EndLine;
    if page.Page? {
      FixedIsSameIff(r, page, sources);
    }
  }

  /** Where normalising keeps to the limit, so does every page repair leaves, before the index is rebuilt. */
  lemma RepairedWithin(r: Rules, page: Page, sources: Sources)
    requires forall p: Page {:trigger r.normalise(p)} :: r.size(Printed(r.normalise(p))) <= r.maxBytes
    ensures r.size(RepairPage(r, Real(r), page, sources).text) <= r.maxBytes
  {
    hide Printed, Fixed, ReadPage, EndLine;
    var writes := RepairWrites(r, Real(r), page, sources);
    if writes != [] {
      TextStays(Printed(writes[|writes| - 1]), r.json);
      var next := writes[0];
      assert |writes| == 2 ==> writes[1] == r.normalise(Real(r).save(next));
    }
  }

  /** The body repair prints ends with a line feed and is otherwise the redacted one. */
  lemma EndLineMeans(body: string)
    ensures EndsWith(EndLine(body), "\n") && (EndLine(body) == body || EndLine(body) == body + "\n")
    ensures EndsWith(body, "\n") ==> EndLine(body) == body
  {
  }

  // ---------------------------------------------------------------- lint

  /** A citation lint has nothing to say about. */
  ghost predicate CleanItem(item: F.Item, sources: Sources) {
    && KeyOf(item) in sources && sources[KeyOf(item)].imported
    && forall hash: Hash :: Hashed(sources, KeyOf(item), hash) && "sha256" in item
         && item["sha256"] != F.Bool(false) && item["sha256"] != F.Num(0) && item["sha256"] != F.Str("")
         ==> item["sha256"] == F.Str(hash)
  }

  /** The page can be read, keeps to the limit, has no dead link, and every source it cites is clean. */
  ghost predicate CleanPage(r: Rules, w: Wiki, page: Page, sources: Sources) {
    && page.Page? && r.size(page.text) <= r.maxBytes && r.deadLinks(w, page) == {}
    && forall i :: 0 <= i < |Visited(page)| ==> CleanItem(Visited(page)[i], sources)
  }

  /** There is an index; it names every page, once, and nothing else. */
  ghost predicate CleanIndex(w: Wiki) {
    w.index.Some?
    && var entries := IndexEntries(w.index.value);
       && (forall i, j :: 0 <= i < j < |entries| ==> entries[i].slug != entries[j].slug)
       && (forall i :: 0 <= i < |entries| ==> entries[i].slug in w.pages)
       && (forall slug :: slug in w.pages ==> exists i :: 0 <= i < |entries| && entries[i].slug == slug)
  }

  lemma ItemCleanIff(item: F.Item, slug: Slug, sources: Sources)
    ensures (forall e :: !RefError(item, slug, sources, e)) <==> CleanItem(item, sources)
  {
    hide KeyOf;
    var recorded := RecordedHash(sources, KeyOf(item));
    assert forall hash: Hash :: Hashed(sources, KeyOf(item), hash) <==> recorded == Some(hash);
    if !IsImported(sources, KeyOf(item)) {
      assert RefError(item, slug, sources, NotImported(slug, KeyOf(item)));
    } else if Truthy(item, "sha256") && recorded.Some? && item["sha256"] != F.Str(recorded.value) {
      assert RefError(item, slug, sources, HashDiffers(slug, KeyOf(item)));
      assert Hashed(sources, KeyOf(item), recorded.value);
    }
  }

  lemma PageCleanIff(r: Rules, w: Wiki, slug: Slug, sources: Sources)
    requires slug in w.pages
    ensures (forall e :: !PageError(r, w, slug, sources, e)) <==> CleanPage(r, w, w.pages[slug], sources)
  {
    hide RefError, CleanItem, VisitedIn;
    var page := w.pages[slug];
    if page.Broken? {
      assert PageError(r, w, slug, sources, Unreadable(slug));
    } else {
      forall i | 0 <= i < |Visited(page)|
        ensures (forall e :: !RefError(Visited(page)[i], slug, sources, e)) <==> CleanItem(Visited(page)[i], sources)
      {
        ItemCleanIff(Visited(page)[i], slug, sources);
      }
      if i, e :| 0 <= i < |Visited(page)| && RefError(Visited(page)[i], slug, sources, e) {
        assert PageError(r, w, slug, sources, e);
      }
      if r.size(page.text) > r.maxBytes {
        assert PageError(r, w, slug, sources, TooLong(slug));
      }
      if r.deadLinks(w, page) != {} {
        var target :| target in r.deadLinks(w, page);
        assert PageError(r, w, slug, sources, DeadLink(slug, target));
      }
    }
  }

  lemma IndexCleanIff(w: Wiki)
    ensures (forall e :: !IndexError(w, e)) <==> CleanIndex(w)
  {
    hide IndexEntries;
    if w.index.None? {
      assert IndexError(w, IndexAbsent);
    } else {
      var entries := IndexEntries(w.index.value);
      if i, j :| 0 <= i < j < |entries| && entries[i].slug == entries[j].slug {
        assert IndexError(w, IndexRepeats(entries[i].slug));
      }
      if i :| 0 <= i < |entries| && entries[i].slug !in w.pages {
        assert IndexError(w, IndexPointsNowhere(entries[i].slug));
      }
      if slug :| slug in w.pages && !exists i :: 0 <= i < |entries| && entries[i].slug == slug {
        assert IndexError(w, IndexMisses(slug));
      }
    }
  }

  /** Lint reports nothing exactly when every page and the index are clean. */
  lemma LintCleanIff(r: Rules, w: Wiki, sources: Sources)
    ensures (forall e :: !IsLintError(r, w, sources, e)) <==>
      (forall slug :: slug in w.pages ==> CleanPage(r, w, w.pages[slug], sources)) && CleanIndex(w)
  {
    hide IndexError, PageError, CleanPage, CleanIndex;
    IndexCleanIff(w);
    forall slug | slug in w.pages
      ensures (forall e :: !PageError(r, w, slug, sources, e)) <==> CleanPage(r, w, w.pages[slug], sources)
    {
      PageCleanIff(r, w, slug, sources);
    }
    if slug, e :| slug in w.pages && PageError(r, w, slug, sources, e) {
      assert IsLintError(r, w, sources, e);
    }
    if e :| IndexError(w, e) {
      assert IsLintError(r, w, sources, e);
    }
  }

  // ---------------------------------------------------------------- what the index says of a page

  const TYPES: seq<string> := ["policy", "process", "role", "term", "faq", "training", "source-summary"]
  const SECTIONS: seq<string> :=
    ["\U{5236}\U{5EA6}", "\U{6D41}\U{7A0B}", "\U{5C97}\U{4F4D}", "\U{672F}\U{8BED}", "FAQ", "\U{57F9}\U{8BAD}",
     "\U{6458}\U{8981}"]
  const OTHERS: string := "\U{5176}\U{4ED6}"

  /** The section of a page: that of its type, or the type's own text, trimmed, or the one for everything else. */
  lemma SectionMeans(fields: map<string, F.Field>, kind: string)
    ensures forall i :: 0 <= i < |TYPES| && "type" in fields && fields["type"] == F.Scalar(F.Str(TYPES[i])) ==>
              SectionOf(fields) == SECTIONS[i]
    ensures "type" in fields && fields["type"] == F.Scalar(F.Str(kind)) && kind !in TYPES ==>
              SectionOf(fields) == if Trim(kind) == "" then OTHERS else Trim(kind)
    ensures "type" !in fields ==> SectionOf(fields) == OTHERS
  {
    KnownIff(kind);
    forall i | 0 <= i < |TYPES| ensures KnownSection(TYPES[i]) == SECTIONS[i] {}
    hide KnownSection, Trim;
  }

  lemma KnownIff(kind: string)
    ensures KnownSection(kind) != "" <==> kind in TYPES
  {
    assert TYPES[0] == "policy" && TYPES[1] == "process" && TYPES[2] == "role" && TYPES[3] == "term";
    assert TYPES[4] == "faq" && TYPES[5] == "training" && TYPES[6] == "source-summary";
  }

  /** The summary the index shows: the header's, if a text, a number or a truth value shows there, or else the heading. */
  lemma SummaryMeans(page: Page, slug: Slug, v: F.Value)
    requires page.Page?
    ensures "summary" in page.fields && page.fields["summary"] == F.Scalar(v) && (v.Str? || v.Num? || v.Bool?)
              && Trim(Shown(v)) != "" ==>
            IndexSummary(page, slug) == Trim(Shown(v))
    ensures "summary" !in page.fields
              || (page.fields["summary"] == F.Scalar(v) && (v.Arr? || v.Other? || Trim(Shown(v)) == "")) ==>
            IndexSummary(page, slug) == match Headings.Heading(page.body) case Some(h) => h case None => slug
  {
    hide Trim, Shown, Headings.Heading;
  }

  predicate Gap(c: char) {
    IsSpace(c) || c == '[' || c == ']' || c == '|'
  }

  predicate Gaps(s: string) {
    forall c :: c in s ==> Gap(c)
  }

  /** Words with single spaces between them. */
  predicate Clean(s: string) {
    && (forall i :: 0 <= i < |s| && Gap(s[i]) ==> s[i] == ' ' && 0 < i < |s| - 1 && !Gap(s[i - 1]))
  }

  lemma {:induction false} SoftenedSkips(gaps: string, b: string)
    requires Gaps(gaps)
    ensures Softened(gaps + b, true) == Softened(b, true)
  {
    if gaps == "" {
      assert gaps + b == b;
    } else {
      assert (gaps + b)[0] == gaps[0] && gaps[0] in gaps && (gaps + b)[1..] == gaps[1..] + b;
      SoftenedSkips(gaps[1..], b);
      assert "" + Softened(gaps[1..] + b, true) == Softened(gaps[1..] + b, true);
    }
  }

  lemma {:induction false} SoftenedOnce(a: string, gaps: string, b: string, gap: bool)
    requires gaps != "" && Gaps(gaps)
    ensures Softened(a + (gaps + b), gap) == Softened(a + (" " + b), gap)
  {
    if a == "" {
      assert (gaps + b)[0] == gaps[0] && gaps[0] in gaps && (gaps + b)[1..] == gaps[1..] + b;
      assert (" " + b)[0] == ' ' && (" " + b)[1..] == b;
      SoftenedSkips(gaps[1..], b);
      assert a + (gaps + b) == gaps + b && a + (" " + b) == " " + b;
    } else {
      assert (a + (gaps + b))[1..] == a[1..] + (gaps + b) && (a + (" " + b))[1..] == a[1..] + (" " + b);
      SoftenedOnce(a[1..], gaps, b, true);
      SoftenedOnce(a[1..], gaps, b, false);
    }
  }

  lemma {:induction false} SoftenedClean(s: string, gap: bool)
    requires forall i :: 0 <= i < |s| && Gap(s[i]) ==> s[i] == ' ' && (i > 0 ==> !Gap(s[i - 1]))
    requires s != "" && Gap(s[0]) ==> !gap
    ensures Softened(s, gap) == s
  {
    if s != "" {
      SoftenedClean(s[1..], Gap(s[0]));
      assert s == [s[0]] + s[1..];
      if Gap(s[0]) {
        assert [s[0]] == " ";
      }
    }
  }

  /** A run of white space, brackets and bars counts as one space in a title. */
  lemma AliasOnce(a: string, gaps: string, b: string)
    requires gaps != "" && Gaps(gaps)
    ensures IndexAlias(a + (gaps + b)) == IndexAlias(a + (" " + b))
  {
    hide Trim, Softened;
    SoftenedOnce(a, gaps, b, false);
  }

  /** Words with single spaces between them, and spaces around them or not, are the title; no word at all is `page`. */
  lemma AliasMeans(s: string, a: string, b: string)
    requires Clean(s) && a in {"", " "} && b in {"", " "}
    ensures IndexAlias(a + s + b) == if s == "" then "page" else s
  {
    if s == "" {
      NoWord();
      assert a + s + b == "" || a + s + b == " " || a + s + b == "  ";
    } else {
      WordsStay(s, a, b);
    }
  }

  lemma WordsStay(s: string, a: string, b: string)
    requires Clean(s) && s != "" && a in {"", " "} && b in {"", " "}
    ensures IndexAlias(a + s + b) == s
  {
    var padded := a + s + b;
    assert !Gap(s[0]) && !Gap(s[|s| - 1]);
    forall i | 0 <= i < |padded| && Gap(padded[i])
      ensures padded[i] == ' ' && (i > 0 ==> !Gap(padded[i - 1]))
    {
      if |a| <= i < |a| + |s| {
        assert padded[i] == s[i - |a|];
        assert i > |a| && padded[i - 1] == s[i - |a| - 1];
      } else if i >= |a| + |s| {
        assert padded[i - 1] == s[|s| - 1];
      }
    }
    SoftenedClean(padded, false);
    hide Softened;
    TrimOf(a, s, b);
  }

  lemma NoWord()
    ensures IndexAlias("") == "page" && IndexAlias(" ") == "page" && IndexAlias("  ") == "page"
  {
    assert "  "[1..] == " " && " "[1..] == "" && " "[..0] == "";
    assert Softened("  ", false) == " " + Softened(" ", true) == " ";
  }
}
