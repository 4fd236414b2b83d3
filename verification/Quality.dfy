/**
 * The passes between compiling and publishing, on values: orphan collection (orphan-gc.js),
 * repair (repair.js), the index rebuild (validator.js) and lint (lint.js).
 */
module Quality {
  import opened Text
  import opened Whitespace
  import opened SourcePlan
  import opened WikiTree
  import opened WikiIndex
  import opened Headings
  import opened PageFile
  import F = Frontmatter

  /**
   * Text passes that are not modelled here: redaction, which links lead somewhere,
   * what `normalizeCompiledPage` hands to the printer, the size of a text and dead links; and the rest of JSON.
   */
  datatype Rules = Rules(
    redact: string -> string, resolves: (Wiki, string) -> bool,
    normalise: Page -> Draft, size: string -> nat, maxBytes: nat, deadLinks: (Wiki, Page) -> set<string>, order: Order,
    json: F.JsonReader)

  /** Normalising gives a page that cites what its file cited, in a list, and nothing if the file was unreadable. */
  ghost predicate SoundRules(r: Rules) {
    && Sorts(r.order)
    && F.ReadsTheRest(r.json)
    && (forall p: Page {:trigger r.normalise(p)} ::
          var fields := r.normalise(p).fields;
          VisitedIn(fields) == CitedIn(fields) && SameCited(CitedIn(fields), Cited(p)))
  }

  /** How a file is read again after it was written, and what dropping links makes of it. */
  datatype Ways = Ways(save: Draft -> Page, unlink: (Wiki, Page) -> Page)

  /** As the code does it: through the printed text. */
  function Real(r: Rules): Ways {
    Ways((d: Draft) => Reread(d, r.json), (w: Wiki, p: Page) => Unlinked(p, target => r.resolves(w, target), r.json))
  }

  /** As it is meant: nothing is lost in printing, and link dropping leaves the cited sources alone. */
  function Meant(r: Rules): Ways {
    Ways((d: Draft) => Settled(d), (w: Wiki, p: Page) => MeantUnlinked(p, target => r.resolves(w, target), r.json))
  }

  // ---------------------------------------------------------------- rebuilding the index

  /** `SECTION_BY_TYPE`. */
  function KnownSection(kind: string): (s: string)
    ensures '\n' !in s
  {
    if kind == "policy" then "\U{5236}\U{5EA6}"
    else if kind == "process" then "\U{6D41}\U{7A0B}"
    else if kind == "role" then "\U{5C97}\U{4F4D}"
    else if kind == "term" then "\U{672F}\U{8BED}"
    else if kind == "faq" then "FAQ"
    else if kind == "training" then "\U{57F9}\U{8BAD}"
    else if kind == "source-summary" then "\U{6458}\U{8981}"
    else ""
  }

  /** The type is looked up by the text it shows; one that is no text has no section of its own. */
  function SectionOf(fields: map<string, F.Field>): string {
    if "type" !in fields || !fields["type"].Scalar? then "\U{5176}\U{4ED6}"
    else
      var kind := fields["type"].value;
      if KnownSection(Shown(kind)) != "" then KnownSection(Shown(kind))
      else if kind.Str? && Trim(kind.s) != "" then Trim(kind.s)
      else "\U{5176}\U{4ED6}"
  }

  function Display(body: string, slug: Slug): string {
    match Heading(body)
    case Some(h) => h
    case None => slug
  }

  /** `scalarSummary`. */
  function ScalarSummary(fields: map<string, F.Field>): string {
    if "summary" !in fields || !fields["summary"].Scalar? then ""
    else
      match fields["summary"].value
      case Arr(_) => ""
      case Other(_) => ""
      case v => Trim(Shown(v))
  }

  function IndexSummary(page: Page, slug: Slug): string
    requires page.Page?
  {
    if ScalarSummary(page.fields) != "" then ScalarSummary(page.fields) else Display(page.body, slug)
  }

  /** Brackets and bars become spaces and runs of white space one space. */
  function Softened(s: string, gap: bool): string {
    if s == "" then ""
    else if IsSpace(s[0]) || s[0] == '[' || s[0] == ']' || s[0] == '|'
    then (if gap then "" else " ") + Softened(s[1..], true)
    else [s[0]] + Softened(s[1..], false)
  }

  /** `indexAlias`. */
  function IndexAlias(display: string): string {
    var cleaned := Trim(Softened(display, false));
    if cleaned == "" then "page" else cleaned
  }

  /** Any heading gives a title the index line can carry. */
  lemma AliasFits(display: string)
    ensures TitleFits(IndexAlias(display))
  {
    SoftenedFits(display, false);
    TrimTrims(Softened(display, false));
  }

  lemma {:induction false} SoftenedFits(s: string, gap: bool)
    ensures ']' !in Softened(s, gap) && '\n' !in Softened(s, gap)
  {
    if s != "" {
      SoftenedFits(s[1..], true);
      SoftenedFits(s[1..], false);
    }
  }

  function WithField(fields: map<string, F.Field>, key: string, v: F.Value): (r: map<string, F.Field>)
    ensures key != "sources" ==> CitedIn(r) == CitedIn(fields) && VisitedIn(r) == VisitedIn(fields)
  {
    fields[key := F.Scalar(v)]
  }

  /** What `rebuildIndex` writes of a page: its summary, if that is not the one the index shows. */
  function IndexWrites(page: Page, slug: Slug): seq<Draft> {
    if page.Broken? then []
    else
      var summary := F.Str(IndexSummary(page, slug));
      if "summary" in page.fields && page.fields["summary"] == F.Scalar(summary) then []
      else [Draft(WithField(page.fields, "summary", summary), page.body)]
  }

  /** The page after the index was rebuilt. */
  function Indexed(v: Ways, page: Page, slug: Slug): Page {
    var writes := IndexWrites(page, slug);
    if writes == [] then page else v.save(writes[0])
  }

  function RowOf(page: Page, slug: Slug): Row
    requires page.Page?
  {
    Row(SectionOf(page.fields), IndexAlias(Display(page.body, slug)), IndexSummary(page, slug))
  }

  ghost predicate Readable(w: Wiki) {
    forall slug :: slug in w.pages ==> w.pages[slug].Page?
  }

  function RowsOf(pages: map<Slug, Page>): map<Slug, Row>
    requires forall slug :: slug in pages ==> pages[slug].Page?
  {
    map slug | slug in pages :: RowOf(pages[slug], slug)
  }

  function IndexedPages(v: Ways, pages: map<Slug, Page>): map<Slug, Page> {
    map slug | slug in pages :: Indexed(v, pages[slug], slug)
  }

  /** `rebuildIndex`: summaries are written back, then the index; None when a page is unreadable, before or after. */
  function Rebuilt(r: Rules, v: Ways, w: Wiki): Option<Wiki>
    requires Sorts(r.order)
  {
    var pages := IndexedPages(v, w.pages);
    if exists slug :: slug in pages && pages[slug].Broken? then None
    else
      assert forall slug :: slug in pages ==> pages[slug].Page?;
      Some(w.(pages := pages, index := Some(IndexText(r.order, RowsOf(pages)))))
  }

  // ---------------------------------------------------------------- orphan collection

  predicate IsImported(sources: Sources, key: string) {
    key in sources && sources[key].imported
  }

  function KeptItems(items: seq<F.Item>, sources: Sources): (r: seq<F.Item>)
    ensures forall item :: item in r <==> item in items && IsImported(sources, KeyOf(item))
    ensures |r| <= |items|
    ensures |r| == |items| ==> r == items
  {
    if items == [] then []
    else (if IsImported(sources, KeyOf(items[0])) then [items[0]] else []) + KeptItems(items[1..], sources)
  }

  predicate CitesRestricted(items: seq<F.Item>, prefixes: seq<string>) {
    exists item :: item in items && PathOf(item) != "" && IsRestrictedPath(PathOf(item), prefixes)
  }

  datatype Fate = Keep | Remove | Rewrite(items: seq<F.Item>)

  /** What `gcOrphanPages` does with one page. */
  function FateOf(page: Page, sources: Sources, prefixes: seq<string>): Fate {
    if page.Broken? then Keep
    else
      var kept := KeptItems(Cited(page), sources);
      if |kept| == |Cited(page)| then Keep
      else if CitesRestricted(Cited(page), prefixes) || kept == [] then Remove
      else Rewrite(kept)
  }

  /** The sources to compile again because a page they shared with a restricted one went. */
  function RecompileOf(page: Page, sources: Sources, prefixes: seq<string>): set<DocPath> {
    if page.Page? && FateOf(page, sources, prefixes).Remove? && CitesRestricted(Cited(page), prefixes)
    then set item | item in KeptItems(Cited(page), sources) && !IsRestrictedPath(KeyOf(item), prefixes) :: KeyOf(item)
    else {}
  }

  /** What `gcOrphanPages` writes of one page. */
  function GcWrites(page: Page, sources: Sources, prefixes: seq<string>): seq<Draft> {
    match FateOf(page, sources, prefixes)
    case Rewrite(items) =>
      if page.Broken? then []
      else
        var fields := WithField(WithCited(page.fields, items), "managed_by", F.Str("llm-wiki"));
        [Draft(WithField(fields, "schema_version", F.Num(1)), page.body)]
    case _ => []
  }

  function Collected(v: Ways, page: Page, sources: Sources, prefixes: seq<string>): Page {
    var writes := GcWrites(page, sources, prefixes);
    if writes == [] then page else v.save(writes[0])
  }

  function CollectedPages(v: Ways, pages: map<Slug, Page>, sources: Sources, prefixes: seq<string>): map<Slug, Page> {
    map slug | slug in pages && FateOf(pages[slug], sources, prefixes) != Remove ::
      Collected(v, pages[slug], sources, prefixes)
  }

  function Recompile(pages: map<Slug, Page>, sources: Sources, prefixes: seq<string>): set<DocPath> {
    set slug, path | slug in pages && path in RecompileOf(pages[slug], sources, prefixes) :: path
  }

  predicate GcTouches(pages: map<Slug, Page>, sources: Sources, prefixes: seq<string>) {
    exists slug :: slug in pages && FateOf(pages[slug], sources, prefixes) != Keep
  }

  /** `gcOrphanPages`: the index is rebuilt only if a page went or changed. */
  function Gc(r: Rules, v: Ways, w: Wiki, sources: Sources, prefixes: seq<string>): Option<Wiki>
    requires Sorts(r.order)
  {
    if GcTouches(w.pages, sources, prefixes)
    then Rebuilt(r, v, w.(pages := CollectedPages(v, w.pages, sources, prefixes)))
    else Some(w)
  }

  // ---------------------------------------------------------------- repair

  /** The hash recorded for a cited source, if it is imported and has one. */
  function RecordedHash(sources: Sources, key: string): Option<Hash> {
    if IsImported(sources, key) && sources[key].sha.Some? && sources[key].sha.value != "" then sources[key].sha else None
  }

  function FixItem(item: F.Item, sources: Sources): F.Item {
    var hash := RecordedHash(sources, KeyOf(item));
    if hash.Some? then item["sha256" := F.Str(hash.value)] else item
  }

  /** Recorded hashes replace the cited ones. */
  function FixItems(items: seq<F.Item>, sources: Sources): seq<F.Item> {
    if items == [] then [] else [FixItem(items[0], sources)] + FixItems(items[1..], sources)
  }

  /** The fields with recorded hashes; only the sources of a proper list can be changed. */
  function FixCited(fields: map<string, F.Field>, sources: Sources): map<string, F.Field> {
    if "sources" in fields && fields["sources"].Sources?
    then WithCited(fields, FixItems(fields["sources"].items, sources))
    else fields
  }

  function EndLine(body: string): string {
    if EndsWith(body, "\n") then body else body + "\n"
  }

  /** The argument of the redaction: a summary that counts as nothing is the empty text. */
  function SummaryText(fields: map<string, F.Field>): string {
    if "summary" !in fields || !fields["summary"].Scalar? || Falsy(fields["summary"].value) then ""
    else Shown(fields["summary"].value)
  }

  function Fixed(r: Rules, page: Page, sources: Sources): Draft
    requires page.Page?
  {
    Draft(WithField(FixCited(page.fields, sources), "summary", F.Str(r.redact(SummaryText(page.fields)))), r.redact(page.body))
  }

  /** What `repairWiki` prints of one page, in order. A printed page that is too long is read again to be cut. */
  function RepairWrites(r: Rules, v: Ways, page: Page, sources: Sources): seq<Draft> {
    if page.Broken? then [r.normalise(page)]
    else
      var fixed := Fixed(r, page, sources);
      if fixed == Draft(page.fields, page.body)
      then (if r.size(page.text) <= r.maxBytes then [] else [r.normalise(page)])
      else
        var next := fixed.(body := EndLine(fixed.body));
        if r.size(Printed(next)) > r.maxBytes then [next, r.normalise(v.save(next))] else [next]
  }

  function RepairPage(r: Rules, v: Ways, page: Page, sources: Sources): Page {
    var writes := RepairWrites(r, v, page, sources);
    if writes == [] then page else v.save(writes[|writes| - 1])
  }

  function RepairedPages(r: Rules, v: Ways, w: Wiki, sources: Sources): map<Slug, Page> {
    map slug | slug in w.pages :: RepairPage(r, v, v.unlink(w, w.pages[slug]), sources)
  }

  function Repair(r: Rules, v: Ways, w: Wiki, sources: Sources): Option<Wiki>
    requires Sorts(r.order)
  {
    Rebuilt(r, v, w.(pages := RepairedPages(r, v, w, sources)))
  }

  // ---------------------------------------------------------------- lint

  datatype LintError =
    | Unreadable(slug: Slug)
    | TooLong(slug: Slug)
    | NotImported(slug: Slug, path: DocPath)
    | HashDiffers(slug: Slug, path: DocPath)
    | DeadLink(slug: Slug, target: string)
    | IndexAbsent
    | IndexRepeats(slug: Slug)
    | IndexPointsNowhere(slug: Slug)
    | IndexMisses(slug: Slug)

  predicate Truthy(item: F.Item, key: string) {
    key in item && !Falsy(item[key])
  }

  ghost predicate RefError(item: F.Item, slug: Slug, sources: Sources, e: LintError) {
    if !IsImported(sources, KeyOf(item)) then e == NotImported(slug, KeyOf(item))
    else
      && Truthy(item, "sha256") && RecordedHash(sources, KeyOf(item)).Some?
      && item["sha256"] != F.Str(RecordedHash(sources, KeyOf(item)).value)
      && e == HashDiffers(slug, KeyOf(item))
  }

  /** The errors of one page. */
  ghost predicate PageError(r: Rules, w: Wiki, slug: Slug, sources: Sources, e: LintError)
    requires slug in w.pages
  {
    var page := w.pages[slug];
    if page.Broken? then e == Unreadable(slug)
    else
      || (e == TooLong(slug) && r.size(page.text) > r.maxBytes)
      || (exists i :: 0 <= i < |Visited(page)| && RefError(Visited(page)[i], slug, sources, e))
      || (exists target :: target in r.deadLinks(w, page) && e == DeadLink(slug, target))
  }

  ghost predicate IndexError(w: Wiki, e: LintError) {
    if w.index.None? then e == IndexAbsent
    else
      var entries := IndexEntries(w.index.value);
      || (e.IndexRepeats? && exists i, j :: 0 <= i < j < |entries| && entries[i].slug == entries[j].slug == e.slug)
      || (e.IndexPointsNowhere? && e.slug !in w.pages && exists i :: 0 <= i < |entries| && entries[i].slug == e.slug)
      || (e.IndexMisses? && e.slug in w.pages && forall i :: 0 <= i < |entries| ==> entries[i].slug != e.slug)
  }

  /** What `lintBatch` must report. */
  ghost predicate IsLintError(r: Rules, w: Wiki, sources: Sources, e: LintError) {
    IndexError(w, e) || exists slug :: slug in w.pages && PageError(r, w, slug, sources, e)
  }
}
