/**
 * A page and its file: what `serializeFrontmatter` prints of the fields the parser returned (frontmatter.js),
 * what reading that file gives, and what it was meant to give; and the passes that rewrite a page's file.
 */
module PageFile {
  import opened Text
  import opened SourcePlan
  import opened WikiTree
  import opened Links
  import F = Frontmatter
  import T = FrontmatterTheorems
  import R = FrontmatterRoundTrip
  import Json

  // ---------------------------------------------------------------- printing values

  /** The text of a value in a template. */
  function Shown(v: F.Value): string {
    match v
    case Bool(b) => if b then "true" else "false"
    case Num(n) => F.IntText(n)
    case Str(s) => s
    case Arr(items) => Join(seq(|items|, i requires 0 <= i < |items| => Shown(items[i])), ",")
    case Other(text) => text
  }

  function TextOf(fields: map<string, F.Field>, key: string): string {
    if key in fields && fields[key].Scalar? then Shown(fields[key].value) else "undefined"
  }

  function ItemText(item: F.Item, key: string): string {
    if key in item then Shown(item[key]) else "undefined"
  }

  /** The key under which a cited source is looked up. */
  function KeyOf(item: F.Item): string {
    ItemText(item, "path")
  }

  predicate Falsy(v: F.Value) {
    v == F.Bool(false) || v == F.Num(0) || v == F.Str("")
  }

  function LocatorsOf(item: F.Item): seq<string> {
    if "locators" !in item || Falsy(item["locators"]) then []
    else
      match item["locators"]
      case Arr(values) => seq(|values|, i requires 0 <= i < |values| => Shown(values[i]))
      case v => [Shown(v)]
  }

  function SourceOf(item: F.Item): F.Source {
    F.Source(KeyOf(item), ItemText(item, "sha256"), LocatorsOf(item))
  }

  function SourcesOf(items: seq<F.Item>): (r: seq<F.Source>)
    ensures |r| == |items| && forall i :: 0 <= i < |r| ==> r[i] == SourceOf(items[i])
  {
    if items == [] then [] else [SourceOf(items[0])] + SourcesOf(items[1..])
  }

  /** What a loop over `sources` visits: the cited sources, or the letters of a text, which cite nothing. */
  function VisitedIn(fields: map<string, F.Field>): seq<F.Item> {
    if "sources" in fields && fields["sources"].Scalar? && fields["sources"].value.Str?
    then seq(|fields["sources"].value.s|, _ => map[])
    else CitedIn(fields)
  }

  function Visited(page: Page): seq<F.Item>
    requires page.Page?
  {
    VisitedIn(page.fields)
  }

  /** What is handed to the printer. */
  datatype Draft = Draft(fields: map<string, F.Field>, body: string)

  function FrontOf(d: Draft): F.Front {
    F.Front(
      TextOf(d.fields, "type"),
      if "summary" in d.fields then TextOf(d.fields, "summary") else "",
      TextOf(d.fields, "managed_by"),
      TextOf(d.fields, "schema_version"),
      SourcesOf(VisitedIn(d.fields)),
      TextOf(d.fields, "updated"))
  }

  function Printed(d: Draft): string {
    F.Serialized(FrontOf(d), d.body)
  }

  // ---------------------------------------------------------------- files

  function ReadPage(text: string, json: F.JsonReader): Page {
    match F.Parsed(text, json)
    case Ok(page) => Page(text, page.fields, page.body)
    case Err(_) => Broken(text)
  }

  /** The page is what its file reads as. */
  ghost predicate AsRead(page: Page, json: F.JsonReader) {
    page == ReadPage(page.text, json)
  }

  /** The page once it was printed and is read again. */
  function Reread(d: Draft, json: F.JsonReader): (page: Page)
    ensures AsRead(page, json)
  {
    ReadPage(Printed(d), json)
  }

  /** What a printed page is meant to be when it is read again. */
  function Settled(d: Draft): (page: Page)
    ensures page.Page?
  {
    Page(Printed(d), T.FieldsOf(FrontOf(d)), F.Terminated(d.body))
  }

  /** Every field of the header fits its line. */
  ghost predicate Fits(d: Draft, json: F.JsonReader) {
    T.PageFits(FrontOf(d), json)
  }

  /** A written page reads back as it was meant exactly when its header fits. */
  lemma RereadIff(d: Draft, json: F.JsonReader)
    requires F.ReadsTheRest(json)
    ensures Reread(d, json) == Settled(d) <==> Fits(d, json)
  {
    hide T.FieldsOf, F.Serialized, F.Parsed, T.PageFits, FrontOf, F.ReadsTheRest;
    R.RoundTripIff(FrontOf(d), d.body, json);
  }

  /** Settling keeps every cited source under its key and every hash that is a text. */
  lemma SettledCites(d: Draft)
    ensures var s, items := Settled(d), VisitedIn(d.fields);
            && Visited(s) == Cited(s) && |Cited(s)| == |items|
            && forall i :: 0 <= i < |items| ==>
                 && KeyOf(Cited(s)[i]) == KeyOf(items[i])
                 && "sha256" in Cited(s)[i] && Cited(s)[i]["sha256"] == F.Str(ItemText(items[i], "sha256"))
  {
    hide FrontOf, KeyOf, F.Terminated, VisitedIn, Printed;
    SettledFields(d);
    ItemsAt(SourcesOf(VisitedIn(d.fields)));
  }

  lemma SettledFields(d: Draft)
    ensures var s := Settled(d);
            Cited(s) == T.ItemsOf(SourcesOf(VisitedIn(d.fields))) && Visited(s) == Cited(s)
  {
    hide T.ItemsOf, Printed;
  }

  lemma {:induction false} ItemsAt(sources: seq<F.Source>)
    ensures |T.ItemsOf(sources)| == |sources|
    ensures forall i :: 0 <= i < |sources| ==>
              && KeyOf(T.ItemsOf(sources)[i]) == sources[i].path
              && "sha256" in T.ItemsOf(sources)[i] && T.ItemsOf(sources)[i]["sha256"] == F.Str(sources[i].sha256)
  {
    if sources != [] {
      ItemsAt(sources[1..]);
      var items := T.ItemsOf(sources);
      assert items[0] == T.ItemOf(sources[0]);
      forall i | 0 <= i < |sources|
        ensures KeyOf(items[i]) == sources[i].path
        ensures "sha256" in items[i] && items[i]["sha256"] == F.Str(sources[i].sha256)
      {
        if i > 0 {
          assert items[i] == T.ItemsOf(sources[1..])[i - 1];
        }
      }
    }
  }

  // ---------------------------------------------------------------- detaching a source

  /** What `detachDeletedSource` writes of a page that keeps another source. */
  function WithoutSource(page: Page, path: DocPath): Draft
    requires page.Page?
  {
    Draft(WithCited(page.fields, Others(Cited(page), path)), page.body)
  }

  function Detached(page: Page, path: DocPath, json: F.JsonReader): Page {
    if Cites(page, path) then Reread(WithoutSource(page, path), json) else page
  }

  /** `detachDeletedSource`: the source line goes, and the page with it if it was the last. */
  function Detach(w: Wiki, path: DocPath, json: F.JsonReader): Wiki {
    var left := DropOnlyCiting(w, path);
    left.(pages := map slug | slug in left.pages :: Detached(left.pages[slug], path, json))
  }

  /** Some source the page keeps prints as a line that reads as `path`. */
  ghost predicate ReadsAs(d: Draft, path: DocPath, json: F.JsonReader) {
    T.ReadFront(FrontOf(d), json).Some?
    && exists i :: 0 <= i < |CitedIn(d.fields)| && T.ReadDashed(KeyOf(CitedIn(d.fields)[i]), json) == Some(F.Str(path))
  }

  /** A rewritten page cites `path` exactly when its header can be read and one of its path lines reads as `path`. */
  lemma RereadCitesIff(d: Draft, path: DocPath, json: F.JsonReader)
    requires path != "" && VisitedIn(d.fields) == CitedIn(d.fields) && T.Separable(FrontOf(d))
    ensures Cites(Reread(d, json), path) <==> ReadsAs(d, path, json)
  {
    hide F.Parsed, F.Serialized, FrontOf, T.ReadFront, T.ReadDashed, KeyOf, T.Separable;
    var f := FrontOf(d);
    T.ReadsPage(f, d.body, json);
    if T.ReadFront(f, json).Some? {
      FrontItems(d, json);
      var page := Reread(d, json);
      ReadItemsAt(SourcesOf(VisitedIn(d.fields)), json);
      assert Cited(page) == T.ReadSources(SourcesOf(VisitedIn(d.fields)), json).value;
      forall i | 0 <= i < |Cited(page)|
        ensures PathOf(Cited(page)[i]) == path <==> T.ReadDashed(KeyOf(CitedIn(d.fields)[i]), json) == Some(F.Str(path))
      {
      }
    }
  }

  lemma FrontItems(d: Draft, json: F.JsonReader)
    requires T.ReadFront(FrontOf(d), json).Some?
    ensures T.ReadSources(SourcesOf(VisitedIn(d.fields)), json).Some?
    ensures CitedIn(T.ReadFront(FrontOf(d), json).value) == T.ReadSources(SourcesOf(VisitedIn(d.fields)), json).value
  {
    hide T.ReadSources, T.ReadRaw, F.QuoteYamlScalar, SourcesOf, VisitedIn;
  }

  lemma {:induction false} ReadItemsAt(sources: seq<F.Source>, json: F.JsonReader)
    requires T.ReadSources(sources, json).Some?
    ensures var items := T.ReadSources(sources, json).value;
            && |items| == |sources|
            && forall i :: 0 <= i < |sources| ==>
                 "path" in items[i] && Some(items[i]["path"]) == T.ReadDashed(sources[i].path, json)
  {
    hide T.ReadDashed, T.ReadNested, Json.ArrayText;
    if sources != [] {
      ReadItemsAt(sources[1..], json);
      var items, rest := T.ReadSources(sources, json).value, T.ReadSources(sources[1..], json).value;
      assert items == [T.ReadSource(sources[0], json).value] + rest;
      forall i | 0 <= i < |sources|
        ensures "path" in items[i] && Some(items[i]["path"]) == T.ReadDashed(sources[i].path, json)
      {
        if i > 0 {
          assert items[i] == rest[i - 1] && sources[i] == sources[1..][i - 1];
        }
      }
    }
  }

  /**
   * The page is rewritten without the source's line. Where the new header fits, nothing else of it is lost and the
   * source is no longer cited; otherwise it is cited exactly when the line of another source reads as it.
   */
  ghost predicate IsDetached(page: Page, after: Page, path: DocPath, json: F.JsonReader)
    requires page.Page?
  {
    var d := WithoutSource(page, path);
    && after.text == Printed(d) && AsRead(after, json)
    && (Fits(d, json) ==> after == Settled(d) && !Cites(after, path))
    && (T.Separable(FrontOf(d)) ==> (Cites(after, path) <==> ReadsAs(d, path, json)))
  }

  /**
   * Detaching a source: the pages citing nothing else go, the others that cite it are rewritten without its line,
   * and no other page changes.
   */
  lemma DetachRetracts(w: Wiki, path: DocPath, json: F.JsonReader)
    requires path != "" && F.ReadsTheRest(json)
    ensures var w' := Detach(w, path, json);
      && (forall slug :: slug in w'.pages <==> slug in w.pages && !OnlyCites(w.pages[slug], path))
      && (forall slug :: slug in w'.pages && !Cites(w.pages[slug], path) ==> w'.pages[slug] == w.pages[slug])
      && (forall slug :: slug in w'.pages && Cites(w.pages[slug], path) ==>
            IsDetached(w.pages[slug], w'.pages[slug], path, json))
  {
    hide OnlyCites, IsDetached, F.ReadsTheRest, Reread;
    var w' := Detach(w, path, json);
    forall slug | slug in w'.pages && Cites(w.pages[slug], path)
      ensures IsDetached(w.pages[slug], w'.pages[slug], path, json)
    {
      DetachedPage(w.pages[slug], path, json);
    }
  }

  lemma DetachedPage(page: Page, path: DocPath, json: F.JsonReader)
    requires path != "" && F.ReadsTheRest(json) && Cites(page, path)
    ensures IsDetached(page, Detached(page, path, json), path, json)
  {
    hide Fits, F.ReadsTheRest, Settled, FrontOf, ReadsAs, ReadPage, KeyOf, Printed;
    var d := WithoutSource(page, path);
    assert VisitedIn(d.fields) == CitedIn(d.fields);
    TextStays(Printed(d), json);
    RereadIff(d, json);
    if Fits(d, json) {
      SettledForgets(d, path);
    }
    if T.Separable(FrontOf(d)) {
      RereadCitesIff(d, path, json);
    }
  }

  lemma SettledForgets(d: Draft, path: DocPath)
    requires path != "" && VisitedIn(d.fields) == CitedIn(d.fields)
    requires forall item :: item in CitedIn(d.fields) ==> PathOf(item) != "" && PathOf(item) != path
    ensures !Cites(Settled(d), path)
  {
    hide Settled, VisitedIn;
    SettledCites(d);
    SettledPaths(d);
    var items := CitedIn(d.fields);
    forall i | 0 <= i < |items| ensures PathOf(Cited(Settled(d))[i]) != path {
      assert items[i] in items;
      assert KeyOf(items[i]) == PathOf(items[i]);
    }
  }

  lemma SettledPaths(d: Draft)
    ensures forall item: F.Item :: item in Cited(Settled(d)) ==> "path" in item && item["path"].Str? && PathOf(item) == KeyOf(item)
  {
    hide KeyOf, Printed;
    SettledFields(d);
    ItemsHavePaths(SourcesOf(VisitedIn(d.fields)));
  }

  lemma {:induction false} ItemsHavePaths(sources: seq<F.Source>)
    ensures forall item: F.Item :: item in T.ItemsOf(sources) ==> "path" in item && item["path"].Str? && PathOf(item) == KeyOf(item)
  {
    if sources != [] {
      ItemsHavePaths(sources[1..]);
      assert T.ItemsOf(sources) == [T.ItemOf(sources[0])] + T.ItemsOf(sources[1..]);
    }
  }

  // ---------------------------------------------------------------- dropping links

  /** `dropDeadWikiLinks` on one file, header and body alike; an unreadable one may become readable. */
  function Unlinked(page: Page, resolves: string -> bool, json: F.JsonReader): Page {
    if HasDead(page.text, resolves) then ReadPage(DropDead(page.text, resolves), json) else page
  }

  /** The same cited keys with the same hashes. */
  predicate SameCited(a: seq<F.Item>, b: seq<F.Item>) {
    |a| == |b| && forall i :: 0 <= i < |a| ==> KeyOf(a[i]) == KeyOf(b[i]) && ItemText(a[i], "sha256") == ItemText(b[i], "sha256")
  }

  /** The same sources, whatever their locators. */
  predicate SameSources(a: map<string, F.Field>, b: map<string, F.Field>) {
    && ("sources" in a <==> "sources" in b)
    && ("sources" in a ==>
          if a["sources"].Sources? then b["sources"].Sources? && SameCited(a["sources"].items, b["sources"].items)
          else a["sources"] == b["sources"])
  }

  function SourcesPutBack(fields: map<string, F.Field>, from: map<string, F.Field>): map<string, F.Field> {
    if "sources" in from then fields["sources" := from["sources"]] else fields - {"sources"}
  }

  /** Link dropping spares the file: its sources stay, and an unreadable file stays unreadable. */
  predicate LinksSpared(page: Page, resolves: string -> bool, json: F.JsonReader) {
    var u := Unlinked(page, resolves, json);
    if page.Broken? then u.Broken? else u.Page? && SameSources(page.fields, u.fields)
  }

  /** What link dropping is meant to leave: the file without the links, with the sources it had. */
  function MeantUnlinked(page: Page, resolves: string -> bool, json: F.JsonReader): Page {
    var u := Unlinked(page, resolves, json);
    if page.Broken? then Broken(DropDead(page.text, resolves))
    else if u.Broken? then page
    else if SameSources(page.fields, u.fields) then u
    else u.(fields := SourcesPutBack(u.fields, page.fields))
  }

  /** Link dropping leaves what it is meant to leave exactly when it spares the file. */
  lemma UnlinkIff(page: Page, resolves: string -> bool, json: F.JsonReader)
    ensures Unlinked(page, resolves, json) == MeantUnlinked(page, resolves, json) <==> LinksSpared(page, resolves, json)
  {
    hide HasDead, DropDead, F.Parsed, KeyOf;
    DropChangesIff(page.text, resolves);
    var u := Unlinked(page, resolves, json);
    if page.Page? && u.Page? && u.fields == SourcesPutBack(u.fields, page.fields) {
      assert "sources" in page.fields ==> u.fields["sources"] == page.fields["sources"];
    }
  }

  lemma MeantKeepsSources(page: Page, resolves: string -> bool, json: F.JsonReader)
    requires page.Page?
    ensures var u := MeantUnlinked(page, resolves, json); u.Page? && SameSources(page.fields, u.fields)
  {
    hide HasDead, DropDead, F.Parsed, KeyOf;
  }

  // ---------------------------------------------------------------- links and headers

  lemma SamePrefix(a: string, b: string, part: string, n: nat)
    requires |part| <= n <= |a| && n <= |b| && a[..n] == b[..n]
    ensures part <= a <==> part <= b
  {
    assert a[..|part|] == a[..n][..|part|] == b[..n][..|part|] == b[..|part|];
  }

  lemma SameTail(a: string, b: string, n: nat)
    requires 1 <= n <= |a| && n <= |b| && a[..n] == b[..n]
    ensures a[1..][..n - 1] == b[1..][..n - 1]
  {
    assert a[1..][..n - 1] == a[..n][1..] && b[1..][..n - 1] == b[..n][1..];
  }

  /** Where a part is first found depends on the text up to its end only. */
  lemma {:induction false} FirstStays(a: string, b: string, part: string, at: nat)
    requires F.IndexOf(a, part) == Some(at) && at + |part| <= |b| && a[..at + |part|] == b[..at + |part|]
    ensures F.IndexOf(b, part) == Some(at)
  {
    SamePrefix(a, b, part, at + |part|);
    if part <= a {
      assert at == 0;
    } else {
      NotFirst(a, part);
      hide F.IndexOf;
      IndexMoves(a, part);
      SameTail(a, b, at + |part|);
      IndexMoves(b, part);
      FirstStays(a[1..], b[1..], part, at - 1);
    }
  }

  lemma NotFirst(a: string, part: string)
    requires !(part <= a) && F.IndexOf(a, part).Some?
    ensures a != "" && F.IndexOf(a, part).value > 0
  {
  }

  lemma IndexMoves(text: string, part: string)
    requires text != "" && !(part <= text)
    ensures F.IndexOf(text, part) == match F.IndexOf(text[1..], part) case None => None case Some(i) => Some(i + 1)
  {
  }

  /** The length of the header with both its fences. */
  function HeaderLength(page: Page): nat {
    if page.Page? && |page.body| <= |page.text| then |page.text| - |page.body| else 0
  }

  /** Two texts that begin with the same header read as the same fields. */
  lemma SameHeader(text: string, text': string, json: F.JsonReader)
    requires ReadPage(text, json).Page?
    requires var n := HeaderLength(ReadPage(text, json)); n <= |text'| && text'[..n] == text[..n]
    ensures var p, p' := ReadPage(text, json), ReadPage(text', json);
            p'.Page? && p'.fields == p.fields && p'.body == text'[HeaderLength(p)..]
  {
    hide F.ReadLines, F.IndexOf;
    var end := F.IndexOf(text[4..], F.CLOSING).value;
    var n := HeaderLength(ReadPage(text, json));
    assert n == 4 + end + 5;
    var a, b := text[4..], text'[4..];
    assert b[..end + 5] == text'[..n][4..] && a[..end + 5] == text[..n][4..];
    FirstStays(a, b, F.CLOSING, end);
    assert b[..end] == b[..end + 5][..end] && a[..end] == a[..end + 5][..end];
    assert text'[..4] == text'[..n][..4] && text[..4] == text[..n][..4];
    assert text'[4..][end + 5..] == text'[n..];
  }

  /** A file in whose header no dead link starts keeps every field, and changes in its body only. */
  lemma HeaderIsSpared(page: Page, resolves: string -> bool, json: F.JsonReader)
    requires page.Page? && AsRead(page, json) && !DeadBefore(page.text, HeaderLength(page), resolves)
    ensures var u := Unlinked(page, resolves, json);
            && u.Page? && u.fields == page.fields && LinksSpared(page, resolves, json)
            && HeaderLength(page) <= |u.text| && u.text[..HeaderLength(page)] == page.text[..HeaderLength(page)]
  {
    hide HasDead, DropDead, DeadBefore, ReadPage, SameSources;
    var n, after := HeaderLength(page), DropDead(page.text, resolves);
    DropKeepsBefore(page.text, n, resolves);
    assert after[..n] == page.text[..n];
    if HasDead(page.text, resolves) {
      SameHeader(page.text, after, json);
      TextStays(after, json);
    }
    SameAreSame(page.fields);
  }

  lemma TextStays(text: string, json: F.JsonReader)
    ensures ReadPage(text, json).text == text
  {
    hide F.Parsed;
  }

  lemma SameAreSame(fields: map<string, F.Field>)
    ensures SameSources(fields, fields)
  {
    hide KeyOf;
  }
}
