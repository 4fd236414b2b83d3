/** The passes of module Quality in their own form: loops over the pages of the worktree. */
module QualityPasses {
  import opened Text
  import opened SourcePlan
  import opened WikiTree
  import opened WikiIndex
  import opened Quality
  import opened PageFile
  import F = Frontmatter

  // ---------------------------------------------------------------- validator.js

  method IndexOne(r: Rules, page: Page, slug: Slug) returns (result: Page)
    ensures result == Indexed(Real(r), page, slug)
  {
    hide IndexWrites, Reread;
    result := page;
    var writes := IndexWrites(page, slug);
    if writes != [] {
      result := Reread(writes[0], r.json);
    }
  }

  method RebuildIndex(r: Rules, w: Wiki) returns (result: Option<Wiki>)
    requires Sorts(r.order)
    ensures result == Rebuilt(r, Real(r), w)
  {
    hide Indexed, Real, RowsOf, IndexText;
    ghost var v := Real(r);
    var names := r.order(w.pages.Keys);
    assert Lists(names, w.pages.Keys);
    var pages: map<Slug, Page> := map[];
    for i := 0 to |names|
      invariant forall slug :: slug in names[..i] ==> Indexed(v, w.pages[slug], slug).Page?
      invariant pages == map slug | slug in names[..i] :: Indexed(v, w.pages[slug], slug)
    {
      var slug := names[i];
      assert names[..i + 1] == names[..i] + [slug];
      var page := IndexOne(r, w.pages[slug], slug);
      if page.Broken? {
        assert IndexedPages(v, w.pages)[slug].Broken?;
        return None;
      }
      pages := pages[slug := page];
    }
    assert names[..|names|] == names;
    assert pages == IndexedPages(v, w.pages);
    return Some(w.(pages := pages, index := Some(IndexText(r.order, RowsOf(pages)))));
  }

  // ---------------------------------------------------------------- orphan-gc.js

  /** The pages once those in `done` have met their fate. */
  ghost function CollectedSoFar(v: Ways, pages: map<Slug, Page>, done: seq<Slug>, sources: Sources, prefixes: seq<string>): map<Slug, Page> {
    map slug | slug in pages && !(slug in done && FateOf(pages[slug], sources, prefixes) == Remove) ::
      if slug in done then Collected(v, pages[slug], sources, prefixes) else pages[slug]
  }

  lemma CollectStep(v: Ways, pages: map<Slug, Page>, done: seq<Slug>, slug: Slug, sources: Sources, prefixes: seq<string>)
    requires slug in pages && slug !in done
    ensures var before, after := CollectedSoFar(v, pages, done, sources, prefixes), CollectedSoFar(v, pages, done + [slug], sources, prefixes);
      after == match FateOf(pages[slug], sources, prefixes)
        case Keep => before
        case Remove => before - {slug}
        case Rewrite(_) => before[slug := Collected(v, pages[slug], sources, prefixes)]
  {
  }

  ghost function RecompileSoFar(pages: map<Slug, Page>, done: seq<Slug>, sources: Sources, prefixes: seq<string>): set<DocPath> {
    set slug, path | slug in done && slug in pages && path in RecompileOf(pages[slug], sources, prefixes) :: path
  }

  lemma RecompileStep(pages: map<Slug, Page>, done: seq<Slug>, slug: Slug, sources: Sources, prefixes: seq<string>)
    requires slug in pages
    ensures RecompileSoFar(pages, done + [slug], sources, prefixes)
      == RecompileSoFar(pages, done, sources, prefixes) + RecompileOf(pages[slug], sources, prefixes)
  {
  }

  ghost predicate TouchedSoFar(pages: map<Slug, Page>, done: seq<Slug>, sources: Sources, prefixes: seq<string>) {
    exists slug :: slug in done && slug in pages && FateOf(pages[slug], sources, prefixes) != Keep
  }

  lemma CollectedAll(v: Ways, pages: map<Slug, Page>, names: seq<Slug>, sources: Sources, prefixes: seq<string>)
    requires forall slug :: slug in names <==> slug in pages
    ensures CollectedSoFar(v, pages, names, sources, prefixes) == CollectedPages(v, pages, sources, prefixes)
    ensures RecompileSoFar(pages, names, sources, prefixes) == Recompile(pages, sources, prefixes)
  {
  }

  method CollectPages(r: Rules, names: seq<Slug>, pages: map<Slug, Page>, sources: Sources, prefixes: seq<string>)
    returns (left: map<Slug, Page>, touched: bool, recompile: set<DocPath>)
    requires Lists(names, pages.Keys)
    ensures left == CollectedPages(Real(r), pages, sources, prefixes)
    ensures touched <==> GcTouches(pages, sources, prefixes)
    ensures recompile == Recompile(pages, sources, prefixes)
  {
    hide FateOf, GcWrites, RecompileOf;
    ghost var v := Real(r);
    left, touched, recompile := pages, false, {};
    for i := 0 to |names|
      invariant left == CollectedSoFar(v, pages, names[..i], sources, prefixes)
      invariant touched <==> TouchedSoFar(pages, names[..i], sources, prefixes)
      invariant recompile == RecompileSoFar(pages, names[..i], sources, prefixes)
    {
      var slug := names[i];
      assert slug !in names[..i] by {
        forall k | 0 <= k < i {
          ListsOnce(names, pages.Keys, k, i);
        }
      }
      assert names[..i + 1] == names[..i] + [slug];
      CollectStep(v, pages, names[..i], slug, sources, prefixes);
      RecompileStep(pages, names[..i], slug, sources, prefixes);
      recompile := recompile + RecompileOf(pages[slug], sources, prefixes);
      match FateOf(pages[slug], sources, prefixes) {
        case Keep =>
        case Remove =>
          left, touched := left - {slug}, true;
        case Rewrite(_) =>
          var page := pages[slug];
          var writes := GcWrites(page, sources, prefixes);
          if writes != [] {
            page := Reread(writes[0], r.json);
          }
          left, touched := left[slug := page], true;
      }
    }
    assert names[..|names|] == names;
    CollectedAll(v, pages, names, sources, prefixes);
  }

  method GcOrphanPages(r: Rules, w: Wiki, sources: Sources, prefixes: seq<string>)
    returns (result: Option<Wiki>, recompile: set<DocPath>)
    requires Sorts(r.order)
    ensures result == Gc(r, Real(r), w, sources, prefixes) && recompile == Recompile(w.pages, sources, prefixes)
  {
    assert Lists(r.order(w.pages.Keys), w.pages.Keys);
    var pages, touched;
    pages, touched, recompile := CollectPages(r, r.order(w.pages.Keys), w.pages, sources, prefixes);
    if touched {
      result := RebuildIndex(r, w.(pages := pages));
    } else {
      result := Some(w);
    }
  }

  // ---------------------------------------------------------------- repair.js

  /** One page of `repairWiki`, write by write. */
  method RepairOne(r: Rules, unlinked: Page, sources: Sources) returns (page: Page)
    ensures page == RepairPage(r, Real(r), unlinked, sources)
  {
    hide Fixed, Reread, Printed, EndLine;
    page := unlinked;
    if page.Broken? {
      page := Reread(r.normalise(page), r.json);
      return;
    }
    var fixed := Fixed(r, page, sources);
    if fixed == Draft(page.fields, page.body) {
      if r.size(page.text) > r.maxBytes {
        page := Reread(r.normalise(page), r.json);
      }
      return;
    }
    var next := fixed.(body := EndLine(fixed.body));
    page := Reread(next, r.json);
    if r.size(Printed(next)) > r.maxBytes {
      page := Reread(r.normalise(page), r.json);
    }
  }

  function RepairedSoFar(r: Rules, v: Ways, w: Wiki, names: seq<Slug>, sources: Sources): map<Slug, Page> {
    map slug | slug in w.pages ::
      if slug in names then RepairPage(r, v, v.unlink(w, w.pages[slug]), sources) else w.pages[slug]
  }

  lemma RepairStep(r: Rules, v: Ways, w: Wiki, names: seq<Slug>, slug: Slug, sources: Sources)
    requires slug in w.pages
    ensures RepairedSoFar(r, v, w, names + [slug], sources)
         == RepairedSoFar(r, v, w, names, sources)[slug := RepairPage(r, v, v.unlink(w, w.pages[slug]), sources)]
  {
    hide RepairPage;
  }

  lemma RepairEnds(r: Rules, v: Ways, w: Wiki, names: seq<Slug>, sources: Sources)
    requires Lists(names, w.pages.Keys)
    ensures RepairedSoFar(r, v, w, [], sources) == w.pages
    ensures RepairedSoFar(r, v, w, names, sources) == RepairedPages(r, v, w, sources)
  {
    hide RepairPage;
  }

  method RepairWiki(r: Rules, w: Wiki, sources: Sources) returns (result: Option<Wiki>)
    requires Sorts(r.order)
    ensures result == Repair(r, Real(r), w, sources)
  {
    hide RepairPage, RepairedSoFar, RepairedPages, Rebuilt;
    ghost var v := Real(r);
    var names := r.order(w.pages.Keys);
    assert Lists(names, w.pages.Keys);
    RepairEnds(r, v, w, names, sources);
    var pages := w.pages;
    for i := 0 to |names|
      invariant pages == RepairedSoFar(r, v, w, names[..i], sources)
    {
      RepairStep(r, v, w, names[..i], names[i], sources);
      assert names[..i + 1] == names[..i] + [names[i]];
      var unlinked := Unlinked(w.pages[names[i]], target => r.resolves(w, target), r.json);
      var page := RepairOne(r, unlinked, sources);
      pages := pages[names[i] := page];
    }
    assert names[..|names|] == names;
    result := RebuildIndex(r, w.(pages := pages));
  }

  // ---------------------------------------------------------------- lint.js

  method LintRefs(items: seq<F.Item>, slug: Slug, sources: Sources) returns (errors: seq<LintError>)
    ensures forall e :: e in errors <==> exists i :: 0 <= i < |items| && RefError(items[i], slug, sources, e)
  {
    errors := [];
    for i := 0 to |items|
      invariant forall e :: e in errors <==> exists k :: 0 <= k < i && RefError(items[k], slug, sources, e)
    {
      var item := items[i];
      ghost var before := errors;
      var hash := RecordedHash(sources, KeyOf(item));
      if !IsImported(sources, KeyOf(item)) {
        errors := errors + [NotImported(slug, KeyOf(item))];
      } else if Truthy(item, "sha256") && hash.Some? && item["sha256"] != F.Str(hash.value) {
        errors := errors + [HashDiffers(slug, KeyOf(item))];
      }
      assert forall e :: e in errors <==> e in before || RefError(item, slug, sources, e);
    }
  }

  method LintPage(r: Rules, w: Wiki, slug: Slug, sources: Sources) returns (errors: seq<LintError>)
    requires Sorts(r.order) && slug in w.pages
    ensures forall e :: e in errors <==> PageError(r, w, slug, sources, e)
  {
    var page := w.pages[slug];
    if page.Broken? {
      return [Unreadable(slug)];
    }
    var refErrors := LintRefs(Visited(page), slug, sources);
    var targets := r.order(r.deadLinks(w, page));
    assert Lists(targets, r.deadLinks(w, page));
    var links := seq(|targets|, i requires 0 <= i < |targets| => DeadLink(slug, targets[i]));
    assert forall e :: e in links <==> exists target :: target in targets && e == DeadLink(slug, target) by {
      forall target | target in targets
        ensures DeadLink(slug, target) in links
      {
        var i :| 0 <= i < |targets| && targets[i] == target;
        assert links[i] == DeadLink(slug, target);
      }
    }
    errors := (if r.size(page.text) > r.maxBytes then [TooLong(slug)] else []) + refErrors + links;
  }

  method LintEntries(entries: seq<IndexItem>, w: Wiki) returns (errors: seq<LintError>)
    ensures forall e :: e in errors <==>
      || (e.IndexRepeats? && exists i, j :: 0 <= i < j < |entries| && entries[i].slug == entries[j].slug == e.slug)
      || (e.IndexPointsNowhere? && e.slug !in w.pages && exists i :: 0 <= i < |entries| && entries[i].slug == e.slug)
  {
    errors := [];
    var seen := {};
    for k := 0 to |entries|
      invariant forall slug :: slug in seen <==> exists i :: 0 <= i < k && entries[i].slug == slug
      invariant forall e :: e in errors <==>
        || (e.IndexRepeats? && exists i, j :: 0 <= i < j < k && entries[i].slug == entries[j].slug == e.slug)
        || (e.IndexPointsNowhere? && e.slug !in w.pages && exists i :: 0 <= i < k && entries[i].slug == e.slug)
    {
      var slug := entries[k].slug;
      if slug in seen {
        errors := errors + [IndexRepeats(slug)];
      }
      seen := seen + {slug};
      if slug !in w.pages {
        errors := errors + [IndexPointsNowhere(slug)];
      }
    }
  }

  method LintIndex(r: Rules, w: Wiki) returns (errors: seq<LintError>)
    requires Sorts(r.order)
    ensures forall e :: e in errors <==> IndexError(w, e)
  {
    if w.index.None? {
      return [IndexAbsent];
    }
    var entries := ParseIndexEntries(w.index.value);
    errors := LintEntries(entries, w);
    ghost var before := errors;
    var names := r.order(w.pages.Keys);
    assert Lists(names, w.pages.Keys);
    for i := 0 to |names|
      invariant forall e :: e in errors <==>
        (e in before || (e.IndexMisses? && e.slug in names[..i] && forall k :: 0 <= k < |entries| ==> entries[k].slug != e.slug))
    {
      assert names[..i + 1] == names[..i] + [names[i]];
      if forall k :: 0 <= k < |entries| ==> entries[k].slug != names[i] {
        errors := errors + [IndexMisses(names[i])];
      }
    }
    assert names[..|names|] == names;
  }

  /** `lintBatch`: exactly the errors there are. */
  method LintBatch(r: Rules, w: Wiki, sources: Sources) returns (errors: seq<LintError>)
    requires Sorts(r.order)
    ensures forall e :: e in errors <==> IsLintError(r, w, sources, e)
  {
    var names := r.order(w.pages.Keys);
    assert Lists(names, w.pages.Keys);
    errors := [];
    for i := 0 to |names|
      invariant forall e :: e in errors <==> exists slug :: slug in names[..i] && slug in w.pages && PageError(r, w, slug, sources, e)
    {
      assert names[..i + 1] == names[..i] + [names[i]];
      var found := LintPage(r, w, names[i], sources);
      errors := errors + found;
    }
    assert names[..|names|] == names;
    var indexErrors := LintIndex(r, w);
    errors := errors + indexErrors;
  }
}
