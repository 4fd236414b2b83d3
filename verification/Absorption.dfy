/**
 * The first publish beside a team vault that already has pages (publish.js, desktop-runner.js): vault pages whose
 * source is still there are taken over as they are, so what `prepare` guarantees about restricted sources holds of
 * the published vault exactly when it holds of those pages.
 */
module Absorption {
  import opened Text
  import opened WikiPath
  import opened SourcePlan
  import opened WikiTree
  import opened PageFile
  import opened Quality
  import F = Frontmatter
  import P = Publish
  import S = PublishSafety
  import G = PublishGuards
  import Q = QualityTheorems
  import Prepared = Prepare

  // ---------------------------------------------------------------- page files

  predicate IsPageFile(rel: Path) {
    IsAllowedWikiPath(rel) && rel != INDEX
  }

  function SlugOf(rel: Path): Slug {
    if |rel| < 9 then "" else rel[6..|rel| - 3]
  }

  /** The file can be read and cites nothing under the prefixes; one that cannot be read cites nothing. */
  ghost predicate Clear(text: string, prefixes: seq<string>, json: F.JsonReader) {
    forall item :: item in Cited(ReadPage(text, json)) ==> !IsRestrictedPath(KeyOf(item), prefixes)
  }

  ghost predicate ClearPages(t: Tree, prefixes: seq<string>, json: F.JsonReader) {
    forall rel :: rel in t && IsPageFile(rel) ==> Clear(t[rel], prefixes, json)
  }

  // ---------------------------------------------------------------- the index rebuild on files

  /** What the index rebuild of module Quality makes of one file. */
  ghost predicate IsRebuilt(r: Rules, rel: Path, before: string, after: string) {
    var page := ReadPage(before, r.json);
    page.Page? && after == Indexed(Real(r), page, SlugOf(rel)).text
  }

  /** The publish step's index rebuild is that of module Quality, file by file. */
  ghost predicate RebuildsIndex(env: P.Env, r: Rules) {
    forall t {:trigger env.rebuild(t)} :: env.rebuild(t).Some? ==>
      forall rel :: rel in t && IsPageFile(rel) ==>
        rel in env.rebuild(t).value && IsRebuilt(r, rel, t[rel], env.rebuild(t).value[rel])
  }

  /** A page the rebuild rewrites has a header that fits its lines, and no text for sources. */
  ghost predicate Rewritable(r: Rules, rel: Path, text: string) {
    var page := ReadPage(text, r.json);
    page.Page? ==>
      && Q.Plain(page)
      && forall d :: d in IndexWrites(page, SlugOf(rel)) ==> Fits(d, r.json)
  }

  ghost predicate AllRewritable(r: Rules, t: Tree) {
    forall rel :: rel in t && IsPageFile(rel) ==> Rewritable(r, rel, t[rel])
  }

  /** Such a rewrite keeps every cited source. */
  lemma RebuiltIsClearIff(r: Rules, rel: Path, before: string, after: string, prefixes: seq<string>)
    requires F.ReadsTheRest(r.json) && Rewritable(r, rel, before) && IsRebuilt(r, rel, before, after)
    ensures Clear(after, prefixes, r.json) <==> Clear(before, prefixes, r.json)
  {
    hide ReadPage, Fits, Settled, F.ReadsTheRest, IndexSummary, KeyOf, CitedIn, VisitedIn, IsRestrictedPath;
    var page, writes := ReadPage(before, r.json), IndexWrites(ReadPage(before, r.json), SlugOf(rel));
    if writes == [] {
      TextStays(before, r.json);
    } else {
      var d := writes[0];
      RereadIff(d, r.json);
      SettledCites(d);
      assert ReadPage(after, r.json) == Settled(d);
      var items, kept := Cited(page), Cited(Settled(d));
      assert VisitedIn(d.fields) == items;
      assert forall i :: 0 <= i < |items| ==> items[i] in items && kept[i] in kept && KeyOf(kept[i]) == KeyOf(items[i]);
    }
  }

  // ---------------------------------------------------------------- absorbing

  /** The commit absorbing makes cites nothing restricted exactly when no absorbed page does. */
  lemma AbsorbedIsClearIff(env: P.Env, r: Rules, w: P.World, prefixes: seq<string>)
    requires P.SoundEnv(env) && RebuildsIndex(env, r) && F.ReadsTheRest(r.json)
    requires P.WellFormed(w) && w.worktree == w.repo[w.head] && P.Absorbs(env, w) && P.Absorb(env, w).Ok?
    requires AllRewritable(r, P.CopiedIn(env, w)) && ClearPages(P.TargetTree(w), prefixes, r.json)
    ensures ClearPages(P.TargetTree(P.Absorb(env, w).value), prefixes, r.json)
            <==> forall rel :: rel in P.MissingPages(env, w) ==> Clear(w.vault[rel], prefixes, r.json)
  {
    hide Clear, Rewritable, IsRebuilt, F.ReadsTheRest, IsAllowedWikiPath;
    var copied := P.CopiedIn(env, w);
    var tree, target := env.rebuild(copied).value, P.TargetTree(P.Absorb(env, w).value);
    AbsorbedTarget(env, w);
    forall rel | rel in copied && IsPageFile(rel)
      ensures rel in target && (Clear(target[rel], prefixes, r.json) <==> Clear(copied[rel], prefixes, r.json))
    {
      RebuiltIsClearIff(r, rel, copied[rel], tree[rel], prefixes);
    }
    forall rel | rel in copied && IsPageFile(rel)
      ensures if rel in P.MissingPages(env, w) then copied[rel] == w.vault[rel]
              else rel in P.TargetTree(w) && copied[rel] == P.TargetTree(w)[rel]
    {
    }
    forall rel | rel in P.MissingPages(env, w) ensures rel in copied && IsPageFile(rel) {
      MissingIsPageFile(env, w, rel);
    }
  }

  lemma MissingIsPageFile(env: P.Env, w: P.World, rel: Path)
    requires P.WellFormed(w) && rel in P.MissingPages(env, w)
    ensures IsPageFile(rel) && rel in w.vault
  {
  }

  lemma AbsorbedTarget(env: P.Env, w: P.World)
    requires P.SoundEnv(env) && P.WellFormed(w) && w.worktree == w.repo[w.head] && P.Absorbs(env, w) && P.Absorb(env, w).Ok?
    ensures env.rebuild(P.CopiedIn(env, w)).Some?
    ensures var tree := env.rebuild(P.CopiedIn(env, w)).value;
            P.TargetTree(P.Absorb(env, w).value) == Listed(tree) && tree.Keys == P.CopiedIn(env, w).Keys + {INDEX}
  {
    hide P.MissingPages, IsAllowedWikiPath;
  }

  // ---------------------------------------------------------------- after prepare

  /** The page files of the tree are those of the wiki. */
  ghost predicate HasPagesOf(t: Tree, wiki: Wiki) {
    forall rel :: rel in t && IsPageFile(rel) ==>
      SlugOf(rel) in wiki.pages && wiki.pages[SlugOf(rel)].text == t[rel]
  }

  /** What `prepare` lets be published cites nothing restricted, file by file. */
  lemma PublishableIsClear(t: Tree, wiki: Wiki, sources: Sources, prefixes: seq<string>, json: F.JsonReader)
    requires HasPagesOf(t, wiki) && Q.AllAsRead(wiki, json) && Prepared.Publishable(wiki, sources, prefixes)
    ensures ClearPages(t, prefixes, json)
  {
    hide ReadPage, KeyOf, IsRestrictedPath, RecordedHash, Truthy, IsAllowedWikiPath;
    forall rel | rel in t && IsPageFile(rel) ensures Clear(t[rel], prefixes, json) {
      var page := wiki.pages[SlugOf(rel)];
      CitedIsVisited(page);
      assert AsRead(page, json);
    }
  }

  lemma CitedIsVisited(page: Page)
    requires page.Page?
    ensures forall item :: item in Cited(page) ==> item in Visited(page)
  {
  }

  /**
   * The first publish of a prepared wiki, absorbing included: the published vault cites nothing under a
   * restricted prefix exactly when none of the vault pages that were taken over does.
   */
  lemma FirstPublishIsClearIff(
      env: P.Env, r: Rules, w: P.World, o: P.Opts, wiki: Wiki, sources: Sources, prefixes: seq<string>)
    requires P.SoundEnv(env) && RebuildsIndex(env, r) && F.ReadsTheRest(r.json)
    requires P.WellFormed(w) && w.worktree == w.repo[w.head] && w.published.None? && w.marker.None?
    requires HasPagesOf(w.repo[w.head], wiki) && Q.AllAsRead(wiki, r.json) && Prepared.Publishable(wiki, sources, prefixes)
    requires AllRewritable(r, P.CopiedIn(env, w))
    requires var d := P.Decide(env, w, o); d.Admitted? && S.PlainTrees(d.w)
    ensures ClearPages(Walked(P.PublishWiki(env, w, o).0.vault), prefixes, r.json)
            <==> forall rel :: rel in P.MissingPages(env, w) ==> Clear(w.vault[rel], prefixes, r.json)
  {
    hide P.PublishWiki, P.Decide, Clear, IsAllowedWikiPath, AllRewritable, Prepared.Publishable, F.ReadsTheRest, HasPagesOf;
    G.AdmittedPublishesTarget(env, w, o);
    PublishableIsClear(w.repo[w.head], wiki, sources, prefixes, r.json);
    HeadIsClear(w, prefixes, r.json);
    DecidedTarget(env, w, o);
    if P.Absorbs(env, w) {
      AbsorbedIsClearIff(env, r, w, prefixes);
    }
  }

  lemma HeadIsClear(w: P.World, prefixes: seq<string>, json: F.JsonReader)
    requires P.WellFormed(w) && ClearPages(w.repo[w.head], prefixes, json)
    ensures ClearPages(P.TargetTree(w), prefixes, json)
  {
    hide Clear, IsAllowedWikiPath;
  }

  lemma DecidedTarget(env: P.Env, w: P.World, o: P.Opts)
    requires P.SoundEnv(env) && P.WellFormed(w) && w.published.None? && w.marker.None? && P.Decide(env, w, o).Admitted?
    ensures P.Absorb(env, w).Ok? && P.Decide(env, w, o).w == P.Absorb(env, w).value
    ensures !P.Absorbs(env, w) ==> P.Absorb(env, w).value == w && P.MissingPages(env, w) == {}
  {
    hide P.BuildPlan, P.BaselineOk, P.Replayable, P.MissingPages;
  }
}
