/**
 * When an item of the batch succeeds, and what it does to worktree, HEAD and state (ingest.js), told from the turn,
 * the worktree and the recorded entries alone.
 */
module IngestLaws {
  import opened Text
  import opened SourcePlan
  import opened WikiTree
  import opened PageFile
  import opened Ingest
  import opened IngestItems
  import opened IngestRuns
  import opened IngestTheorems
  import opened PlanLaws
  import F = Frontmatter
  import PF = PlanFacts

  // ---------------------------------------------------------------- commits

  /** What a commit of a worktree has: tracked files as they are, and untracked ones that git does not ignore. */
  ghost predicate IsStaged(staged: Wiki, w: Wiki, head: Wiki, ignored: Ignored) {
    && (forall slug :: slug in staged.pages <==> slug in w.pages && (slug in ignored.pages ==> slug in head.pages))
    && (forall slug :: slug in staged.pages ==> staged.pages[slug] == w.pages[slug])
    && staged.index == (if ignored.index && head.index.None? then None else w.index)
    && (forall rel :: rel in staged.other <==> rel in w.other && (rel in ignored.other ==> rel in head.other))
    && (forall rel :: rel in staged.other ==> staged.other[rel] == w.other[rel])
  }

  /** What a reset leaves: the commit, and the untracked files that git ignores. */
  ghost predicate IsReset(after: Wiki, w: Wiki, head: Wiki, ignored: Ignored) {
    && (forall slug :: slug in after.pages <==> slug in head.pages || (slug in w.pages && slug in ignored.pages))
    && (forall slug :: slug in after.pages ==>
          after.pages[slug] == if slug in head.pages then head.pages[slug] else w.pages[slug])
    && after.index == (if head.index.Some? then head.index else if ignored.index then w.index else None)
    && (forall rel :: rel in after.other <==> rel in head.other || (rel in w.other && rel in ignored.other))
    && (forall rel :: rel in after.other ==> after.other[rel] == if rel in head.other then head.other[rel] else w.other[rel])
  }

  lemma StagedMeans(w: Wiki, head: Wiki, ignored: Ignored)
    ensures IsStaged(Staged(w, head, ignored), w, head, ignored)
    ensures IsReset(Beside(head, Unstaged(w, head, ignored)), w, head, ignored)
  {
  }

  /** The worktree is `tree`, and HEAD has its staged part, in a commit of its own unless nothing changed. */
  ghost predicate Commits(s: Store, s': Store, tree: Wiki, ignored: Ignored)
    requires WellFormed(s)
  {
    && WellFormed(s') && s'.worktree == tree && IsStaged(s'.commits[s'.head], tree, s.commits[s.head], ignored)
    && (if s'.commits[s'.head] == s.commits[s.head] then s'.commits == s.commits && s'.head == s.head
        else s'.head == |s.commits| == |s'.commits| - 1 && s'.commits[..|s.commits|] == s.commits)
  }

  /** HEAD stays, and the worktree is reset to it. */
  ghost predicate RollsBack(s: Store, s': Store, tree: Wiki, ignored: Ignored)
    requires WellFormed(s)
  {
    s'.commits == s.commits && s'.head == s.head && IsReset(s'.worktree, tree, s.commits[s.head], ignored)
  }

  lemma CommitAllMeans(s: Store, tree: Wiki, ignored: Ignored)
    requires WellFormed(s)
    ensures Commits(s, CommitAll(s.(worktree := tree), ignored), tree, ignored)
  {
    hide IsStaged, Staged;
    StagedMeans(tree, s.commits[s.head], ignored);
  }

  // ---------------------------------------------------------------- an import

  /** A page among the paths the model says it wrote. */
  ghost predicate NamesPage(rels: seq<string>) {
    exists i :: 0 <= i < |rels| && StartsWith(rels[i], "pages/")
  }

  lemma NamesPageIff(rels: seq<string>)
    ensures HasPages(rels) <==> NamesPage(rels)
  {
    if i :| 0 <= i < |rels| && StartsWith(rels[i], "pages/") {
      assert rels[i] in rels;
    }
  }

  /** An entry that a failed import puts back: an import that left pages. */
  ghost predicate LeftPages(sources: Sources, path: DocPath) {
    path in sources && sources[path].imported && sources[path].pages.Some? && NamesPage(sources[path].pages.value)
  }

  /** The worktree a failed import ends with. */
  ghost function FailedTree(t: Turn): Wiki {
    if t.model.Threw? then t.model.tree
    else if t.tidy(t.model.tree).Err? then t.tidy(t.model.tree).error
    else t.tidy(t.model.tree).value
  }

  /**
   * An import succeeds exactly when the text was extracted, the model answered, its tree could be tidied, it names a
   * page, the validator accepts the tidied tree and the document has a hash. Then the tidied tree is committed and
   * the entry holds the document's hash, the extractor, the model's paths and the commit. Without a text nothing
   * happens; any other failure rolls back, and the source keeps its entry only if that was an import with pages.
   */
  lemma IngestOneIff(s: Store, job: Job, t: Turn)
    requires WellFormed(s)
    ensures var (s', ok) := IngestOne(s, job, t);
      && (ok <==>
            && t.extraction.Accepted? && t.model.Answered? && t.tidy(t.model.tree).Ok?
            && NamesPage(t.model.affected) && t.valid(t.tidy(t.model.tree).value) && job.sha.Some?)
      && (ok ==>
            var tree := t.tidy(t.model.tree).value;
            && Commits(s, s', tree, t.ignored(tree)) && s'.saved == s'.sources
            && s'.sources == s.sources[job.path :=
                 Entry(job.sha, Some(t.extraction.cacheKey), Some(t.model.affected), true, Some(s'.head), None)])
      && (!t.extraction.Accepted? ==> s' == s)
      && (!ok && t.extraction.Accepted? ==>
            && RollsBack(s, s', FailedTree(t), t.ignored(FailedTree(t))) && s'.saved == s'.sources
            && s'.sources == if LeftPages(s.sources, job.path) then s.sources else s.sources - {job.path})
  {
    hide Commits, IsStaged, IsReset, Staged, Unstaged, Beside, NamesPage, HasPages;
    if t.extraction.Accepted? {
      if t.model.Answered? {
        NamesPageIff(t.model.affected);
      }
      if job.path in s.sources && s.sources[job.path].pages.Some? {
        NamesPageIff(s.sources[job.path].pages.value);
      }
      var marked := MarkPending(s.sources, job, s.head);
      var pending := Save(s.(sources := marked));
      match Compiled(job, t)
      case Ok(tree) =>
        CommitAllMeans(pending, tree, t.ignored(tree));
        CommitsSame(s, pending, CommitAll(pending.(worktree := tree), t.ignored(tree)), IngestOne(s, job, t).0, tree, t.ignored(tree));
      case Err(tree) =>
        StagedMeans(tree, s.commits[s.head], t.ignored(tree));
        assert RestoreEntry(marked, job.path, Recorded(s.sources, job.path))
          == if LeftPages(s.sources, job.path) then s.sources else s.sources - {job.path};
    }
  }

  lemma CommitsSame(s: Store, a: Store, b: Store, s': Store, tree: Wiki, ignored: Ignored)
    requires WellFormed(s) && a.commits == s.commits && a.head == s.head && Commits(a, b, tree, ignored)
    requires s'.commits == b.commits && s'.head == b.head && s'.worktree == b.worktree
    ensures Commits(s, s', tree, ignored)
  {
    hide IsStaged;
  }

  // ---------------------------------------------------------------- pages and their sources

  /** One of the listed sources has this path. */
  lemma CitesIff(page: Page, path: DocPath)
    requires path != ""
    ensures Cites(page, path) <==>
      && page.Page? && "sources" in page.fields && page.fields["sources"].Sources?
      && exists i :: 0 <= i < |page.fields["sources"].items|
           && "path" in page.fields["sources"].items[i] && page.fields["sources"].items[i]["path"] == F.Str(path)
  {
    if page.Page? && "sources" in page.fields && page.fields["sources"].Sources? {
      var items := page.fields["sources"].items;
      if i :| 0 <= i < |items| && "path" in items[i] && items[i]["path"] == F.Str(path) {
        assert items[i] in Cited(page) && PathOf(items[i]) == path;
      }
    }
  }

  /** The page names another source by its path. */
  ghost predicate SharedWith(page: Page, path: DocPath, other: DocPath) {
    other != "" && other != path && Cites(page, path) && Cites(page, other)
  }

  lemma OnlyCitesIff(page: Page, path: DocPath)
    requires path != ""
    ensures OnlyCites(page, path) <==> Cites(page, path) && forall other :: !SharedWith(page, path, other)
  {
    hide CitedIn, PathOf;
    if Cites(page, path) {
      var rest := Others(Cited(page), path);
      if rest != [] {
        assert rest[0] in rest;
        assert SharedWith(page, path, PathOf(rest[0]));
      }
      if other :| SharedWith(page, path, other) {
        var item :| item in Cited(page) && PathOf(item) == other;
        assert item in rest;
      }
    }
  }

  // ---------------------------------------------------------------- the pages of a retraction

  /** The pages that cite the source and another one. */
  ghost function Shared(w: Wiki, path: DocPath): set<Slug> {
    set slug | slug in w.pages && Cites(w.pages[slug], path) && !OnlyCites(w.pages[slug], path)
  }

  /** The worktree without the pages that cite nothing else. */
  ghost predicate IsDropped(after: Wiki, w: Wiki, path: DocPath) {
    && after.index == w.index && after.other == w.other
    && (forall slug :: slug in after.pages <==> slug in w.pages && !OnlyCites(w.pages[slug], path))
    && (forall slug :: slug in after.pages ==> after.pages[slug] == w.pages[slug])
  }

  /** The model threw, left a page that cites the source, or damaged a page that shared it. */
  ghost predicate FellShort(model: Model, shared: set<Slug>, path: DocPath) {
    || model.Threw?
    || (exists slug :: slug in model.tree.pages && Cites(model.tree.pages[slug], path))
    || (exists slug :: slug in shared && (slug !in model.tree.pages || model.tree.pages[slug].Broken?))
  }

  /** The tree the model leaves, the snapshot put back into it if it threw. */
  ghost function SeenTree(model: Model, shared: set<Slug>, snap: Wiki): Wiki {
    if model.Threw? then RestorePages(model.tree, shared, snap) else model.tree
  }

  /**
   * A page once the snapshot is put back: that of the snapshot for a page that shared the source, and otherwise the
   * model's, if HEAD had the page or git ignores it.
   */
  ghost function BackAt(model: Model, shared: set<Slug>, snap: Wiki, head: Wiki, ignored: Ignored, slug: Slug): Option<Page> {
    if slug in shared then if slug in snap.pages then Some(snap.pages[slug]) else None
    else if slug in model.tree.pages && (slug in head.pages || slug in ignored.pages) then Some(model.tree.pages[slug])
    else None
  }

  lemma BackIs(model: Model, shared: set<Slug>, snap: Wiki, head: Wiki, ignored: Ignored, back: Wiki)
    requires back == RestorePages(DiscardModelOnly(SeenTree(model, shared, snap), head, shared, ignored), shared, snap)
    ensures forall slug :: slug in back.pages <==> BackAt(model, shared, snap, head, ignored, slug).Some?
    ensures forall slug :: slug in back.pages ==> Some(back.pages[slug]) == BackAt(model, shared, snap, head, ignored, slug)
    ensures back.index == snap.index
    ensures forall rel :: rel in back.other <==> rel in model.tree.other && (rel in head.other || rel in ignored.other)
    ensures forall rel :: rel in back.other ==> back.other[rel] == model.tree.other[rel]
  {
  }

  lemma DropOnlyMeans(w: Wiki, path: DocPath)
    ensures IsDropped(DropOnlyCiting(w, path), w, path) && Citing(DropOnlyCiting(w, path), path) == Shared(w, path)
  {
    hide OnlyCites, Cites;
  }

  lemma FellShortIff(model: Model, shared: set<Slug>, snap: Wiki, path: DocPath)
    ensures ModelFellShort(model, SeenTree(model, shared, snap), shared, path) <==> FellShort(model, shared, path)
  {
    hide Cites, RestorePages;
    if model.Answered? {
      if slug :| slug in model.tree.pages && Cites(model.tree.pages[slug], path) {
        assert slug in Citing(model.tree, path);
      }
    }
  }

  /** What is left up to the tidying passes when no page shares the source, and when the model did its work. */
  lemma RetractedPlainly(s: Store, path: DocPath, restricted: bool, t: Turn)
    requires WellFormed(s)
    ensures var shared, r := Shared(s.worktree, path), Retracted(s, path, restricted, t);
      && (shared == {} ==> r.Ok? && r.value.coSources == {} && IsDropped(r.value.tree, s.worktree, path))
      && (shared != {} ==>
            exists dropped :: IsDropped(dropped, s.worktree, path)
              && (r.Err? <==> t.reindex(dropped).Err?)
              && (r.Ok? && !FellShort(t.model, shared, path) ==> r.value == Retraction(t.model.tree, {})))
  {
    hide IsDropped, Cites, OnlyCites, Shared, RestorePages, DropCiting, Detach, CoSources, FellShort, ModelFellShort, DropOnlyCiting;
    var dropped := DropOnlyCiting(s.worktree, path);
    DropOnlyMeans(s.worktree, path);
    var shared, r := Shared(s.worktree, path), Retracted(s, path, restricted, t);
    assert CitingBeforeModel(s, path) == shared;
    if shared != {} {
      assert r.Err? <==> t.reindex(dropped).Err?;
      if r.Ok? {
        var snap := t.reindex(dropped).value;
        FellShortIff(t.model, shared, snap, path);
        assert SeenTree(t.model, shared, snap) == if t.model.Threw? then RestorePages(t.model.tree, shared, snap) else t.model.tree;
        if t.model.Threw? { ThrewFellShort(t.model, shared, path); }
        assert !FellShort(t.model, shared, path) ==> r.value == Retraction(t.model.tree, {});
      }
      assert IsDropped(dropped, s.worktree, path);
    }
  }

  lemma ThrewFellShort(model: Model, shared: set<Slug>, path: DocPath)
    requires model.Threw?
    ensures FellShort(model, shared, path)
  {
  }

  /**
   * A plain delete the model fell short of: every page that is put back and shares the source is rewritten without
   * it, one that cites nothing else goes, every other page stays as it is, and nothing is handed back.
   */
  lemma DeletedIsDetached(s: Store, path: DocPath, t: Turn)
    requires WellFormed(s) && path != "" && F.ReadsTheRest(t.json)
    requires Shared(s.worktree, path) != {} && FellShort(t.model, Shared(s.worktree, path), path)
    requires Retracted(s, path, false, t).Ok?
    ensures exists dropped, snap ::
      && IsDropped(dropped, s.worktree, path) && t.reindex(dropped) == Ok(snap)
      && DetachesAll(s, path, t, snap, Retracted(s, path, false, t).value)
  {
    hide IsDropped, Cites, OnlyCites, Shared, FellShort, ModelFellShort, DropOnlyCiting, RestorePages, DiscardModelOnly, Detach, DetachesAll;
    var shared, dropped := Shared(s.worktree, path), DropOnlyCiting(s.worktree, path);
    DropOnlyMeans(s.worktree, path);
    var snap := t.reindex(dropped).value;
    FellShortIff(t.model, shared, snap, path);
    var seen := SeenTree(t.model, shared, snap);
    var back := RestorePages(DiscardModelOnly(seen, s.commits[s.head], shared, t.ignored(seen)), shared, snap);
    BackIsDetached(s, path, t, snap, back);
    assert IsDropped(dropped, s.worktree, path) && t.reindex(dropped) == Ok(snap);
  }

  /** What a plain delete leaves of the pages put back. */
  ghost predicate DetachesAll(s: Store, path: DocPath, t: Turn, snap: Wiki, r: Retraction)
    requires WellFormed(s)
  {
    var shared, head := Shared(s.worktree, path), s.commits[s.head];
    var ignored := t.ignored(SeenTree(t.model, shared, snap));
    && r.coSources == {}
    && (forall slug ::
          var back := BackAt(t.model, shared, snap, head, ignored, slug);
          && (slug in r.tree.pages <==> back.Some? && !OnlyCites(back.value, path))
          && (slug in r.tree.pages ==>
                if Cites(back.value, path) then IsDetached(back.value, r.tree.pages[slug], path, t.json)
                else r.tree.pages[slug] == back.value))
    && KeepsRest(t.model, snap, head, ignored, r.tree)
  }

  /** The index is that of the snapshot, and the other files are the model's where HEAD has them or git ignores them. */
  ghost predicate KeepsRest(model: Model, snap: Wiki, head: Wiki, ignored: Ignored, tree: Wiki) {
    && tree.index == snap.index
    && (forall rel :: rel in tree.other <==> rel in model.tree.other && (rel in head.other || rel in ignored.other))
    && (forall rel :: rel in tree.other ==> tree.other[rel] == model.tree.other[rel])
  }

  lemma BackIsDetached(s: Store, path: DocPath, t: Turn, snap: Wiki, back: Wiki)
    requires WellFormed(s) && path != "" && F.ReadsTheRest(t.json)
    requires var shared := Shared(s.worktree, path); var seen := SeenTree(t.model, shared, snap);
      back == RestorePages(DiscardModelOnly(seen, s.commits[s.head], shared, t.ignored(seen)), shared, snap)
    ensures DetachesAll(s, path, t, snap, Retraction(Detach(back, path, t.json), {}))
  {
    hide Cites, OnlyCites, Shared, RestorePages, DiscardModelOnly, BackAt, IsDetached, F.ReadsTheRest, Detached;
    var shared := Shared(s.worktree, path);
    var ignored := t.ignored(SeenTree(t.model, shared, snap));
    BackIs(t.model, shared, snap, s.commits[s.head], ignored, back);
    DetachRetracts(back, path, t.json);
  }

  /**
   * A restricted source the model fell short of: every page put back that cites it goes, every other one stays as it
   * is, and exactly the other sources of the pages that went are handed back.
   */
  lemma RestrictedIsDropped(s: Store, path: DocPath, t: Turn)
    requires WellFormed(s) && path != ""
    requires Shared(s.worktree, path) != {} && FellShort(t.model, Shared(s.worktree, path), path)
    requires Retracted(s, path, true, t).Ok?
    ensures exists dropped, snap ::
      && IsDropped(dropped, s.worktree, path) && t.reindex(dropped) == Ok(snap)
      && DropsAll(s, path, t, snap, Retracted(s, path, true, t).value)
  {
    hide IsDropped, Cites, OnlyCites, Shared, FellShort, ModelFellShort, DropOnlyCiting, RestorePages, DiscardModelOnly, DropCiting;
    hide CoSources, DropsAll;
    var shared, dropped := Shared(s.worktree, path), DropOnlyCiting(s.worktree, path);
    DropOnlyMeans(s.worktree, path);
    var snap := t.reindex(dropped).value;
    FellShortIff(t.model, shared, snap, path);
    var seen := SeenTree(t.model, shared, snap);
    var back := RestorePages(DiscardModelOnly(seen, s.commits[s.head], shared, t.ignored(seen)), shared, snap);
    BackIsDropped(s, path, t, snap, back);
    assert IsDropped(dropped, s.worktree, path) && t.reindex(dropped) == Ok(snap);
  }

  ghost predicate DropsAll(s: Store, path: DocPath, t: Turn, snap: Wiki, r: Retraction)
    requires WellFormed(s)
  {
    var shared, head := Shared(s.worktree, path), s.commits[s.head];
    var ignored := t.ignored(SeenTree(t.model, shared, snap));
    && (forall slug ::
          var back := BackAt(t.model, shared, snap, head, ignored, slug);
          && (slug in r.tree.pages <==> back.Some? && !Cites(back.value, path))
          && (slug in r.tree.pages ==> r.tree.pages[slug] == back.value))
    && KeepsRest(t.model, snap, head, ignored, r.tree)
    && (forall other :: other in r.coSources <==>
          exists slug :: var back := BackAt(t.model, shared, snap, head, ignored, slug);
            back.Some? && SharedWith(back.value, path, other))
  }

  lemma BackIsDropped(s: Store, path: DocPath, t: Turn, snap: Wiki, back: Wiki)
    requires WellFormed(s) && path != ""
    requires var shared := Shared(s.worktree, path); var seen := SeenTree(t.model, shared, snap);
      back == RestorePages(DiscardModelOnly(seen, s.commits[s.head], shared, t.ignored(seen)), shared, snap)
    ensures DropsAll(s, path, t, snap, Retraction(DropCiting(back, path), CoSources(back, path)))
  {
    hide Cites, Shared, RestorePages, DiscardModelOnly, BackAt, SharedWith, CoSources;
    var shared, head := Shared(s.worktree, path), s.commits[s.head];
    var ignored := t.ignored(SeenTree(t.model, shared, snap));
    BackIs(t.model, shared, snap, head, ignored, back);
    forall other
      ensures other in CoSources(back, path) <==>
        exists slug :: BackAt(t.model, shared, snap, head, ignored, slug).Some?
          && SharedWith(BackAt(t.model, shared, snap, head, ignored, slug).value, path, other)
    {
      CoSourcesMean(back, path, other);
      if slug :| slug in back.pages && SharedWith(back.pages[slug], path, other) {
        assert BackAt(t.model, shared, snap, head, ignored, slug).Some?;
      }
    }
  }

  lemma CoSourcesMean(w: Wiki, path: DocPath, other: DocPath)
    ensures other in CoSources(w, path) <==> exists slug :: slug in w.pages && SharedWith(w.pages[slug], path, other)
  {
    hide CitedIn, PathOf;
    if slug :| slug in w.pages && SharedWith(w.pages[slug], path, other) {
      var item :| item in Cited(w.pages[slug]) && PathOf(item) == other;
      assert slug in Citing(w, path);
    }
  }

  // ---------------------------------------------------------------- a retraction

  /** The hash of these entries is forgotten, and nothing else changes. */
  ghost predicate Forgets(before: Sources, after: Sources, paths: set<DocPath>) {
    && after.Keys == before.Keys
    && forall path :: path in after ==>
         after[path] == if path in paths then before[path].(sha := None) else before[path]
  }

  /**
   * A retraction of a recorded source succeeds exactly when the pages could be retracted and tidied, no page of the
   * tidied tree cites the source, the validator accepts that tree and the entry has a hash. Then the tree is
   * committed, the source is forgotten, and so are the hashes of the sources handed back. Otherwise it rolls back
   * and the entries stay. A source that is not recorded needs no retraction.
   */
  lemma RetractOneIff(s: Store, job: Job, restricted: bool, t: Turn)
    requires WellFormed(s)
    ensures var (s', attempt) := RetractOne(s, job, restricted, t);
      && (job.path !in s.sources ==> s' == s && attempt == Done({}))
      && (job.path in s.sources ==>
            var r := Retracted(s, job.path, restricted, t);
            && (attempt.Done? <==>
                  && r.Ok? && t.tidy(r.value.tree).Ok?
                  && var tree := t.tidy(r.value.tree).value;
                     && (forall slug :: slug in tree.pages ==> !Cites(tree.pages[slug], job.path))
                     && t.valid(tree) && s.sources[job.path].sha.Some?)
            && (attempt.Done? ==>
                  var tree := t.tidy(r.value.tree).value;
                  && attempt.coSources == r.value.coSources
                  && Commits(s, s', tree, t.ignored(tree)) && s'.saved == s'.sources
                  && Forgets(s.sources - {job.path}, s'.sources, r.value.coSources))
            && (attempt.Failed? ==>
                  var tree := if r.Err? then r.error
                    else if t.tidy(r.value.tree).Err? then t.tidy(r.value.tree).error else t.tidy(r.value.tree).value;
                  RollsBack(s, s', tree, t.ignored(tree)) && s'.saved == s'.sources == s.sources))
  {
    hide Commits, IsStaged, IsReset, Staged, Unstaged, Beside, Retracted, Cites, Forgets, MarkPending;
    if job.path in s.sources {
      var previous := s.sources[job.path];
      var marked := MarkPending(s.sources, Job(Delete, job.path, previous.sha), s.head);
      var pending := Save(s.(sources := marked));
      PendingOnly(s.sources, Job(Delete, job.path, previous.sha), s.head);
      match Committable(s, job.path, restricted, t)
      case Ok(r) =>
        CommitAllMeans(pending, r.tree, t.ignored(r.tree));
        CommitsSame(s, pending, CommitAll(pending.(worktree := r.tree), t.ignored(r.tree)),
                    RetractOne(s, job, restricted, t).0, r.tree, t.ignored(r.tree));
        MarksForget(s.sources - {job.path}, r.coSources);
        assert forall slug :: slug in r.tree.pages && Cites(r.tree.pages[slug], job.path) ==> slug in Citing(r.tree, job.path);
      case Err(tree) =>
        StagedMeans(tree, s.commits[s.head], t.ignored(tree));
        CitingMeans(s, job.path, restricted, t);
    }
  }

  lemma MarksForget(sources: Sources, paths: set<DocPath>)
    ensures Forgets(sources, MarkForRecompile(sources, paths), paths)
  {
  }

  lemma CitingMeans(s: Store, path: DocPath, restricted: bool, t: Turn)
    requires WellFormed(s)
    ensures var r := Retracted(s, path, restricted, t);
      r.Ok? && t.tidy(r.value.tree).Ok? ==>
        var tree := t.tidy(r.value.tree).value;
        Citing(tree, path) == {} <==> forall slug :: slug in tree.pages ==> !Cites(tree.pages[slug], path)
  {
    hide Cites, Retracted;
    var r := Retracted(s, path, restricted, t);
    if r.Ok? && t.tidy(r.value.tree).Ok? {
      var tree := t.tidy(r.value.tree).value;
      assert forall slug :: slug in tree.pages && Cites(tree.pages[slug], path) ==> slug in Citing(tree, path);
    }
  }

  // ---------------------------------------------------------------- after a batch

  /** After an `ok` batch every allowed, unrestricted file on disk is recorded at its hash, with a page. */
  lemma BatchRecordsDisk(o: Orders, ins: Inputs, prefixes: seq<string>, s: Store, turns: nat -> Turn, path: DocPath)
    requires Sound(o) && Steady(s) && AllOk(Batched(o, ins, prefixes, s, turns))
    requires path in ins.docs && !IsRestrictedPath(path, prefixes)
    requires ins.classify(path, ins.docs[path].size).Allowed?
    ensures RecordedAt(Batched(o, ins, prefixes, s, turns).store.sources, path, ins.docs[path].sha)
  {
    hide IsRestrictedPath, Batched, QueueOf, PF.Current;
    var item := Item(path, Some(ins.docs[path].sha), None, ins.classify(path, ins.docs[path].size).priority);
    assert Asked(ins, path, ins.docs[path].size, item.sha);
    CurrentIff(ins, prefixes, item);
    CurrentIsUnchanged(o, ins, prefixes, s, turns, item);
    QueueIff(item, Batched(o, ins, prefixes, s, turns).store.sources);
  }
}
