/**
 * `prepare` and `summarizePreparedRun` (desktop-runner.js): plan, ingest, orphan collection,
 * repair, lint, and whether the result may be published.
 */
module Prepare {
  import opened Text
  import opened SourcePlan
  import opened WikiTree
  import opened WikiIndex
  import opened PageFile
  import opened Quality
  import F = Frontmatter
  import opened QualityTheorems
  import Q = QualityPasses
  import I = Ingest
  import opened IngestItems
  import opened IngestRuns
  import opened IngestTheorems
  import opened Maintainer
  import PL = PlanLaws
  import QL = QualityLaws

  // ---------------------------------------------------------------- after the batch

  /** The store once the orphans are collected, the pages repaired and the result committed. */
  function Tidied(r: Rules, s: I.Store, prefixes: seq<string>, ignored: Wiki -> I.Ignored): Option<I.Store>
    requires Sorts(r.order) && I.WellFormed(s)
  {
    match Gc(r, Real(r), s.worktree, s.saved, prefixes)
    case None => None
    case Some(g) =>
      var marked := I.MarkForRecompile(s.saved, Recompile(s.worktree.pages, s.saved, prefixes));
      match Repair(r, Real(r), g, marked)
      case None => None
      case Some(repaired) => 
        Some(I.CommitAll(s.(worktree := repaired, sources := marked, saved := marked), ignored(repaired)))
  }

  // ---------------------------------------------------------------- the summary

  /** The page files of a tree. */
  function Texts(pages: map<Slug, Page>): map<Slug, string> {
    map slug | slug in pages :: pages[slug].text
  }

  /** The page files of the last published commit, if there is one. */
  function PublishedTexts(published: Option<nat>, commits: seq<Wiki>): map<Slug, string>
    requires published.Some? ==> published.value < |commits|
  {
    if published.None? then map[] else Texts(commits[published.value].pages)
  }

  /** The pages the publish plan creates, updates or deletes: those whose files differ. */
  function ChangedPages(before: map<Slug, string>, after: map<Slug, string>): set<Slug> {
    set slug | slug in before.Keys + after.Keys && !(slug in before && slug in after && before[slug] == after[slug])
  }

  lemma ChangedPagesIff(before: map<Slug, string>, after: map<Slug, string>)
    ensures |ChangedPages(before, after)| > 0 <==> before != after
  {
    if before != after {
      if slug :| slug in before.Keys + after.Keys && !(slug in before && slug in after && before[slug] == after[slug]) {
        assert slug in ChangedPages(before, after);
      }
    }
  }

  datatype Summary = Summary(canPublish: bool, changedPages: nat, lintErrors: seq<LintError>, failures: seq<Failure>)

  predicate EmptySelection(plan: Plan) {
    && plan.add == [] && plan.update == [] && plan.same == [] && plan.denied == {} && plan.blocked == {}
    && plan.delete == [] && plan.restrict == []
  }

  predicate NoneFailed(failures: seq<Failure>, action: Action) {
    forall f :: f in failures ==> f.action != action
  }

  function Summarize(plan: Plan, failures: seq<Failure>, errors: seq<LintError>, before: map<Slug, string>, after: map<Slug, string>): Summary {
    var changed := |ChangedPages(before, after)|;
    Summary(
      !EmptySelection(plan) && errors == [] && NoneFailed(failures, Delete) && NoneFailed(failures, Restrict) && changed > 0,
      changed, errors, failures)
  }

  // ---------------------------------------------------------------- what may be published

  /** Every page is readable and cites only recorded, unrestricted sources, at their recorded hashes. */
  ghost predicate Publishable(w: Wiki, sources: Sources, prefixes: seq<string>) {
    && Readable(w)
    && forall slug, item :: slug in w.pages && item in Visited(w.pages[slug]) ==>
      && IsImported(sources, KeyOf(item))
      && (Truthy(item, "sha256") && RecordedHash(sources, KeyOf(item)).Some? ==>
            item["sha256"] == F.Str(RecordedHash(sources, KeyOf(item)).value))
      && !IsRestrictedPath(KeyOf(item), prefixes)
  }

  lemma TidiedKeepsKeys(r: Rules, s: I.Store, prefixes: seq<string>, ignored: Wiki -> I.Ignored)
    requires Sorts(r.order) && I.Steady(s) && Tidied(r, s, prefixes, ignored).Some?
    ensures var s' := Tidied(r, s, prefixes, ignored).value;
      && I.Steady(s') && s'.sources.Keys == s.sources.Keys && s'.head < |s'.commits|
      && s'.commits[s'.head] == I.Staged(s'.worktree, s.commits[s.head], ignored(s'.worktree))
  {
    hide Gc, Repair, I.Staged, I.Covers;
    var g := Gc(r, Real(r), s.worktree, s.saved, prefixes).value;
    var marked := I.MarkForRecompile(s.saved, Recompile(s.worktree.pages, s.saved, prefixes));
    var repaired := Repair(r, Real(r), g, marked).value;
    CommitAllKeeps(s.(worktree := repaired, sources := marked, saved := marked), ignored(repaired));
  }

  lemma PublishableStaged(w: Wiki, head: Wiki, ignored: I.Ignored, sources: Sources, prefixes: seq<string>)
    requires Publishable(w, sources, prefixes)
    ensures Publishable(I.Staged(w, head, ignored), sources, prefixes)
  {
    hide VisitedIn, RecordedHash, Truthy, KeyOf, IsRestrictedPath;
  }

  /** No page cites a listed prefix itself or anything below it. */
  ghost predicate CitesNothingUnder(w: Wiki, prefixes: seq<string>) {
    forall slug, item, prefix ::
      slug in w.pages && w.pages[slug].Page? && item in Visited(w.pages[slug]) && prefix in prefixes ==>
        !PL.Under(KeyOf(item), prefix)
  }

  lemma PublishableCitesNothing(w: Wiki, sources: Sources, prefixes: seq<string>)
    requires Publishable(w, sources, prefixes)
    ensures CitesNothingUnder(w, prefixes)
  {
    hide VisitedIn, RecordedHash, Truthy, KeyOf, IsRestrictedPath, PL.Under;
    forall slug, item, prefix |
      slug in w.pages && w.pages[slug].Page? && item in Visited(w.pages[slug]) && prefix in prefixes
      ensures !PL.Under(KeyOf(item), prefix)
    {
      PL.RestrictedIff(KeyOf(item), prefixes);
    }
  }

  /**
   * After tidying, a source is recorded without its hash if it lost a page to a restricted path, and exactly as it
   * was otherwise.
   */
  lemma TidyingMarks(r: Rules, s: I.Store, prefixes: seq<string>, ignored: Wiki -> I.Ignored, path: DocPath)
    requires Sorts(r.order) && I.Steady(s) && Tidied(r, s, prefixes, ignored).Some?
    ensures var sources := Tidied(r, s, prefixes, ignored).value.sources;
      && (path in sources <==> path in s.sources)
      && (path in sources ==>
            sources[path] == if QL.LosesPage(s.worktree.pages, s.sources, prefixes, path) then s.sources[path].(sha := None)
                             else s.sources[path])
  {
    hide Gc, Repair, I.Staged, I.Covers, QL.LosesPage, Recompile;
    QL.RecompileIff(s.worktree.pages, s.sources, prefixes, path);
  }

  /** Such a source is compiled again by the next run: if its file is still allowed, the next plan updates it. */
  lemma LostIsUpdated(
      o: Orders, ins: Inputs, prefixes: seq<string>, r: Rules, s: I.Store, ignored: Wiki -> I.Ignored, path: DocPath)
    requires Sound(o) && Sorts(r.order) && I.Steady(s) && Tidied(r, s, prefixes, ignored).Some?
    requires QL.LosesPage(s.worktree.pages, s.sources, prefixes, path)
    requires path in ins.docs && ins.classify(path, ins.docs[path].size).Allowed?
    ensures var item := Item(path, Some(ins.docs[path].sha), None, ins.classify(path, ins.docs[path].size).priority);
      item in PlanOf(o, ins, prefixes, Tidied(r, s, prefixes, ignored).value.sources).update
  {
    hide Tidied, PlanOf, IsRestrictedPath;
    TidyingMarks(r, s, prefixes, ignored, path);
    PL.ChangedIsUpdated(o, ins, prefixes, Tidied(r, s, prefixes, ignored).value.sources, path,
                        ins.classify(path, ins.docs[path].size).priority);
  }

  /**
   * End-to-end restriction: whatever the compiler wrote into the worktree, if no restriction
   * failed and lint has nothing to report, the worktree and the committed wiki cite no source under
   * a restricted prefix and nothing that is not recorded at the cited hash.
   */
  lemma EndToEndRestriction(
      o: Orders, r: Rules, ins: Inputs, prefixes: seq<string>, s: I.Store, turns: nat -> I.Turn, ignored: Wiki -> I.Ignored)
    requires Sound(o) && Sorts(r.order) && I.Steady(s)
    requires RestrictsSucceeded(Batched(o, ins, prefixes, s, turns))
    requires Tidied(r, Batched(o, ins, prefixes, s, turns).store, prefixes, ignored).Some?
    requires var s' := Tidied(r, Batched(o, ins, prefixes, s, turns).store, prefixes, ignored).value;
      forall e :: !IsLintError(r, s'.worktree, s'.sources, e)
    ensures var s' := Tidied(r, Batched(o, ins, prefixes, s, turns).store, prefixes, ignored).value;
      && I.Steady(s') && Publishable(s'.worktree, s'.sources, prefixes)
      && Publishable(s'.commits[s'.head], s'.sources, prefixes)
      && CitesNothingUnder(s'.worktree, prefixes) && CitesNothingUnder(s'.commits[s'.head], prefixes)
  {
    hide Tidied, IsLintError, Publishable, CitesNothingUnder, IsRestrictedPath;
    var b := Batched(o, ins, prefixes, s, turns);
    var s' := Tidied(r, b.store, prefixes, ignored).value;
    TidiedKeepsKeys(r, b.store, prefixes, ignored);
    forall path | path in s'.sources ensures !IsRestrictedPath(path, prefixes) {
      if IsRestrictedPath(path, prefixes) {
        NoRestrictedSourceLeft(o, ins, prefixes, s, turns, path);
      }
    }
    LintedIsPublishable(r, s'.worktree, s'.sources, prefixes);
    PublishableStaged(s'.worktree, b.store.commits[b.store.head], ignored(s'.worktree), s'.sources, prefixes);
    PublishableCitesNothing(s'.worktree, s'.sources, prefixes);
    PublishableCitesNothing(s'.commits[s'.head], s'.sources, prefixes);
  }

  /** Without a lint error and without a restricted source on record, the pages may be published. */
  lemma LintedIsPublishable(r: Rules, w: Wiki, sources: Sources, prefixes: seq<string>)
    requires forall e :: !IsLintError(r, w, sources, e)
    requires forall path :: path in sources ==> !IsRestrictedPath(path, prefixes)
    ensures Publishable(w, sources, prefixes)
  {
    hide IsLintError, VisitedIn, RecordedHash, Truthy, KeyOf, IsRestrictedPath;
    LintMeansRecorded(r, w, sources);
  }

  /** A recorded source that is neither restricted nor listed by the team, nor an allowed or unchecked file on disk. */
  ghost predicate IsGone(ins: Inputs, prefixes: seq<string>, sources: Sources, path: DocPath) {
    && path in sources && !IsRestrictedPath(path, prefixes) && !PL.IsKnown(ins.known, path)
    && (path in ins.docs ==>
          var verdict := ins.classify(path, ins.docs[path].size); !verdict.Allowed? && !verdict.Ignored?)
  }

  lemma EmptyIff<T>(q: seq<T>)
    ensures q == [] <==> forall x :: x !in q
  {
    if q != [] {
      assert q[0] in q;
    }
  }

  lemma NoneIff<T(!new)>(s: set<T>)
    ensures s == {} <==> forall x :: x !in s
  {
  }

  lemma NoImportsIff(o: Orders, ins: Inputs, prefixes: seq<string>, sources: Sources)
    requires Sound(o)
    ensures var plan := PlanOf(o, ins, prefixes, sources);
      plan.add == [] && plan.update == [] && plan.same == []
      <==> forall item :: PL.IsAllowed(ins, prefixes, item) ==> item.path !in ins.docs
  {
    var plan := PlanOf(o, ins, prefixes, sources);
    hide PlanOf, PL.IsAllowed, PL.RecordedAt;
    EmptyIff(plan.add);
    EmptyIff(plan.update);
    EmptyIff(plan.same);
    forall item: Item
      ensures item in plan.add || item in plan.update || item in plan.same <==>
              PL.IsAllowed(ins, prefixes, item) && item.path in ins.docs
    {
      PL.ImportListsMean(o, ins, prefixes, sources, item);
    }
  }

  lemma NoRefusalsIff(o: Orders, ins: Inputs, prefixes: seq<string>, sources: Sources)
    ensures var plan := PlanOf(o, ins, prefixes, sources);
      plan.denied == {} && plan.blocked == {}
      <==> forall path :: !PL.Judged(ins, prefixes, path, Denied) && !PL.Judged(ins, prefixes, path, Blocked)
  {
    var plan := PlanOf(o, ins, prefixes, sources);
    hide PlanOf, PL.Judged;
    NoneIff(plan.denied);
    NoneIff(plan.blocked);
    forall path
      ensures path in plan.denied <==> PL.Judged(ins, prefixes, path, Denied)
      ensures path in plan.blocked <==> PL.Judged(ins, prefixes, path, Blocked)
    {
      PL.RefusedListsMean(o, ins, prefixes, sources, path);
    }
  }

  lemma NoRetractsIff(o: Orders, ins: Inputs, prefixes: seq<string>, sources: Sources)
    requires Sound(o)
    ensures var plan := PlanOf(o, ins, prefixes, sources);
      plan.delete == [] && plan.restrict == []
      <==> forall path :: path in sources ==> !IsRestrictedPath(path, prefixes) && !IsGone(ins, prefixes, sources, path)
  {
    var plan := PlanOf(o, ins, prefixes, sources);
    hide PlanOf, IsRestrictedPath, PL.IsKnown, IsGone;
    EmptyIff(plan.delete);
    EmptyIff(plan.restrict);
    forall gone: Gone
      ensures gone in plan.restrict ==> gone.path in sources && IsRestrictedPath(gone.path, prefixes)
      ensures gone in plan.delete ==> gone.path in sources && IsGone(ins, prefixes, sources, gone.path)
    {
      RetractListed(o, ins, prefixes, sources, gone);
    }
    forall path | path in sources
      ensures IsRestrictedPath(path, prefixes) ==> Gone(path, sources[path].sha) in plan.restrict
      ensures IsGone(ins, prefixes, sources, path) ==> Gone(path, sources[path].sha) in plan.delete
    {
      RetractListed(o, ins, prefixes, sources, Gone(path, sources[path].sha));
    }
  }

  lemma RetractListed(o: Orders, ins: Inputs, prefixes: seq<string>, sources: Sources, gone: Gone)
    requires Sound(o)
    ensures var plan := PlanOf(o, ins, prefixes, sources);
      && (gone in plan.restrict <==>
            gone.path in sources && gone.sha == sources[gone.path].sha && IsRestrictedPath(gone.path, prefixes))
      && (gone in plan.delete <==>
            gone.path in sources && gone.sha == sources[gone.path].sha && IsGone(ins, prefixes, sources, gone.path))
  {
    hide PlanOf, IsRestrictedPath, PL.IsKnown;
    PL.RetractListsMean(o, ins, prefixes, sources, gone.path, gone.sha);
  }

  /**
   * Nothing was selected exactly when no allowed file is on disk, nothing is denied or blocked, and no recorded
   * source is restricted or gone.
   */
  lemma SelectionIff(o: Orders, ins: Inputs, prefixes: seq<string>, sources: Sources)
    requires Sound(o)
    ensures EmptySelection(PlanOf(o, ins, prefixes, sources)) <==>
            && (forall item :: PL.IsAllowed(ins, prefixes, item) ==> item.path !in ins.docs)
            && (forall path :: !PL.Judged(ins, prefixes, path, Denied) && !PL.Judged(ins, prefixes, path, Blocked))
            && (forall path :: path in sources ==> !IsRestrictedPath(path, prefixes) && !IsGone(ins, prefixes, sources, path))
  {
    hide PlanOf, PL.IsAllowed, PL.Judged, IsRestrictedPath, IsGone;
    NoImportsIff(o, ins, prefixes, sources);
    NoRefusalsIff(o, ins, prefixes, sources);
    NoRetractsIff(o, ins, prefixes, sources);
  }

  // ---------------------------------------------------------------- the run

  /** `prepare`, from the dry run to the summary; an unreadable index or an illegal plan ends it. */
  method Prepare(
      m: Maintainer, r: Rules, ins: Inputs, turns: nat -> I.Turn, ignored: Wiki -> I.Ignored, published: Option<nat>)
    returns (summary: Option<Summary>)
    requires Sound(m.o) && Sorts(r.order) && I.Steady(m.View())
    requires published.Some? ==> published.value < |m.commits|
    modifies m
    ensures summary.Some? ==>
      && DryRunResult(m.o, ins, old(m.sources)).Ok?
      && I.Steady(m.View())
      && var prefixes := DocumentPrefixes(ins.acl.value);
        && Tidied(r, Batched(m.o, ins, prefixes, old(m.View()), turns).store, prefixes, ignored) == Some(m.View())
        && (forall e :: e in summary.value.lintErrors <==> IsLintError(r, m.worktree, m.sources, e))
        && var b := Batched(m.o, ins, prefixes, old(m.View()), turns);
        && summary.value.failures == FailuresOf(b.line.queue, b.oks)
        && (summary.value.canPublish <==>
              && !EmptySelection(PlanOf(m.o, ins, prefixes, old(m.sources)))
              && (forall e :: !IsLintError(r, m.worktree, m.sources, e))
              && (forall f :: f in summary.value.failures ==> f.action != Delete && f.action != Restrict)
              && Texts(m.commits[m.head].pages) != old(PublishedTexts(published, m.commits)))
        && ((forall e :: !IsLintError(r, m.worktree, m.sources, e)) && NoneFailed(summary.value.failures, Restrict) ==>
              Publishable(m.commits[m.head], m.sources, prefixes) && CitesNothingUnder(m.commits[m.head], prefixes))
  {
    hide IsLintError, PlanOf, Publishable, CitesNothingUnder, FailuresOf, PublishedTexts, Texts, Repair, Gc;
    ghost var s := m.View();
    var base := PublishedTexts(published, m.commits);
    var report := m.IngestBatch(ins, turns);
    if report.Err? || report.value.cancelled {
      return None;
    }
    var prefixes := DocumentPrefixes(ins.acl.value);
    ghost var b := Batched(m.o, ins, prefixes, s, turns);
    var collected, recompile := Q.GcOrphanPages(r, m.worktree, m.saved, prefixes);
    if collected.None? {
      return None;
    }
    var marked := I.MarkForRecompile(m.saved, recompile);
    var repaired := Q.RepairWiki(r, collected.value, marked);
    if repaired.None? {
      return None;
    }
    m.worktree, m.sources := repaired.value, marked;
    m.SaveState();
    var _ := m.CommitAll(ignored(m.worktree));
    TidiedKeepsKeys(r, b.store, prefixes, ignored);
    var errors := Q.LintBatch(r, m.worktree, m.sources);
    var result := Summarize(report.value.plan, report.value.failures, errors, base, Texts(m.commits[m.head].pages));
    ChangedPagesIff(base, Texts(m.commits[m.head].pages));
    assert errors == [] <==> forall e :: e !in errors by {
      assert errors != [] ==> errors[0] in errors;
    }
    if errors == [] && NoneFailed(report.value.failures, Restrict) {
      NoFailedRestriction(m.o, ins, prefixes, s, turns);
      EndToEndRestriction(m.o, r, ins, prefixes, s, turns, ignored);
    }
    return Some(result);
  }

  /** A batch that ran to its end without reporting a failed restriction had none. */
  lemma NoFailedRestriction(o: Orders, ins: Inputs, prefixes: seq<string>, s: I.Store, turns: nat -> I.Turn)
    requires Sound(o) && I.Steady(s)
    requires var b := Batched(o, ins, prefixes, s, turns);
      !b.aborted && NoneFailed(FailuresOf(b.line.queue, b.oks), Restrict)
    ensures RestrictsSucceeded(Batched(o, ins, prefixes, s, turns))
  {
    var b := Batched(o, ins, prefixes, s, turns);
    BatchQueue(o, ins, prefixes, s, turns);
    NoFailuresIff(b.line.queue, b.oks);
    assert forall j :: 0 <= j < b.index && !b.oks[j] ==>
      Failure(b.line.queue[j].path, b.line.queue[j].action) in FailuresOf(b.line.queue, b.oks);
  }
}
