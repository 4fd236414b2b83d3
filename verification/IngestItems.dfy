/** What one queue item keeps: it commits, or it leaves no trace but files that git ignores. */
module IngestItems {
  import opened Text
  import opened SourcePlan
  import opened WikiTree
  import opened Ingest

  /** HEAD did not move. */
  ghost predicate SameHead(s: Store, s': Store) {
    && s.head < |s.commits| && s'.head == s.head
    && |s.commits| <= |s'.commits| && s'.commits[..|s.commits|] == s.commits
  }

  /** Older commits are never rewritten. */
  ghost predicate Grown(s: Store, s': Store) {
    |s.commits| <= |s'.commits| && s'.commits[..|s.commits|] == s.commits
  }

  /** A fresh import of this hash. */
  ghost predicate Fresh(e: Entry, sha: Option<Hash>) {
    e.imported && e.sha == sha && e.sha.Some? && e.pages.Some? && e.pages.value != []
  }

  lemma CommitAllKeeps(s: Store, ignored: Ignored)
    requires WellFormed(s)
    ensures var s' := CommitAll(s, ignored);
      && WellFormed(s') && Grown(s, s') && s'.worktree == s.worktree && s'.sources == s.sources && s'.saved == s.saved
      && s'.commits[s'.head] == Staged(s.worktree, s.commits[s.head], ignored)
      && Covers(s'.worktree, s'.commits[s'.head])
  {
  }

  lemma ResetHardKeeps(s: Store, ignored: Ignored)
    requires WellFormed(s)
    ensures var s' := ResetHard(s, s.head, ignored);
      && WellFormed(s') && s'.head == s.head && s'.commits == s.commits && s'.sources == s.sources && s'.saved == s.saved
      && Covers(s'.worktree, s'.commits[s'.head])
  {
  }

  /** Everything is staged exactly when git ignores no untracked file. */
  lemma StagedIff(w: Wiki, head: Wiki, ignored: Ignored)
    ensures Staged(w, head, ignored) == w <==> Unstaged(w, head, ignored) == NO_FILES
  {
    var staged, left := Staged(w, head, ignored), Unstaged(w, head, ignored);
    assert forall slug :: slug in w.pages ==> (slug in staged.pages <==> slug !in left.pages);
    assert forall rel :: rel in w.other ==> (rel in staged.other <==> rel !in left.other);
    if left == NO_FILES {
      assert staged.pages == w.pages && staged.other == w.other;
    }
    if staged == w {
      assert left.pages == map[] && left.other == map[];
    }
  }

  /** A reset leaves the commit alone exactly when git ignores no untracked file. */
  lemma BesideIff(w: Wiki, head: Wiki, ignored: Ignored)
    ensures Beside(head, Unstaged(w, head, ignored)) == head <==> Unstaged(w, head, ignored) == NO_FILES
  {
    var left := Unstaged(w, head, ignored);
    var all := Beside(head, left);
    assert forall slug :: slug in left.pages ==> slug in all.pages && slug !in head.pages;
    assert forall rel :: rel in left.other ==> rel in all.other && rel !in head.other;
    if all == head {
      assert left.pages == map[] && left.other == map[];
    }
    if left == NO_FILES {
      assert all.pages == head.pages && all.other == head.other;
    }
  }

  /** A failed import of a source without imported pages forgets it, unless it failed before it began. */
  ghost function AfterFailedImport(s: Store, job: Job, t: Turn): Sources {
    if !t.extraction.Accepted? || Restorable(Recorded(s.sources, job.path)) then s.sources
    else s.sources - {job.path}
  }

  /** An add or update: a fresh entry and a commit, or nothing but its own entry changed. */
  lemma IngestOneAtomic(s: Store, job: Job, t: Turn)
    requires Steady(s)
    ensures var (s', ok) := IngestOne(s, job, t);
      && Steady(s') && Grown(s, s')
      && (ok ==> job.path in s'.sources && Fresh(s'.sources[job.path], job.sha))
      && (ok ==> s'.sources == s.sources[job.path := s'.sources[job.path]])
      && (!ok ==> SameHead(s, s') && s'.sources == AfterFailedImport(s, job, t))
  {
    hide Staged, Unstaged, Covers;
    if t.extraction.Accepted? {
      var pending := Save(s.(sources := MarkPending(s.sources, job, s.head)));
      match Compiled(job, t)
      case Ok(tree) =>
        CommitAllKeeps(pending.(worktree := tree), t.ignored(tree));
        var committed := CommitAll(pending.(worktree := tree), t.ignored(tree));
        var entry := Imported(job, t.extraction.cacheKey, t.model.affected, committed.head);
        assert MarkPending(s.sources, job, s.head)[job.path := entry] == s.sources[job.path := entry];
      case Err(tree) =>
        var previous := Recorded(s.sources, job.path);
        ResetHardKeeps(pending.(worktree := tree), t.ignored(tree));
        assert RestoreEntry(MarkPending(s.sources, job, s.head), job.path, previous)
          == if Restorable(previous) then s.sources else s.sources - {job.path};
    }
  }

  /** A retraction: the source is gone from state and wiki, or HEAD and the state did not change at all. */
  lemma RetractOneAtomic(s: Store, job: Job, restricted: bool, t: Turn)
    requires Steady(s)
    ensures var (s', attempt) := RetractOne(s, job, restricted, t);
      && Steady(s') && Grown(s, s')
      && (attempt.Failed? ==> SameHead(s, s') && s'.sources == s.sources)
      && (attempt.Done? && job.path !in s.sources ==> s' == s && attempt.coSources == {})
      && (attempt.Done? ==> s'.sources == MarkForRecompile(s.sources - {job.path}, attempt.coSources))
      && (attempt.Done? && job.path in s.sources ==>
            Citing(s'.worktree, job.path) == {} && Citing(s'.commits[s'.head], job.path) == {})
      && (attempt.Done? && !restricted ==> attempt.coSources == {})
  {
    hide Unstaged, Covers, Cites, MarkPending, Retracted;
    if job.path !in s.sources {
      assert MarkForRecompile(s.sources - {job.path}, {}) == s.sources;
    } else {
      var previous := s.sources[job.path];
      var marked := MarkPending(s.sources, Job(Delete, job.path, previous.sha), s.head);
      var pending := Save(s.(sources := marked));
      PendingOnly(s.sources, Job(Delete, job.path, previous.sha), s.head);
      HandsNothing(s, job.path, t);
      match Committable(s, job.path, restricted, t)
      case Ok(r) =>
        CommitAllKeeps(pending.(worktree := r.tree), t.ignored(r.tree));
        StagedCites(r.tree, s.commits[s.head], t.ignored(r.tree), job.path);
      case Err(tree) =>
        ResetHardKeeps(pending.(worktree := tree), t.ignored(tree));
    }
  }

  /** Only a restricted source hands other sources back. */
  lemma HandsNothing(s: Store, path: DocPath, t: Turn)
    requires WellFormed(s)
    ensures Retracted(s, path, false, t).Ok? ==> Retracted(s, path, false, t).value.coSources == {}
  {
  }

  lemma PendingOnly(sources: Sources, job: Job, commit: nat)
    requires job.path in sources
    ensures var marked := MarkPending(sources, job, commit);
      marked - {job.path} == sources - {job.path} && marked[job.path := sources[job.path]] == sources
  {
  }

  lemma StagedCites(w: Wiki, head: Wiki, ignored: Ignored, path: DocPath)
    requires Citing(w, path) == {}
    ensures Citing(Staged(w, head, ignored), path) == {}
  {
    hide Cites;
    var staged := Staged(w, head, ignored);
    assert forall slug :: slug in Citing(staged, path) ==> slug in Citing(w, path);
  }

  /** Either kind of item keeps a steady store steady; a failed one leaves HEAD and every other entry. */
  lemma RunJobAtomic(s: Store, job: Job, t: Turn)
    requires Steady(s)
    ensures var (s', attempt) := RunJob(s, job, t);
      && Steady(s') && Grown(s, s')
      && (attempt.Failed? ==> SameHead(s, s') && (s'.sources == s.sources || s'.sources == s.sources - {job.path}))
      && (attempt.Failed? && s'.sources != s.sources ==> !Restorable(Recorded(s.sources, job.path)))
  {
    hide Steady, IngestOne, RetractOne, Grown;
    if job.action.Add? || job.action.Update? {
      IngestOneAtomic(s, job, t);
    } else {
      RetractOneAtomic(s, job, job.action.Restrict?, t);
    }
  }

  // ---------------------------------------------------------------- what git leaves behind

  /** The worktree git commits or resets at the end of an item; none if it ends before it changes anything. */
  function EndTree(s: Store, job: Job, t: Turn): Option<Wiki>
    requires WellFormed(s)
  {
    if job.action.Add? || job.action.Update? then
      if !t.extraction.Accepted? then None
      else
        match Compiled(job, t)
        case Ok(tree) => Some(tree)
        case Err(tree) => Some(tree)
    else if job.path !in s.sources then None
    else
      match Committable(s, job.path, job.action.Restrict?, t)
      case Ok(r) => Some(r.tree)
      case Err(tree) => Some(tree)
  }

  lemma IngestEnds(s: Store, job: Job, t: Turn)
    requires WellFormed(s) && t.extraction.Accepted?
    ensures var (s', ok) := IngestOne(s, job, t);
      match Compiled(job, t)
      case Ok(tree) => s'.worktree == tree && WellFormed(s') && s'.commits[s'.head] == Staged(tree, s.commits[s.head], t.ignored(tree))
      case Err(tree) =>
        && s'.worktree == Beside(s.commits[s.head], Unstaged(tree, s.commits[s.head], t.ignored(tree)))
        && WellFormed(s') && s'.commits[s'.head] == s.commits[s.head]
  {
    hide Staged, Unstaged, Compiled, RestoreEntry, MarkPending;
  }

  lemma RetractEnds(s: Store, job: Job, restricted: bool, t: Turn)
    requires WellFormed(s) && job.path in s.sources
    ensures var (s', attempt) := RetractOne(s, job, restricted, t);
      match Committable(s, job.path, restricted, t)
      case Ok(r) =>
        && s'.worktree == r.tree && WellFormed(s')
        && s'.commits[s'.head] == Staged(r.tree, s.commits[s.head], t.ignored(r.tree))
      case Err(tree) =>
        && s'.worktree == Beside(s.commits[s.head], Unstaged(tree, s.commits[s.head], t.ignored(tree)))
        && WellFormed(s') && s'.commits[s'.head] == s.commits[s.head]
  {
    hide Staged, Unstaged, Committable, MarkForRecompile, MarkPending;
  }

  /**
   * After an item the worktree is the commit exactly when, in the tree the item ended with, git
   * ignored no file that HEAD did not have; whether it succeeded or failed makes no difference.
   */
  lemma ItemIsCleanIff(s: Store, job: Job, t: Turn)
    requires Steady(s)
    ensures Clean(RunJob(s, job, t).0) <==>
      match EndTree(s, job, t)
      case None => Clean(s)
      case Some(tree) => Unstaged(tree, s.commits[s.head], t.ignored(tree)) == NO_FILES
  {
    hide Staged, Unstaged, Compiled, Committable, IngestOne, RetractOne, Grown, Covers;
    RunJobAtomic(s, job, t);
    match EndTree(s, job, t)
    case None => NothingHappens(s, job, t);
    case Some(tree) =>
      StagedIff(tree, s.commits[s.head], t.ignored(tree));
      BesideIff(tree, s.commits[s.head], t.ignored(tree));
      if job.action.Add? || job.action.Update? {
        IngestEnds(s, job, t);
      } else {
        RetractEnds(s, job, job.action.Restrict?, t);
      }
  }

  lemma NothingHappens(s: Store, job: Job, t: Turn)
    requires WellFormed(s) && EndTree(s, job, t).None?
    ensures RunJob(s, job, t).0 == s
  {
    hide Compiled, Committable;
  }

  /** The worktree the model's answer leaves, with the snapshot put back after a throw. */
  ghost function Seen(s: Store, path: DocPath, t: Turn): Wiki
    requires t.reindex(DropOnlyCiting(s.worktree, path)).Ok?
  {
    var snap := t.reindex(DropOnlyCiting(s.worktree, path)).value;
    if t.model.Threw? then RestorePages(t.model.tree, CitingBeforeModel(s, path), snap) else t.model.tree
  }

  /** The pages citing the source as the snapshot has them: the index rebuild may have reprinted them. */
  ghost function Snapshot(s: Store, path: DocPath, t: Turn): Wiki
    requires t.reindex(DropOnlyCiting(s.worktree, path)).Ok?
  {
    t.reindex(DropOnlyCiting(s.worktree, path)).value
  }

  /**
   * A restricted source leaves no page behind that cites it. Where the model fell short, the pages
   * whose snapshot cites it are gone whole, every other source of theirs is handed back to be
   * compiled again, and no other page of the snapshot goes.
   */
  lemma RestrictedPagesAreDropped(s: Store, path: DocPath, t: Turn)
    requires WellFormed(s) && Retracted(s, path, true, t).Ok?
    ensures var r, slugs := Retracted(s, path, true, t).value, CitingBeforeModel(s, path);
      && Citing(r.tree, path) == {}
      && (slugs != {} && ModelFellShort(t.model, Seen(s, path, t), slugs, path) ==>
        var snap := Snapshot(s, path, t);
        forall slug :: slug in slugs ==>
          && (slug in r.tree.pages <==> slug in snap.pages && !Cites(snap.pages[slug], path))
          && (slug in snap.pages && Cites(snap.pages[slug], path) ==>
                forall item :: item in Cited(snap.pages[slug]) && PathOf(item) != "" && PathOf(item) != path ==>
                  PathOf(item) in r.coSources))
  {
    hide Cites;
    var slugs := CitingBeforeModel(s, path);
    if slugs != {} && ModelFellShort(t.model, Seen(s, path, t), slugs, path) {
      var snap := Snapshot(s, path, t);
      var back := RestorePages(DiscardModelOnly(Seen(s, path, t), s.commits[s.head], slugs, t.ignored(Seen(s, path, t))), slugs, snap);
      assert Retracted(s, path, true, t).value == Retraction(DropCiting(back, path), CoSources(back, path));
      assert forall slug :: slug in slugs ==> (slug in back.pages <==> slug in snap.pages);
      assert forall slug :: slug in slugs && slug in snap.pages ==> back.pages[slug] == snap.pages[slug];
    }
  }
}
