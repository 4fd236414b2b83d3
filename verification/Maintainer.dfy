/**
 * `ingestBatch` (ingest.js, git-store.js) in its own form: the repository, the worktree and the
 * recorded sources are fields that each step changes, and the queue is spliced while its loop runs.
 */
module Maintainer {
  import opened Text
  import opened SourcePlan
  import opened WikiTree
  import opened PageFile
  import F = Frontmatter
  import I = Ingest
  import opened IngestItems
  import opened IngestRuns
  import opened IngestTheorems
  import D = DryRun

  datatype Failure = Failure(path: DocPath, action: Action)

  datatype Report = Report(plan: Plan, failures: seq<Failure>, cancelled: bool)

  ghost function FailuresOf(queue: seq<I.Job>, oks: seq<bool>): seq<Failure>
    requires |oks| <= |queue|
  {
    if oks == [] then []
    else
      var last := |oks| - 1;
      FailuresOf(queue, oks[..last]) + if oks[last] then [] else [Failure(queue[last].path, queue[last].action)]
  }

  lemma {:induction false} FailuresPrefix(queue: seq<I.Job>, queue': seq<I.Job>, oks: seq<bool>)
    requires |oks| <= |queue| && |oks| <= |queue'|
    requires forall k :: 0 <= k < |oks| ==> queue'[k] == queue[k]
    ensures FailuresOf(queue', oks) == FailuresOf(queue, oks)
  {
    if oks != [] {
      FailuresPrefix(queue, queue', oks[..|oks| - 1]);
    }
  }

  ghost predicate FailedAt(queue: seq<I.Job>, oks: seq<bool>, k: nat, f: Failure)
    requires |oks| <= |queue|
  {
    k < |oks| && !oks[k] && f == Failure(queue[k].path, queue[k].action)
  }

  lemma {:induction false} FailuresAre(queue: seq<I.Job>, oks: seq<bool>, f: Failure)
    requires |oks| <= |queue|
    ensures f in FailuresOf(queue, oks) <==> exists k: nat :: FailedAt(queue, oks, k, f)
  {
    if oks != [] {
      var last := |oks| - 1;
      var front := oks[..last];
      FailuresAre(queue, front, f);
      assert forall k: nat :: k < last ==> (FailedAt(queue, oks, k, f) <==> FailedAt(queue, front, k, f));
      assert FailedAt(queue, oks, last, f) <==> !oks[last] && f == Failure(queue[last].path, queue[last].action);
      if k: nat :| FailedAt(queue, front, k, f) {
        assert FailedAt(queue, oks, k, f);
      }
    }
  }

  /** The reported failures are exactly those of the finished jobs that failed; none if all succeeded. */
  lemma NoFailuresIff(queue: seq<I.Job>, oks: seq<bool>)
    requires |oks| <= |queue|
    ensures forall f :: f in FailuresOf(queue, oks) <==> exists k: nat :: FailedAt(queue, oks, k, f)
    ensures forall k :: 0 <= k < |oks| && !oks[k] ==> Failure(queue[k].path, queue[k].action) in FailuresOf(queue, oks)
    ensures FailuresOf(queue, oks) == [] <==> forall k :: 0 <= k < |oks| ==> oks[k]
  {
    hide FailuresOf;
    forall f ensures f in FailuresOf(queue, oks) <==> exists k: nat :: FailedAt(queue, oks, k, f) {
      FailuresAre(queue, oks, f);
    }
    forall k | 0 <= k < |oks| && !oks[k] ensures Failure(queue[k].path, queue[k].action) in FailuresOf(queue, oks) {
      assert FailedAt(queue, oks, k, Failure(queue[k].path, queue[k].action));
    }
    if FailuresOf(queue, oks) != [] {
      assert FailuresOf(queue, oks)[0] in FailuresOf(queue, oks);
      var k: nat :| FailedAt(queue, oks, k, FailuresOf(queue, oks)[0]);
    }
  }

  // -------------------------------------------------------------- page loops

  method PagesStillCiting(names: seq<Slug>, w: Wiki, path: DocPath) returns (slugs: set<Slug>)
    requires Lists(names, w.pages.Keys)
    ensures slugs == Citing(w, path)
  {
    slugs := {};
    for i := 0 to |names|
      invariant slugs == set slug | slug in names[..i] && slug in w.pages && Cites(w.pages[slug], path)
    {
      assert names[..i + 1] == names[..i] + [names[i]];
      if Cites(w.pages[names[i]], path) {
        slugs := slugs + {names[i]};
      }
    }
    assert names[..|names|] == names;
  }

  function OnlyCitingSoFar(w: Wiki, names: seq<Slug>, path: DocPath): map<Slug, Page> {
    map slug | slug in w.pages && !(slug in names && OnlyCites(w.pages[slug], path)) :: w.pages[slug]
  }

  lemma OnlyCitingStep(w: Wiki, names: seq<Slug>, slug: Slug, path: DocPath)
    requires slug in w.pages
    ensures OnlyCitingSoFar(w, names + [slug], path)
         == if OnlyCites(w.pages[slug], path) then OnlyCitingSoFar(w, names, path) - {slug} else OnlyCitingSoFar(w, names, path)
  {
    hide OnlyCites;
  }

  method DropPagesOnlyCiting(names: seq<Slug>, w: Wiki, path: DocPath) returns (r: Wiki)
    requires Lists(names, w.pages.Keys)
    ensures r == DropOnlyCiting(w, path)
  {
    hide OnlyCites;
    var pages := w.pages;
    assert pages == OnlyCitingSoFar(w, [], path);
    for i := 0 to |names|
      invariant pages == OnlyCitingSoFar(w, names[..i], path)
    {
      assert names[..i + 1] == names[..i] + [names[i]];
      OnlyCitingStep(w, names[..i], names[i], path);
      if OnlyCites(w.pages[names[i]], path) {
        pages := pages - {names[i]};
      }
    }
    assert names[..|names|] == names;
    r := w.(pages := pages);
  }

  function CitingSoFar(w: Wiki, names: seq<Slug>, path: DocPath): map<Slug, Page> {
    map slug | slug in w.pages && !(slug in names && Cites(w.pages[slug], path)) :: w.pages[slug]
  }

  function OtherPaths(page: Page, path: DocPath): set<DocPath>
    requires page.Page?
  {
    set item | item in Cited(page) && PathOf(item) != "" && PathOf(item) != path :: PathOf(item)
  }

  function CoSourcesSoFar(w: Wiki, names: seq<Slug>, path: DocPath): set<DocPath> {
    set slug, item | slug in names && slug in Citing(w, path) && item in Cited(w.pages[slug])
                     && PathOf(item) != "" && PathOf(item) != path :: PathOf(item)
  }

  lemma CitingStep(w: Wiki, names: seq<Slug>, slug: Slug, path: DocPath)
    requires slug in w.pages
    ensures CitingSoFar(w, names + [slug], path)
         == if Cites(w.pages[slug], path) then CitingSoFar(w, names, path) - {slug} else CitingSoFar(w, names, path)
  {
    hide Cites;
  }

  lemma CoSourcesStep(w: Wiki, names: seq<Slug>, slug: Slug, path: DocPath)
    requires slug in w.pages
    ensures CoSourcesSoFar(w, names + [slug], path)
         == CoSourcesSoFar(w, names, path)
            + if Cites(w.pages[slug], path) then OtherPaths(w.pages[slug], path) else {}
  {
    assert slug in Citing(w, path) <==> Cites(w.pages[slug], path);
  }

  /** The pages left, and the other sources of those that went. */
  method DropPagesCiting(names: seq<Slug>, w: Wiki, path: DocPath) returns (r: Wiki, coSources: set<DocPath>)
    requires Lists(names, w.pages.Keys)
    ensures r == DropCiting(w, path) && coSources == CoSources(w, path)
  {
    hide CitingSoFar, CoSourcesSoFar;
    var pages := w.pages;
    coSources := {};
    NothingCited(w, path);
    for i := 0 to |names|
      invariant pages == CitingSoFar(w, names[..i], path) && coSources == CoSourcesSoFar(w, names[..i], path)
    {
      assert names[..i + 1] == names[..i] + [names[i]];
      CitingStep(w, names[..i], names[i], path);
      CoSourcesStep(w, names[..i], names[i], path);
      if Cites(w.pages[names[i]], path) {
        coSources := coSources + OtherPaths(w.pages[names[i]], path);
        pages := pages - {names[i]};
      }
    }
    assert names[..|names|] == names;
    AllCited(w, names, path);
    r := w.(pages := pages);
  }

  lemma NothingCited(w: Wiki, path: DocPath)
    ensures CitingSoFar(w, [], path) == w.pages && CoSourcesSoFar(w, [], path) == {}
  {
  }

  lemma AllCited(w: Wiki, names: seq<Slug>, path: DocPath)
    requires Lists(names, w.pages.Keys)
    ensures CitingSoFar(w, names, path) == DropCiting(w, path).pages
    ensures CoSourcesSoFar(w, names, path) == CoSources(w, path)
  {
  }

  function DetachedSoFar(w: Wiki, names: seq<Slug>, path: DocPath, json: F.JsonReader): map<Slug, Page> {
    map slug | slug in w.pages && !(slug in names && OnlyCites(w.pages[slug], path)) ::
      if slug in names then Detached(w.pages[slug], path, json) else w.pages[slug]
  }

  lemma DetachStep(w: Wiki, names: seq<Slug>, slug: Slug, path: DocPath, json: F.JsonReader)
    requires slug in w.pages && slug !in names
    ensures DetachedSoFar(w, names + [slug], path, json)
         == if OnlyCites(w.pages[slug], path) then DetachedSoFar(w, names, path, json) - {slug}
            else DetachedSoFar(w, names, path, json)[slug := Detached(w.pages[slug], path, json)]
  {
    hide OnlyCites, Detached;
  }

  lemma DetachEnds(w: Wiki, names: seq<Slug>, path: DocPath, json: F.JsonReader)
    requires Lists(names, w.pages.Keys)
    ensures DetachedSoFar(w, [], path, json) == w.pages && DetachedSoFar(w, names, path, json) == Detach(w, path, json).pages
  {
    hide OnlyCites, Detached;
  }

  /** One pass: a page that keeps no source goes, one that keeps another loses the line. */
  method DetachDeletedSource(names: seq<Slug>, w: Wiki, path: DocPath, json: F.JsonReader) returns (r: Wiki)
    requires Lists(names, w.pages.Keys)
    ensures r == Detach(w, path, json)
  {
    hide OnlyCites, Cites, DetachedSoFar;
    var pages := w.pages;
    DetachEnds(w, names, path, json);
    for i := 0 to |names|
      invariant pages == DetachedSoFar(w, names[..i], path, json)
    {
      var slug := names[i];
      assert slug !in names[..i] by {
        forall k | 0 <= k < i ensures names[k] != slug { ListsOnce(names, w.pages.Keys, k, i); }
      }
      assert names[..i + 1] == names[..i] + [slug];
      DetachStep(w, names[..i], slug, path, json);
      if OnlyCites(w.pages[slug], path) {
        pages := pages - {slug};
      } else if Cites(w.pages[slug], path) {
        pages := pages[slug := Detached(w.pages[slug], path, json)];
      } else {
        StillThere(w, names[..i], slug, path, json);
      }
    }
    assert names[..|names|] == names;
    r := w.(pages := pages);
  }

  lemma StillThere(w: Wiki, names: seq<Slug>, slug: Slug, path: DocPath, json: F.JsonReader)
    requires slug in w.pages && slug !in names && !Cites(w.pages[slug], path)
    ensures DetachedSoFar(w, names, path, json)[slug := Detached(w.pages[slug], path, json)] == DetachedSoFar(w, names, path, json)
  {
    hide OnlyCites, Cites;
  }

  /** A retraction works on the pages alone; marking its source pending makes no difference to it. */
  lemma PendingRetracts(s: I.Store, sources: Sources, path: DocPath, restricted: bool, t: I.Turn)
    requires I.WellFormed(s)
    ensures I.Retracted(I.Save(s.(sources := sources)), path, restricted, t) == I.Retracted(s, path, restricted, t)
  {
  }

  class Maintainer {
    const o: Orders
    var commits: seq<Wiki>
    var head: nat
    var worktree: Wiki
    var sources: Sources
    var saved: Sources

    constructor (o: Orders, s: I.Store)
      ensures this.o == o && View() == s
    {
      this.o := o;
      commits, head, worktree, sources, saved := s.commits, s.head, s.worktree, s.sources, s.saved;
    }

    function View(): I.Store
      reads this
    {
      I.Store(commits, head, worktree, sources, saved)
    }

    // ------------------------------------------------------------ git and the state file

    method CommitAll(ignored: I.Ignored) returns (commit: nat)
      requires I.WellFormed(View())
      modifies this`commits, this`head
      ensures View() == I.CommitAll(old(View()), ignored) && commit == head
    {
      var staged := I.Staged(worktree, commits[head], ignored);
      if staged != commits[head] {
        commits, head := commits + [staged], |commits|;
      }
      commit := head;
    }

    /** Tracked files are put back, then untracked ones go unless git ignores them. */
    method ResetHard(commit: nat, ignored: I.Ignored)
      requires commit < |commits|
      modifies this`head, this`worktree
      ensures View() == I.ResetHard(old(View()), commit, ignored)
    {
      var left := I.Unstaged(worktree, commits[commit], ignored);
      head, worktree := commit, commits[commit];
      worktree := I.Beside(worktree, left);
    }

    method SaveState()
      modifies this`saved
      ensures View() == I.Save(old(View()))
    {
      saved := sources;
    }

    // ------------------------------------------------------------ the two kinds of item

    method IngestOne(job: I.Job, t: I.Turn) returns (ok: bool)
      requires I.WellFormed(View())
      modifies this
      ensures (View(), ok) == I.IngestOne(old(View()), job, t)
    {
      if !t.extraction.Accepted? {
        return false;
      }
      var before, previous := head, I.Recorded(sources, job.path);
      sources := I.MarkPending(sources, job, before);
      SaveState();
      worktree := t.model.tree;
      var failed := t.model.Threw?;
      if !failed {
        match t.tidy(worktree)
        case Err(stuck) =>
          worktree, failed := stuck, true;
        case Ok(tidied) =>
          worktree := tidied;
          failed := !I.HasPages(t.model.affected) || !t.valid(worktree) || job.sha.None?;
      }
      if !failed {
        var commit := CommitAll(t.ignored(worktree));
        sources := sources[job.path := I.Imported(job, t.extraction.cacheKey, t.model.affected, commit)];
        SaveState();
        return true;
      }
      ResetHard(before, t.ignored(worktree));
      sources := I.RestoreEntry(sources, job.path, previous);
      SaveState();
      return false;
    }

    /** The worktree changes of `retractOne` up to the tidying passes; None when the index cannot be rebuilt. */
    method RetractPages(path: DocPath, restricted: bool, t: I.Turn) returns (coSources: Option<set<DocPath>>)
      requires Sound(o) && I.WellFormed(View())
      modifies this`worktree
      ensures var r := I.Retracted(old(View()), path, restricted, t);
        match r
        case Err(stuck) => coSources == None && View() == old(View()).(worktree := stuck)
        case Ok(done) => coSources == Some(done.coSources) && View() == old(View()).(worktree := done.tree)
    {
      assert Lists(o.paths(worktree.pages.Keys), worktree.pages.Keys);
      worktree := DropPagesOnlyCiting(o.paths(worktree.pages.Keys), worktree, path);
      assert Lists(o.paths(worktree.pages.Keys), worktree.pages.Keys);
      var slugs := PagesStillCiting(o.paths(worktree.pages.Keys), worktree, path);
      if slugs == {} {
        return Some({});
      }
      var indexed := t.reindex(worktree);
      if indexed.Err? {
        worktree := indexed.error;
        return None;
      }
      var snap := indexed.value;
      worktree := if t.model.Threw? then I.RestorePages(t.model.tree, slugs, snap) else t.model.tree;
      if !I.ModelFellShort(t.model, worktree, slugs, path) {
        return Some({});
      }
      worktree := I.RestorePages(I.DiscardModelOnly(worktree, commits[head], slugs, t.ignored(worktree)), slugs, snap);
      assert Lists(o.paths(worktree.pages.Keys), worktree.pages.Keys);
      if restricted {
        var dropped;
        worktree, dropped := DropPagesCiting(o.paths(worktree.pages.Keys), worktree, path);
        return Some(dropped);
      }
      worktree := DetachDeletedSource(o.paths(worktree.pages.Keys), worktree, path, t.json);
      return Some({});
    }

    method RetractOne(job: I.Job, restricted: bool, t: I.Turn) returns (attempt: I.Attempt)
      requires Sound(o) && I.WellFormed(View())
      modifies this
      ensures (View(), attempt) == I.RetractOne(old(View()), job, restricted, t)
    {
      if job.path !in sources {
        return I.Done({});
      }
      hide I.Retracted, I.MarkPending, I.MarkForRecompile, Citing, I.Staged, I.Unstaged, I.Beside;
      ghost var s := View();
      var before, previous := head, sources[job.path];
      sources := I.MarkPending(sources, I.Job(Delete, job.path, previous.sha), before);
      SaveState();
      PendingRetracts(s, sources, job.path, restricted, t);
      var coSources := RetractPages(job.path, restricted, t);
      var failed := coSources.None?;
      if !failed {
        match t.tidy(worktree)
        case Err(stuck) =>
          worktree, failed := stuck, true;
        case Ok(tidied) =>
          worktree := tidied;
          failed := Citing(worktree, job.path) != {} || !t.valid(worktree) || previous.sha.None?;
      }
      if !failed {
        var _ := CommitAll(t.ignored(worktree));
        sources := I.MarkForRecompile(sources - {job.path}, coSources.value);
        SaveState();
        return I.Done(coSources.value);
      }
      ResetHard(before, t.ignored(worktree));
      sources := sources[job.path := previous];
      SaveState();
      return I.Failed;
    }

    method RunJob(job: I.Job, t: I.Turn) returns (attempt: I.Attempt)
      requires Sound(o) && I.Steady(View())
      modifies this
      ensures (View(), attempt) == I.RunJob(old(View()), job, t)
      ensures I.Steady(View())
    {
      RunJobAtomic(View(), job, t);
      match job.action
      case Restrict =>
        attempt := RetractOne(job, true, t);
      case Delete =>
        attempt := RetractOne(job, false, t);
      case _ =>
        var ok := IngestOne(job, t);
        attempt := if ok then I.Done({}) else I.Failed;
    }

    // ------------------------------------------------------------ the batch

    /** One turn of the loop body: the item runs and its co-sources are queued. */
    method RunItem(index: nat, queue: seq<I.Job>, queued: set<DocPath>, same: seq<Item>, t: I.Turn, ghost b: I.Batch)
      returns (ok: bool, queue': seq<I.Job>, queued': set<DocPath>)
      requires Sound(o) && I.Steady(View()) && !t.stop
      requires I.Sane(b) && b.store == View() && b.line == I.Line(queue, queued) && b.index == index < |queue|
      modifies this
      ensures var b' := I.StepBatch(o, same, b, t);
        b'.store == View() && b'.line == I.Line(queue', queued') && b'.oks == b.oks + [ok]
    {
      var job := queue[index];
      var attempt := RunJob(job, t);
      queue', queued' := RequeueAll(queue, queued, o.paths(Handed(job, attempt)), same);
      ok := attempt.Done?;
    }

    /** `ingestBatch`: the store and the failures are those of the value model's run. */
    method IngestBatch(ins: Inputs, turns: nat -> I.Turn) returns (r: Result<Report, PlanError>)
      requires Sound(o) && I.Steady(View())
      modifies this
      ensures I.Steady(View())
      ensures r.Err? <==> DryRunResult(o, ins, old(sources)).Err?
      ensures r.Err? ==> View() == old(View())
      ensures r.Ok? ==>
        var b := Batched(o, ins, DocumentPrefixes(ins.acl.value), old(View()), turns);
        View() == b.store
        && r.value == Report(PlanOf(o, ins, DocumentPrefixes(ins.acl.value), old(sources)), FailuresOf(b.line.queue, b.oks), b.aborted)
    {
      var planned := D.DryRun(o, ins, saved);
      if planned.Err? {
        return Err(planned.error);
      }
      StartAccounts(o, ins, DocumentPrefixes(ins.acl.value), View());
      var failures, cancelled := RunQueue(planned.value, turns);
      return Ok(Report(planned.value, failures, cancelled));
    }

    method RunQueue(plan: Plan, turns: nat -> I.Turn) returns (failures: seq<Failure>, cancelled: bool)
      requires Sound(o) && Going(I.Start(View(), plan))
      modifies this
      ensures var b := Run(o, plan.same, I.Start(old(View()), plan), turns);
        View() == b.store && failures == FailuresOf(b.line.queue, b.oks) && cancelled == b.aborted
    {
      var queue := I.InitialQueue(plan);
      var queued := I.JobPaths(queue);
      var index := 0;
      failures := [];
      ghost var b := I.Start(View(), plan);
      while index < |queue|
        invariant Going(b) && !b.aborted
        invariant b.store == View() && b.line == I.Line(queue, queued) && b.index == index
        invariant failures == FailuresOf(queue, b.oks)
        invariant Run(o, plan.same, b, turns) == Run(o, plan.same, I.Start(old(View()), plan), turns)
        decreases Measure(b, plan.same)
      {
        var t := turns(index);
        if t.stop {
          return failures, true;
        }
        var job := queue[index];
        StepKeeps(o, plan.same, b, t);
        ghost var b' := I.StepBatch(o, plan.same, b, t);
        StepFailures(o, plan.same, b, t);
        var ok;
        ok, queue, queued := RunItem(index, queue, queued, plan.same, t, b);
        if !ok {
          failures := failures + [Failure(job.path, job.action)];
        }
        index := index + 1;
        b := b';
      }
      return failures, false;
    }
  }

  lemma StepFailures(o: Orders, same: seq<Item>, b: I.Batch, t: I.Turn)
    requires Sound(o) && Going(b) && b.index < |b.line.queue| && !t.stop
    ensures var b', job := I.StepBatch(o, same, b, t), b.line.queue[b.index];
      && |b'.oks| <= |b'.line.queue|
      && FailuresOf(b'.line.queue, b'.oks)
        == FailuresOf(b.line.queue, b.oks) + if b'.oks[b.index] then [] else [Failure(job.path, job.action)]
  {
    StepKeeps(o, same, b, t);
    StepIsNext(o, same, b, t);
    var b' := I.StepBatch(o, same, b, t);
    FailuresPrefix(b.line.queue, b'.line.queue, b.oks);
  }

  /** `requeue`: unchanged documents among `paths` go in before the first delete. */
  method RequeueAll(queue: seq<I.Job>, queued: set<DocPath>, paths: seq<DocPath>, same: seq<Item>)
    returns (queue': seq<I.Job>, queued': set<DocPath>)
    ensures I.Line(queue', queued') == I.Requeue(I.Line(queue, queued), I.InsertAt(queue), paths, same)
  {
    var at: nat := I.InsertAt(queue);
    queue', queued' := queue, queued;
    for i := 0 to |paths|
      invariant at <= |queue'|
      invariant I.Requeue(I.Line(queue', queued'), at, paths[i..], same)
        == I.Requeue(I.Line(queue, queued), I.InsertAt(queue), paths, same)
    {
      assert paths[i..][0] == paths[i] && paths[i..][1..] == paths[i + 1..];
      var found := I.FindItem(same, paths[i]);
      if paths[i] !in queued' && found.Some? {
        var pushed := at == |queue'|;
        queue' := queue'[..at] + [I.Job(Update, paths[i], found.value.sha)] + queue'[at..];
        queued' := queued' + {paths[i]};
        at := if pushed then at + 1 else at;
      }
    }
    assert paths[|paths|..] == [];
  }
}
