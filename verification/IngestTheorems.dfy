/** The promises of `ingestBatch`, for every plan, every model and every cancellation. */
module IngestTheorems {
  import opened Text
  import opened SourcePlan
  import opened WikiTree
  import opened Ingest
  import opened IngestItems
  import opened IngestRuns
  import opened PlanFacts

  // ---------------------------------------------------------------- the first queue

  lemma ItemsOnce(o: Orders, ins: Inputs, prefixes: seq<string>, sources: Sources, q: Queue, action: Action)
    requires Sound(o)
    ensures var items := o.items(InQueue(Current(ins, prefixes), sources, q));
      OncePerPath(ItemJobs(action, items)) && JobPaths(ItemJobs(action, items)) == Paths(items)
  {
    var wanted := InQueue(Current(ins, prefixes), sources, q);
    var items := o.items(wanted);
    assert Lists(items, wanted);
    forall i, j | 0 <= i < j < |items|
      ensures items[i].path != items[j].path
    {
      ListsOnce(items, wanted, i, j);
      assert items[i] in wanted && items[j] in wanted;
      if items[i].path == items[j].path {
        CurrentIsByPath(ins, prefixes, items[i], items[j]);
      }
    }
    ItemJobPaths(action, items);
  }

  lemma ItemJobPaths(action: Action, items: seq<Item>)
    ensures JobPaths(ItemJobs(action, items)) == Paths(items)
  {
    var jobs := ItemJobs(action, items);
    forall item | item in items
      ensures item.path in JobPaths(jobs)
    {
      var i :| 0 <= i < |items| && items[i] == item;
      assert jobs[i] in jobs;
    }
  }

  lemma GoneJobPaths(action: Action, gone: seq<Gone>)
    ensures JobPaths(GoneJobs(action, gone)) == GonePaths(gone)
  {
    var jobs := GoneJobs(action, gone);
    forall g | g in gone
      ensures g.path in JobPaths(jobs)
    {
      var i :| 0 <= i < |gone| && gone[i] == g;
      assert jobs[i] in jobs;
    }
  }

  ghost predicate GoneOnce(gone: seq<Gone>) {
    forall i, j :: 0 <= i < j < |gone| ==> gone[i].path != gone[j].path
  }

  /** A listing of recorded paths names each once. */
  lemma ListedGoneOnce(gone: seq<Gone>, s: set<Gone>, sources: Sources)
    requires Lists(gone, s) && forall g :: g in s ==> g.path in sources && g.sha == sources[g.path].sha
    ensures GoneOnce(gone)
  {
    forall i, j | 0 <= i < j < |gone|
      ensures gone[i].path != gone[j].path
    {
      ListsOnce(gone, s, i, j);
      assert gone[i] in s && gone[j] in s;
    }
  }

  lemma {:induction false} UnrestrictedOnce(gone: seq<Gone>, prefixes: seq<string>)
    requires GoneOnce(gone)
    ensures GoneOnce(Unrestricted(gone, prefixes))
  {
    if gone != [] {
      UnrestrictedOnce(gone[1..], prefixes);
      var rest := Unrestricted(gone[1..], prefixes);
      assert forall g :: g in rest ==> g in gone[1..];
      assert forall k :: 0 <= k < |rest| ==> rest[k] in rest;
    }
  }

  lemma OnceAppend(a: seq<Job>, b: seq<Job>)
    requires OncePerPath(a) && OncePerPath(b) && JobPaths(a) !! JobPaths(b)
    ensures OncePerPath(a + b) && JobPaths(a + b) == JobPaths(a) + JobPaths(b)
  {
    assert forall k :: 0 <= k < |a| ==> a[k].path in JobPaths(a);
    assert forall k :: 0 <= k < |b| ==> b[k].path in JobPaths(b);
  }

  /** Nothing is planned twice. */
  lemma PlannedApart(o: Orders, ins: Inputs, prefixes: seq<string>, sources: Sources)
    requires Sound(o)
    ensures var plan := PlanOf(o, ins, prefixes, sources);
      && GonePaths(plan.restrict) !! Paths(plan.add) !! Paths(plan.update) !! GonePaths(plan.delete)
  {
    var plan := PlanOf(o, ins, prefixes, sources);
    forall path
      ensures !(path in GonePaths(plan.restrict) && path in Paths(plan.add) + Paths(plan.update) + GonePaths(plan.delete))
      ensures !(path in Paths(plan.add) && path in Paths(plan.update))
      ensures !(path in GonePaths(plan.delete) && path in Paths(plan.add) + Paths(plan.update))
    {
      RestrictNames(o, ins, prefixes, sources, path);
      DeletedIff(o, ins, prefixes, sources, path);
      QueueNames(o, ins, prefixes, sources, path, ToAdd);
      QueueNames(o, ins, prefixes, sources, path, ToUpdate);
      forall a, b | a in ItemsAt(ins, prefixes, path) && b in ItemsAt(ins, prefixes, path)
        ensures a == b && !IsRestrictedPath(path, prefixes)
      {
        ItemsAtIsOne(ins, prefixes, path, a, b);
      }
    }
  }

  lemma GoneListsOnce(o: Orders, ins: Inputs, prefixes: seq<string>, sources: Sources)
    requires Sound(o)
    ensures var plan := PlanOf(o, ins, prefixes, sources);
      GoneOnce(plan.restrict) && GoneOnce(plan.delete)
  {
    var removed := Removed(Current(ins, prefixes), sources, Retain(ins, prefixes, sources));
    var restricted := RestrictedSources(sources, prefixes);
    assert Lists(o.gone(removed), removed) && Lists(o.gone(restricted), restricted);
    ListedGoneOnce(o.gone(removed), removed, sources);
    ListedGoneOnce(o.gone(restricted), restricted, sources);
    UnrestrictedOnce(o.gone(removed), prefixes);
  }

  /** The first queue of every plan: phases in order, each path once. */
  lemma InitialInLine(o: Orders, ins: Inputs, prefixes: seq<string>, sources: Sources)
    requires Sound(o)
    ensures var queue := InitialQueue(PlanOf(o, ins, prefixes, sources));
      InLine(Line(queue, JobPaths(queue)))
  {
    hide PlanOf, Current, InQueue, Paths, GonePaths, JobPaths, OncePerPath, GoneOnce;
    var plan := PlanOf(o, ins, prefixes, sources);
    PlanLists(o, ins, prefixes, sources);
    var a, b := GoneJobs(Restrict, plan.restrict), ItemJobs(Add, plan.add);
    var c, d := ItemJobs(Update, plan.update), GoneJobs(Delete, plan.delete);
    GoneListsOnce(o, ins, prefixes, sources);
    PlannedApart(o, ins, prefixes, sources);
    ItemsOnce(o, ins, prefixes, sources, ToAdd, Add);
    ItemsOnce(o, ins, prefixes, sources, ToUpdate, Update);
    GoneJobPaths(Restrict, plan.restrict);
    GoneJobPaths(Delete, plan.delete);
    GoneJobsOnce(Restrict, plan.restrict);
    GoneJobsOnce(Delete, plan.delete);
    OnceAppend(a, b);
    OnceAppend(a + b, c);
    OnceAppend(a + b + c, d);
  }

  lemma GoneJobsOnce(action: Action, gone: seq<Gone>)
    requires GoneOnce(gone)
    ensures OncePerPath(GoneJobs(action, gone))
  {
  }

  lemma StartAccounts(o: Orders, ins: Inputs, prefixes: seq<string>, s: Store)
    requires Sound(o) && Steady(s)
    ensures var plan := PlanOf(o, ins, prefixes, s.sources);
      Accounts(Start(s, plan), s.sources, plan.same)
  {
    InitialInLine(o, ins, prefixes, s.sources);
  }

  /** A whole batch: plan from the recorded state, then run the queue. */
  ghost function Batched(o: Orders, ins: Inputs, prefixes: seq<string>, s: Store, turns: nat -> Turn): Batch
    requires Sound(o) && Steady(s)
  {
    var plan := PlanOf(o, ins, prefixes, s.sources);
    StartAccounts(o, ins, prefixes, s);
    Run(o, plan.same, Start(s, plan), turns)
  }

  // ---------------------------------------------------------------- the queue over a whole run

  lemma {:induction false} RunQueues(o: Orders, same: seq<Item>, b: Batch, turns: nat -> Turn)
    requires Sound(o) && Going(b)
    ensures var b' := Run(o, same, b, turns);
      && (forall job :: job in b.line.queue ==> job in b'.line.queue)
      && (forall job :: job in b'.line.queue ==> job in b.line.queue || IsRecompile(job, same))
    decreases Measure(b, same)
  {
    if !b.aborted && b.index < |b.line.queue| && !turns(b.index).stop {
      StepKeeps(o, same, b, turns(b.index));
      StepQueues(o, same, b, turns(b.index));
      RunQueues(o, same, StepBatch(o, same, b, turns(b.index)), turns);
    }
  }

  /**
   * Every batch ends, cancelled or with its whole queue run. The queue it ran holds every planned
   * job and otherwise only recompiles of unchanged documents, restrictions before imports before
   * deletions, and no path twice; HEAD lies in the worktree and the saved state is the state.
   */
  lemma BatchQueue(o: Orders, ins: Inputs, prefixes: seq<string>, s: Store, turns: nat -> Turn)
    requires Sound(o) && Steady(s)
    ensures var plan, b := PlanOf(o, ins, prefixes, s.sources), Batched(o, ins, prefixes, s, turns);
      && (b.aborted || b.index == |b.line.queue|)
      && Phased(b.line.queue) && OncePerPath(b.line.queue)
      && (forall job :: job in InitialQueue(plan) ==> job in b.line.queue)
      && (forall job :: job in b.line.queue ==> job in InitialQueue(plan) || IsRecompile(job, plan.same))
      && Steady(b.store)
  {
    StartAccounts(o, ins, prefixes, s);
    var plan := PlanOf(o, ins, prefixes, s.sources);
    RunQueues(o, plan.same, Start(s, plan), turns);
  }

  /** The model leaves no `.gitignore` that hides a file. */
  ghost predicate NothingIgnored(turns: nat -> Turn) {
    forall i: nat, tree: Wiki :: turns(i).ignored(tree) == Ingest.Ignored.Ignored({}, false, {})
  }

  lemma NothingUnstaged(w: Wiki, head: Wiki)
    ensures Unstaged(w, head, Ingest.Ignored.Ignored({}, false, {})) == NO_FILES
  {
  }

  lemma StepStaysClean(o: Orders, same: seq<Item>, b: Batch, t: Turn)
    requires Sound(o) && Going(b) && Clean(b.store) && b.index < |b.line.queue| && !t.stop
    requires forall tree: Wiki :: t.ignored(tree) == Ingest.Ignored.Ignored({}, false, {})
    ensures Clean(StepBatch(o, same, b, t).store)
  {
    hide Clean, EndTree, RunJob, Requeue, InsertAt, Unstaged, InLine, Steady;
    var job := b.line.queue[b.index];
    ItemIsCleanIff(b.store, job, t);
    if EndTree(b.store, job, t).Some? {
      NothingUnstaged(EndTree(b.store, job, t).value, b.store.commits[b.store.head]);
    }
  }

  lemma {:induction false} RunStaysClean(o: Orders, same: seq<Item>, b: Batch, turns: nat -> Turn)
    requires Sound(o) && Going(b) && Clean(b.store) && NothingIgnored(turns)
    ensures Clean(Run(o, same, b, turns).store)
    decreases Measure(b, same)
  {
    hide Clean, StepBatch;
    if !b.aborted && b.index < |b.line.queue| && !turns(b.index).stop {
      StepKeeps(o, same, b, turns(b.index));
      StepStaysClean(o, same, b, turns(b.index));
      RunStaysClean(o, same, StepBatch(o, same, b, turns(b.index)), turns);
    }
  }

  /** Where git ignores nothing, the worktree is HEAD after every batch, failed and cancelled ones included. */
  lemma BatchStaysClean(o: Orders, ins: Inputs, prefixes: seq<string>, s: Store, turns: nat -> Turn)
    requires Sound(o) && Clean(s) && Steady(s) && NothingIgnored(turns)
    ensures Clean(Batched(o, ins, prefixes, s, turns).store)
  {
    hide Clean;
    StartAccounts(o, ins, prefixes, s);
    RunStaysClean(o, PlanOf(o, ins, prefixes, s.sources).same, Start(s, PlanOf(o, ins, prefixes, s.sources)), turns);
  }

  lemma BatchAccounts(o: Orders, ins: Inputs, prefixes: seq<string>, s: Store, turns: nat -> Turn)
    requires Sound(o) && Steady(s)
    ensures Accounts(Batched(o, ins, prefixes, s, turns), s.sources, PlanOf(o, ins, prefixes, s.sources).same)
  {
    StartAccounts(o, ins, prefixes, s);
    var plan := PlanOf(o, ins, prefixes, s.sources);
    RunAccounts(o, plan.same, Start(s, plan), turns, s.sources);
  }

  // ---------------------------------------------------------------- which jobs there can be

  /** A job of the run imports a current document at its current hash, or retracts a path that is none. */
  ghost predicate JobFits(ins: Inputs, prefixes: seq<string>, sources: Sources, job: Job) {
    match job.action
    case Restrict => IsRestrictedPath(job.path, prefixes)
    case Delete => ItemsAt(ins, prefixes, job.path) == {} && !IsRestrictedPath(job.path, prefixes)
    case _ => job.sha.Some? && exists item :: item in ItemsAt(ins, prefixes, job.path) && item.sha == job.sha
  }

  lemma PlannedJobFits(o: Orders, ins: Inputs, prefixes: seq<string>, sources: Sources, job: Job)
    requires Sound(o) && job in InitialQueue(PlanOf(o, ins, prefixes, sources))
    ensures JobFits(ins, prefixes, sources, job)
  {
    var plan := PlanOf(o, ins, prefixes, sources);
    PlanMembers(o, ins, prefixes, sources);
    if job in GoneJobs(Restrict, plan.restrict) {
      var i :| 0 <= i < |plan.restrict| && GoneJobs(Restrict, plan.restrict)[i] == job;
      assert plan.restrict[i] in plan.restrict;
    } else if job in GoneJobs(Delete, plan.delete) {
      var i :| 0 <= i < |plan.delete| && GoneJobs(Delete, plan.delete)[i] == job;
      assert plan.delete[i] in plan.delete;
      assert job.path in GonePaths(plan.delete);
      DeletedIff(o, ins, prefixes, sources, job.path);
    } else {
      var (action, items) := if job in ItemJobs(Add, plan.add) then (Add, plan.add) else (Update, plan.update);
      var i :| 0 <= i < |items| && ItemJobs(action, items)[i] == job;
      assert items[i] in items;
      assert items[i] in ItemsAt(ins, prefixes, job.path);
    }
  }

  lemma RecompileFits(o: Orders, ins: Inputs, prefixes: seq<string>, sources: Sources, job: Job)
    requires Sound(o) && IsRecompile(job, PlanOf(o, ins, prefixes, sources).same)
    ensures JobFits(ins, prefixes, sources, job)
  {
    PlanMembers(o, ins, prefixes, sources);
    var item :| item in PlanOf(o, ins, prefixes, sources).same && item.path == job.path && item.sha == job.sha;
    assert item in ItemsAt(ins, prefixes, job.path);
  }

  lemma BatchJobsFit(o: Orders, ins: Inputs, prefixes: seq<string>, s: Store, turns: nat -> Turn)
    requires Sound(o) && Steady(s)
    ensures forall job :: job in Batched(o, ins, prefixes, s, turns).line.queue ==> JobFits(ins, prefixes, s.sources, job)
  {
    BatchQueue(o, ins, prefixes, s, turns);
    forall job | job in Batched(o, ins, prefixes, s, turns).line.queue
      ensures JobFits(ins, prefixes, s.sources, job)
    {
      if job in InitialQueue(PlanOf(o, ins, prefixes, s.sources)) {
        PlannedJobFits(o, ins, prefixes, s.sources, job);
      } else {
        RecompileFits(o, ins, prefixes, s.sources, job);
      }
    }
  }

  /** A finished import in the run left a fresh entry at the document's current hash. */
  lemma RecompiledIsCurrent(o: Orders, ins: Inputs, prefixes: seq<string>, s: Store, turns: nat -> Turn, item: Item)
    requires Sound(o) && Steady(s) && item in Current(ins, prefixes)
    requires Recompiled(Batched(o, ins, prefixes, s, turns), item.path)
    ensures var sources := Batched(o, ins, prefixes, s, turns).store.sources;
      item.path in sources && Fresh(sources[item.path], item.sha)
  {
    var b := Batched(o, ins, prefixes, s, turns);
    BatchAccounts(o, ins, prefixes, s, turns);
    BatchJobsFit(o, ins, prefixes, s, turns);
    var j :| 0 <= j < b.index && b.line.queue[j].path == item.path && b.oks[j] && IsImport(b.line.queue[j].action);
    assert Outcome(b, j) && b.line.queue[j] in b.line.queue;
    var other :| other in ItemsAt(ins, prefixes, item.path) && other.sha == b.line.queue[j].sha;
    CurrentIsByPath(ins, prefixes, item, other);
  }

  // ---------------------------------------------------------------- no co-source is forgotten

  /**
   * Any other source of a page dropped for a restricted one is compiled again at its current hash
   * in the same batch, or the next plan adds or updates it as soon as its document is there.
   * This holds for failed and for cancelled batches too.
   */
  lemma NoCoSourceForgotten(o: Orders, ins: Inputs, prefixes: seq<string>, s: Store, turns: nat -> Turn, item: Item)
    requires Sound(o) && Steady(s)
    requires item.path in Batched(o, ins, prefixes, s, turns).dropped
    ensures var b := Batched(o, ins, prefixes, s, turns);
      || (Recompiled(b, item.path)
          && (item in Current(ins, prefixes) ==>
                item.path in b.store.sources && Fresh(b.store.sources[item.path], item.sha)))
      || (item.sha.Some? ==> QueueOf(item, b.store.sources) in {ToAdd, ToUpdate})
  {
    var b := Batched(o, ins, prefixes, s, turns);
    BatchAccounts(o, ins, prefixes, s, turns);
    assert Remembered(b, item.path);
    if Recompiled(b, item.path) && item in Current(ins, prefixes) {
      RecompiledIsCurrent(o, ins, prefixes, s, turns, item);
    }
  }

  // ---------------------------------------------------------------- restricted sources leave

  ghost predicate RestrictsSucceeded(b: Batch)
    requires Sane(b)
  {
    !b.aborted && b.index == |b.line.queue|
    && forall j :: 0 <= j < b.index && b.line.queue[j].action == Restrict ==> b.oks[j]
  }

  /** A recorded source was recorded before the batch or is a current document. */
  lemma KeysOrigin(o: Orders, ins: Inputs, prefixes: seq<string>, s: Store, turns: nat -> Turn, path: DocPath)
    requires Sound(o) && Steady(s) && path in Batched(o, ins, prefixes, s, turns).store.sources
    ensures path in s.sources || (ItemsAt(ins, prefixes, path) != {} && !IsRestrictedPath(path, prefixes))
  {
    hide ItemsAt, Batched, Recompiled, JobFits, Outcome, Untouched, Remembered, IsRestrictedPath;
    var b := Batched(o, ins, prefixes, s, turns);
    BatchAccounts(o, ins, prefixes, s, turns);
    BatchJobsFit(o, ins, prefixes, s, turns);
    if path !in s.sources {
      RecompiledIsItem(ins, prefixes, s.sources, b, path);
    }
  }

  lemma RecompiledIsItem(ins: Inputs, prefixes: seq<string>, sources: Sources, b: Batch, path: DocPath)
    requires Sane(b) && Recompiled(b, path)
    requires forall job :: job in b.line.queue ==> JobFits(ins, prefixes, sources, job)
    ensures ItemsAt(ins, prefixes, path) != {} && !IsRestrictedPath(path, prefixes)
  {
    hide ItemsAt, IsRestrictedPath;
    var j :| 0 <= j < b.index && b.line.queue[j].path == path && b.oks[j] && IsImport(b.line.queue[j].action);
    assert b.line.queue[j] in b.line.queue;
    var item :| item in ItemsAt(ins, prefixes, path);
    ItemsAtIsOne(ins, prefixes, path, item, item);
  }

  /** A planned retraction that succeeded leaves its source unrecorded at the end of the batch. */
  lemma RetractionLasts(o: Orders, ins: Inputs, prefixes: seq<string>, s: Store, turns: nat -> Turn, job: Job)
    requires Sound(o) && Steady(s) && job in InitialQueue(PlanOf(o, ins, prefixes, s.sources))
    requires job.action == Restrict || job.action == Delete
    requires var b := Batched(o, ins, prefixes, s, turns);
      b.index == |b.line.queue| && forall j :: 0 <= j < b.index && b.line.queue[j].action == job.action ==> b.oks[j]
    ensures job.path !in Batched(o, ins, prefixes, s, turns).store.sources
  {
    var b := Batched(o, ins, prefixes, s, turns);
    BatchAccounts(o, ins, prefixes, s, turns);
    BatchQueue(o, ins, prefixes, s, turns);
    var j :| 0 <= j < |b.line.queue| && b.line.queue[j] == job;
    assert Outcome(b, j);
  }

  /** After a batch in which no restriction failed, the state records no restricted source. */
  lemma NoRestrictedSourceLeft(o: Orders, ins: Inputs, prefixes: seq<string>, s: Store, turns: nat -> Turn, path: DocPath)
    requires Sound(o) && Steady(s)
    requires RestrictsSucceeded(Batched(o, ins, prefixes, s, turns))
    requires IsRestrictedPath(path, prefixes)
    ensures path !in Batched(o, ins, prefixes, s, turns).store.sources
  {
    if path in s.sources {
      RestrictJob(o, ins, prefixes, s.sources, path);
      RetractionLasts(o, ins, prefixes, s, turns, Job(Restrict, path, s.sources[path].sha));
    } else if path in Batched(o, ins, prefixes, s, turns).store.sources {
      KeysOrigin(o, ins, prefixes, s, turns, path);
    }
  }

  lemma RestrictJob(o: Orders, ins: Inputs, prefixes: seq<string>, sources: Sources, path: DocPath)
    requires Sound(o) && path in sources && IsRestrictedPath(path, prefixes)
    ensures Job(Restrict, path, sources[path].sha) in InitialQueue(PlanOf(o, ins, prefixes, sources))
  {
    PlanMembers(o, ins, prefixes, sources);
    var plan := PlanOf(o, ins, prefixes, sources);
    var gone := Gone(path, sources[path].sha);
    assert gone in plan.restrict;
    var i :| 0 <= i < |plan.restrict| && plan.restrict[i] == gone;
    assert GoneJobs(Restrict, plan.restrict)[i] in GoneJobs(Restrict, plan.restrict);
  }

  lemma DeleteJob(o: Orders, ins: Inputs, prefixes: seq<string>, sources: Sources, path: DocPath)
    requires Sound(o) && path in GonePaths(PlanOf(o, ins, prefixes, sources).delete)
    ensures exists job :: job in InitialQueue(PlanOf(o, ins, prefixes, sources)) && job.path == path && job.action == Delete
  {
    var plan := PlanOf(o, ins, prefixes, sources);
    var i :| 0 <= i < |plan.delete| && plan.delete[i].path == path;
    assert GoneJobs(Delete, plan.delete)[i] in GoneJobs(Delete, plan.delete);
  }

  lemma ImportJob(o: Orders, ins: Inputs, prefixes: seq<string>, sources: Sources, item: Item)
    requires Sound(o) && item in Current(ins, prefixes) && QueueOf(item, sources) in {ToAdd, ToUpdate}
    ensures exists job :: job in InitialQueue(PlanOf(o, ins, prefixes, sources)) && job.path == item.path
  {
    PlanMembers(o, ins, prefixes, sources);
    var plan := PlanOf(o, ins, prefixes, sources);
    var (action, items) := if QueueOf(item, sources) == ToAdd then (Add, plan.add) else (Update, plan.update);
    var i :| 0 <= i < |items| && items[i] == item;
    assert ItemJobs(action, items)[i] in ItemJobs(action, items);
  }

  // ---------------------------------------------------------------- the fixed point

  /** `ok: true`: the whole queue ran and no item failed. */
  ghost predicate AllOk(b: Batch)
    requires Sane(b)
  {
    !b.aborted && b.index == |b.line.queue| && forall j :: 0 <= j < b.index ==> b.oks[j]
  }

  /** After an `ok` batch, every current document with a hash is recorded as unchanged. */
  lemma CurrentIsUnchanged(o: Orders, ins: Inputs, prefixes: seq<string>, s: Store, turns: nat -> Turn, item: Item)
    requires Sound(o) && Steady(s) && AllOk(Batched(o, ins, prefixes, s, turns))
    requires item in Current(ins, prefixes) && item.sha.Some?
    ensures QueueOf(item, Batched(o, ins, prefixes, s, turns).store.sources) == Unchanged
  {
    hide Batched, PlanOf, Current, Outcome, Remembered;
    var b := Batched(o, ins, prefixes, s, turns);
    BatchAccounts(o, ins, prefixes, s, turns);
    BatchQueue(o, ins, prefixes, s, turns);
    CurrentIsByPath(ins, prefixes, item, item);
    if QueueOf(item, s.sources) in {ToAdd, ToUpdate} {
      ImportJob(o, ins, prefixes, s.sources, item);
      assert item.path in b.line.queued;
    }
    if item.path in b.line.queued {
      QueuedIsRecompiled(o, ins, prefixes, s, turns, item);
      RecompiledIsCurrent(o, ins, prefixes, s, turns, item);
    } else {
      PlanMembers(o, ins, prefixes, s.sources);
      assert item.path in Paths(PlanOf(o, ins, prefixes, s.sources).same);
      assert !Finished(b, item.path) by {
        assert forall j :: 0 <= j < b.index ==> b.line.queue[j] in b.line.queue;
      }
      assert Untouched(b, s.sources, item.path);
    }
  }

  lemma QueuedIsRecompiled(o: Orders, ins: Inputs, prefixes: seq<string>, s: Store, turns: nat -> Turn, item: Item)
    requires Sound(o) && Steady(s) && AllOk(Batched(o, ins, prefixes, s, turns))
    requires item in Current(ins, prefixes)
    requires item.path in Batched(o, ins, prefixes, s, turns).line.queued
    ensures Recompiled(Batched(o, ins, prefixes, s, turns), item.path)
  {
    var b := Batched(o, ins, prefixes, s, turns);
    BatchJobsFit(o, ins, prefixes, s, turns);
    CurrentIsByPath(ins, prefixes, item, item);
    assert item in ItemsAt(ins, prefixes, item.path);
    var job :| job in b.line.queue && job.path == item.path;
    var j :| 0 <= j < |b.line.queue| && b.line.queue[j] == job;
    assert JobFits(ins, prefixes, s.sources, job);
  }

  /** After an `ok` batch, no recorded source is due for deletion. */
  lemma NothingToDelete(o: Orders, ins: Inputs, prefixes: seq<string>, s: Store, turns: nat -> Turn, path: DocPath)
    requires Sound(o) && Steady(s) && AllOk(Batched(o, ins, prefixes, s, turns))
    ensures path !in GonePaths(PlanOf(o, ins, prefixes, Batched(o, ins, prefixes, s, turns).store.sources).delete)
  {
    var after := Batched(o, ins, prefixes, s, turns).store.sources;
    DeletedIff(o, ins, prefixes, after, path);
    DeletedIff(o, ins, prefixes, s.sources, path);
    if path in GonePaths(PlanOf(o, ins, prefixes, s.sources).delete) {
      DeleteJob(o, ins, prefixes, s.sources, path);
      var job :| job in InitialQueue(PlanOf(o, ins, prefixes, s.sources)) && job.path == path && job.action == Delete;
      RetractionLasts(o, ins, prefixes, s, turns, job);
    } else if path in after {
      KeysOrigin(o, ins, prefixes, s, turns, path);
      assert path in Retain(ins, prefixes, s.sources) ==> path in Retain(ins, prefixes, after);
    }
  }

  /**
   * The fixed point: after an `ok` batch, a second plan over the same documents, known list and
   * ACL has nothing to add, update, delete or restrict.
   */
  lemma SecondPlanIsEmpty(o: Orders, ins: Inputs, prefixes: seq<string>, s: Store, turns: nat -> Turn)
    requires Sound(o) && Steady(s) && AllOk(Batched(o, ins, prefixes, s, turns))
    ensures var again := PlanOf(o, ins, prefixes, Batched(o, ins, prefixes, s, turns).store.sources);
      again.add == [] && again.update == [] && again.delete == [] && again.restrict == []
  {
    var after := Batched(o, ins, prefixes, s, turns).store.sources;
    var again := PlanOf(o, ins, prefixes, after);
    PlanMembers(o, ins, prefixes, after);
    forall item | item in Current(ins, prefixes) && item.sha.Some? {
      CurrentIsUnchanged(o, ins, prefixes, s, turns, item);
    }
    assert forall item :: item !in again.add && item !in again.update;
    forall g
      ensures g !in again.restrict && g !in again.delete
    {
      NothingToDelete(o, ins, prefixes, s, turns, g.path);
      if IsRestrictedPath(g.path, prefixes) {
        NoRestrictedSourceLeft(o, ins, prefixes, s, turns, g.path);
      }
    }
    NoMembers(again.add);
    NoMembers(again.update);
    NoMembers(again.delete);
    NoMembers(again.restrict);
  }

  lemma NoMembers<T(!new)>(q: seq<T>)
    requires forall x :: x !in q
    ensures q == []
  {
    if q != [] {
      HasMember(q);
    }
  }

  lemma HasMember<T(!new)>(q: seq<T>)
    requires q != []
    ensures exists x :: x in q
  {
    assert q[0] in q;
  }
}
