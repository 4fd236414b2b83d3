/** What a whole batch keeps, however the model, the validator and cancellation behave. */
module IngestRuns {
  import opened Text
  import opened SourcePlan
  import opened WikiTree
  import opened Ingest
  import opened IngestItems
  import opened PlanFacts

  // ---------------------------------------------------------------- the queue

  function Rank(action: Action): nat {
    match action
    case Restrict => 0
    case Delete => 2
    case _ => 1
  }

  /** Restrictions, then imports, then deletions. */
  ghost predicate Phased(queue: seq<Job>) {
    forall i, j :: 0 <= i < j < |queue| ==> Rank(queue[i].action) <= Rank(queue[j].action)
  }

  ghost predicate OncePerPath(queue: seq<Job>) {
    forall i, j :: 0 <= i < j < |queue| ==> queue[i].path != queue[j].path
  }

  ghost predicate InLine(l: Line) {
    Phased(l.queue) && OncePerPath(l.queue) && l.queued == JobPaths(l.queue)
  }

  /** Unchanged documents that a co-source could still put in the queue. */
  ghost function Waiting(l: Line, same: seq<Item>): set<DocPath> {
    Paths(same) - l.queued
  }

  /** An import may be inserted here without breaking the phases. */
  ghost predicate Between(queue: seq<Job>, at: nat) {
    && at <= |queue|
    && (forall i :: 0 <= i < at ==> Rank(queue[i].action) <= 1)
    && (forall i :: at <= i < |queue| ==> Rank(queue[i].action) >= 1)
  }

  function Inserted(queue: seq<Job>, at: nat, job: Job): (q: seq<Job>)
    requires at <= |queue|
    ensures |q| == |queue| + 1
    ensures forall k :: 0 <= k < |q| ==> q[k] == if k < at then queue[k] else if k == at then job else queue[k - 1]
  {
    queue[..at] + [job] + queue[at..]
  }

  lemma InsertPhased(queue: seq<Job>, at: nat, job: Job)
    requires Phased(queue) && Between(queue, at) && Rank(job.action) == 1
    ensures Phased(Inserted(queue, at, job)) && Between(Inserted(queue, at, job), at)
    ensures at == |queue| ==> Between(Inserted(queue, at, job), at + 1)
  {
  }

  lemma InsertOnce(queue: seq<Job>, at: nat, job: Job)
    requires OncePerPath(queue) && at <= |queue| && job.path !in JobPaths(queue)
    ensures OncePerPath(Inserted(queue, at, job))
  {
    assert forall k :: 0 <= k < |queue| ==> queue[k] in queue;
    assert forall k :: 0 <= k < |queue| ==> queue[k].path in JobPaths(queue);
  }

  lemma InsertMembers(queue: seq<Job>, at: nat, job: Job)
    requires at <= |queue|
    ensures forall j :: j in Inserted(queue, at, job) <==> j == job || j in queue
    ensures JobPaths(Inserted(queue, at, job)) == JobPaths(queue) + {job.path}
  {
    var q := Inserted(queue, at, job);
    assert q[at] == job;
    forall j | j in queue
      ensures j in q
    {
      var k :| 0 <= k < |queue| && queue[k] == j;
      assert q[if k < at then k else k + 1] == j;
    }
  }

  /** A job `requeue` creates: a recompile of an unchanged document at its current hash. */
  ghost predicate IsRecompile(job: Job, same: seq<Item>) {
    job.action == Update && exists item :: item in same && item.path == job.path && item.sha == job.sha
  }

  lemma RequeueStep(l: Line, at: nat, job: Job, same: seq<Item>)
    requires InLine(l) && Between(l.queue, at)
    requires Rank(job.action) == 1 && job.path !in l.queued && job.path in Paths(same)
    ensures var l' := Line(Inserted(l.queue, at, job), l.queued + {job.path});
      && InLine(l') && Between(l'.queue, if at == |l.queue| then at + 1 else at)
      && l'.queue[..at] == l.queue[..at]
      && |Waiting(l', same)| == |Waiting(l, same)| - 1
  {
    InsertPhased(l.queue, at, job);
    InsertOnce(l.queue, at, job);
    InsertMembers(l.queue, at, job);
    assert Paths(same) - (l.queued + {job.path}) == Waiting(l, same) - {job.path};
  }

  /** Requeueing inserts only between imports and deletions, each path once, and uses up `Waiting`. */
  lemma {:induction false} RequeueKeeps(l: Line, at: nat, paths: seq<DocPath>, same: seq<Item>)
    requires InLine(l) && Between(l.queue, at)
    ensures var l' := Requeue(l, at, paths, same);
      InLine(l') && |l'.queue| + |Waiting(l', same)| == |l.queue| + |Waiting(l, same)|
    decreases |paths|
  {
    if paths != [] {
      var found := FindItem(same, paths[0]);
      if paths[0] in l.queued || found.None? {
        RequeueKeeps(l, at, paths[1..], same);
      } else {
        var job := Job(Update, paths[0], found.value.sha);
        RequeueStep(l, at, job, same);
        RequeueKeeps(Line(Inserted(l.queue, at, job), l.queued + {paths[0]}),
          if at == |l.queue| then at + 1 else at, paths[1..], same);
      }
    }
  }

  /** Everything before the insertion point stays where it is. */
  lemma {:induction false} RequeuePrefix(l: Line, at: nat, paths: seq<DocPath>, same: seq<Item>)
    requires at <= |l.queue|
    ensures var l' := Requeue(l, at, paths, same);
      at <= |l'.queue| && forall k :: 0 <= k < at ==> l'.queue[k] == l.queue[k]
    decreases |paths|
  {
    if paths != [] {
      var found := FindItem(same, paths[0]);
      if paths[0] in l.queued || found.None? {
        RequeuePrefix(l, at, paths[1..], same);
      } else {
        var job := Job(Update, paths[0], found.value.sha);
        RequeuePrefix(Line(Inserted(l.queue, at, job), l.queued + {paths[0]}),
          if at == |l.queue| then at + 1 else at, paths[1..], same);
      }
    }
  }

  /** Requeueing loses no job, adds only recompiles, and queues every unchanged path it is handed. */
  lemma {:induction false} RequeueAdds(l: Line, at: nat, paths: seq<DocPath>, same: seq<Item>)
    requires at <= |l.queue|
    ensures var l' := Requeue(l, at, paths, same);
      && l.queued <= l'.queued
      && (forall path :: path in paths && path in Paths(same) ==> path in l'.queued)
      && (forall job :: job in l.queue ==> job in l'.queue)
      && (forall job :: job in l'.queue ==> job in l.queue || IsRecompile(job, same))
    decreases |paths|
  {
    if paths != [] {
      var found := FindItem(same, paths[0]);
      if paths[0] in l.queued || found.None? {
        RequeueAdds(l, at, paths[1..], same);
      } else {
        var job := Job(Update, paths[0], found.value.sha);
        InsertMembers(l.queue, at, job);
        assert IsRecompile(job, same);
        RequeueAdds(Line(Inserted(l.queue, at, job), l.queued + {paths[0]}),
          if at == |l.queue| then at + 1 else at, paths[1..], same);
      }
    }
  }

  lemma InsertAtBetween(queue: seq<Job>)
    requires Phased(queue)
    ensures Between(queue, InsertAt(queue))
    ensures forall i :: 0 <= i < |queue| && queue[i].action == Restrict ==> i < InsertAt(queue)
  {
    var at := InsertAt(queue);
    if at < |queue| {
      assert forall i :: at < i < |queue| ==> Rank(queue[at].action) <= Rank(queue[i].action);
    }
  }

  // ---------------------------------------------------------------- one step

  ghost predicate Going(b: Batch) {
    Sane(b) && InLine(b.line) && Steady(b.store)
  }

  ghost function Measure(b: Batch, same: seq<Item>): nat
    requires Sane(b)
  {
    |b.line.queue| - b.index + |Waiting(b.line, same)|
  }

  /** The co-sources one step hands to `requeue`. */
  function Handed(job: Job, attempt: Attempt): set<DocPath> {
    if attempt.Done? && job.action == Restrict then attempt.coSources else {}
  }

  ghost function HandedBy(b: Batch, t: Turn): set<DocPath>
    requires Sane(b) && b.index < |b.line.queue|
  {
    Handed(b.line.queue[b.index], RunJob(b.store, b.line.queue[b.index], t).1)
  }

  /** The queue after one step: finished jobs stay put, insertions land after the cursor. */
  lemma StepLine(o: Orders, same: seq<Item>, b: Batch, t: Turn)
    requires Sound(o) && Going(b) && b.index < |b.line.queue| && !t.stop
    ensures var b', i := StepBatch(o, same, b, t), b.index;
      && InLine(b'.line)
      && i < |b'.line.queue| && (forall k :: 0 <= k <= i ==> b'.line.queue[k] == b.line.queue[k])
      && |b'.line.queue| + |Waiting(b'.line, same)| == |b.line.queue| + |Waiting(b.line, same)|
  {
    var paths := o.paths(HandedBy(b, t));
    InsertAtBetween(b.line.queue);
    if b.line.queue[b.index].action == Restrict {
      RequeueKeeps(b.line, InsertAt(b.line.queue), paths, same);
      RequeuePrefix(b.line, InsertAt(b.line.queue), paths, same);
    } else {
      assert Lists(paths, {});
    }
  }

  /** The queue after one step keeps its jobs and gains the handed paths that were unchanged. */
  lemma StepQueues(o: Orders, same: seq<Item>, b: Batch, t: Turn)
    requires Sound(o) && Sane(b) && b.index < |b.line.queue| && !t.stop
    ensures var l, l' := b.line, StepBatch(o, same, b, t).line;
      && l.queued <= l'.queued
      && (forall path :: path in HandedBy(b, t) && path in Paths(same) ==> path in l'.queued)
      && (forall job :: job in l.queue ==> job in l'.queue)
      && (forall job :: job in l'.queue ==> job in l.queue || IsRecompile(job, same))
  {
    assert Lists(o.paths(HandedBy(b, t)), HandedBy(b, t));
    RequeueAdds(b.line, InsertAt(b.line.queue), o.paths(HandedBy(b, t)), same);
  }

  lemma StepKeeps(o: Orders, same: seq<Item>, b: Batch, t: Turn)
    requires Sound(o) && Going(b) && b.index < |b.line.queue| && !t.stop
    ensures var b' := StepBatch(o, same, b, t);
      Going(b') && Measure(b', same) < Measure(b, same)
  {
    StepLine(o, same, b, t);
    RunJobAtomic(b.store, b.line.queue[b.index], t);
  }

  /** The loop of `ingestBatch` from any state: it ends, because each requeue uses up a waiting document. */
  ghost function Run(o: Orders, same: seq<Item>, b: Batch, turns: nat -> Turn): (b': Batch)
    requires Sound(o) && Going(b)
    ensures Going(b') && (b'.aborted || b'.index == |b'.line.queue|)
    decreases Measure(b, same)
  {
    if b.aborted || b.index == |b.line.queue| then b
    else if turns(b.index).stop then b.(aborted := true)
    else
      StepKeeps(o, same, b, turns(b.index));
      Run(o, same, StepBatch(o, same, b, turns(b.index)), turns)
  }

  /** A run is cancelled exactly at the first item whose turn says so; the items before it have all been run. */
  lemma {:induction false} CancelledIff(o: Orders, same: seq<Item>, b: Batch, turns: nat -> Turn)
    requires Sound(o) && Going(b) && !b.aborted
    ensures var b' := Run(o, same, b, turns);
      && b.index <= b'.index && (forall k: nat :: b.index <= k < b'.index ==> !turns(k).stop)
      && (b'.aborted <==> b'.index < |b'.line.queue| && turns(b'.index).stop)
    decreases Measure(b, same)
  {
    hide StepBatch, Measure;
    if b.index != |b.line.queue| && !turns(b.index).stop {
      StepKeeps(o, same, b, turns(b.index));
      OneFurther(o, same, b, turns(b.index));
      CancelledIff(o, same, StepBatch(o, same, b, turns(b.index)), turns);
    }
  }

  lemma OneFurther(o: Orders, same: seq<Item>, b: Batch, t: Turn)
    requires Sane(b) && b.index < |b.line.queue| && !t.stop
    ensures StepBatch(o, same, b, t).index == b.index + 1 && !StepBatch(o, same, b, t).aborted
  {
    hide RunJob, Requeue;
  }

  // ---------------------------------------------------------------- what has happened so far

  ghost predicate IsImport(action: Action) {
    action == Add || action == Update
  }

  /** A finished import of `path` that succeeded. */
  ghost predicate Recompiled(b: Batch, path: DocPath)
    requires Sane(b)
  {
    exists j :: 0 <= j < b.index && b.line.queue[j].path == path && b.oks[j] && IsImport(b.line.queue[j].action)
  }

  ghost predicate Finished(b: Batch, path: DocPath)
    requires Sane(b)
  {
    exists j :: 0 <= j < b.index && b.line.queue[j].path == path
  }

  /** What a finished job left in `state.sources`. */
  ghost predicate Outcome(b: Batch, j: nat)
    requires Sane(b) && j < b.index
  {
    var job := b.line.queue[j];
    b.oks[j] ==>
      if IsImport(job.action) then job.path in b.store.sources && Fresh(b.store.sources[job.path], job.sha)
      else job.path !in b.store.sources
  }

  /** A path no job has finished for: its entry is the original one, perhaps without its hash. */
  ghost predicate Untouched(b: Batch, original: Sources, path: DocPath) {
    && (path in b.store.sources <==> path in original)
    && (path in original ==>
          b.store.sources[path] == original[path]
          || (path in b.dropped && b.store.sources[path] == original[path].(sha := None)))
  }

  /** A co-source of a dropped page is recompiled, gone, or recorded without a hash. */
  ghost predicate Remembered(b: Batch, path: DocPath)
    requires Sane(b)
  {
    path !in b.store.sources || b.store.sources[path].sha == None || Recompiled(b, path)
  }

  ghost predicate Accounts(b: Batch, original: Sources, same: seq<Item>) {
    && Going(b)
    && (forall j :: 0 <= j < b.index ==> Outcome(b, j))
    && (forall path :: !Finished(b, path) ==> Untouched(b, original, path))
    && (forall path :: path in b.dropped && path in Paths(same) ==> path in b.line.queued)
    && (forall path :: path in b.dropped ==> Remembered(b, path))
    && (forall path :: path in b.store.sources ==> path in original || Recompiled(b, path))
  }

  // ---------------------------------------------------------------- every step keeps the accounts

  /** The effect of one job on `state.sources`, per kind of job and result. */
  ghost predicate Effect(before: Sources, after: Sources, job: Job, ok: bool, handed: set<DocPath>) {
    if ok && IsImport(job.action) then
      handed == {} && job.path in after && Fresh(after[job.path], job.sha) && after == before[job.path := after[job.path]]
    else if ok then
      && after == MarkForRecompile(before - {job.path}, handed)
      && (job.action != Restrict ==> handed == {})
    else handed == {} && (after == before || after == before - {job.path})
  }

  lemma StepEffect(o: Orders, same: seq<Item>, b: Batch, t: Turn)
    requires Sound(o) && Going(b) && b.index < |b.line.queue| && !t.stop
    ensures var b' := StepBatch(o, same, b, t);
      && b'.index == b.index + 1 && b'.oks[..b.index] == b.oks && b'.dropped == b.dropped + HandedBy(b, t)
      && Effect(b.store.sources, b'.store.sources, b.line.queue[b.index], b'.oks[b.index], HandedBy(b, t))
  {
    hide IngestOne, RetractOne, Requeue, InsertAt, Grown, Covers;
    var job := b.line.queue[b.index];
    if IsImport(job.action) {
      IngestOneAtomic(b.store, job, t);
    } else {
      RetractOneAtomic(b.store, job, job.action == Restrict, t);
      assert MarkForRecompile(b.store.sources - {job.path}, {}) == b.store.sources - {job.path};
    }
  }

  /** The next state of the run, with what the earlier lemmas say about it. */
  ghost predicate Next(b: Batch, b': Batch, handed: set<DocPath>, same: seq<Item>) {
    && Going(b) && Going(b') && b.index < |b.line.queue|
    && b'.index == b.index + 1 && b'.oks[..b.index] == b.oks && b'.dropped == b.dropped + handed
    && (forall k :: 0 <= k <= b.index ==> b'.line.queue[k] == b.line.queue[k])
    && b.line.queued <= b'.line.queued
    && (forall path :: path in handed && path in Paths(same) ==> path in b'.line.queued)
    && Effect(b.store.sources, b'.store.sources, b.line.queue[b.index], b'.oks[b.index], handed)
  }

  lemma StepIsNext(o: Orders, same: seq<Item>, b: Batch, t: Turn)
    requires Sound(o) && Going(b) && b.index < |b.line.queue| && !t.stop
    ensures Next(b, StepBatch(o, same, b, t), HandedBy(b, t), same)
  {
    StepKeeps(o, same, b, t);
    StepLine(o, same, b, t);
    StepQueues(o, same, b, t);
    StepEffect(o, same, b, t);
  }

  lemma NextFinished(b: Batch, b': Batch, handed: set<DocPath>, same: seq<Item>, path: DocPath)
    requires Next(b, b', handed, same)
    ensures Finished(b', path) <==> Finished(b, path) || path == b.line.queue[b.index].path
    ensures Recompiled(b, path) ==> Recompiled(b', path)
  {
    assert b'.line.queue[b.index].path == b.line.queue[b.index].path;
    if j :| 0 <= j < b.index && b.line.queue[j].path == path && b.oks[j] && IsImport(b.line.queue[j].action) {
      assert b'.oks[j] == b'.oks[..b.index][j];
    }
    if j :| 0 <= j < b.index && b.line.queue[j].path == path {
      assert b'.line.queue[j].path == path;
    }
  }

  /** Finished jobs keep their outcome, and the one just finished has its own. */
  lemma NextOutcome(b: Batch, b': Batch, handed: set<DocPath>, same: seq<Item>, j: nat)
    requires Next(b, b', handed, same) && j < b'.index
    requires j < b.index ==> Outcome(b, j)
    ensures Outcome(b', j)
  {
    var job := b.line.queue[b.index];
    if j < b.index {
      assert b'.oks[j] == b'.oks[..b.index][j];
      assert b.line.queue[j].path != job.path;
      assert Rank(b.line.queue[j].action) <= Rank(job.action);
    }
  }

  lemma NextUntouched(b: Batch, b': Batch, handed: set<DocPath>, same: seq<Item>, original: Sources, path: DocPath)
    requires Next(b, b', handed, same) && path != b.line.queue[b.index].path && Untouched(b, original, path)
    ensures Untouched(b', original, path)
  {
  }

  lemma NextRemembered(b: Batch, b': Batch, handed: set<DocPath>, same: seq<Item>, original: Sources, path: DocPath)
    requires Next(b, b', handed, same) && path in b'.dropped
    requires path in b.dropped ==> Remembered(b, path)
    ensures Remembered(b', path)
  {
    var i := b.index;
    var job := b.line.queue[i];
    NextFinished(b, b', handed, same, path);
    if path == job.path {
      assert b'.line.queue[i] == job;
      assert forall j :: 0 <= j < i ==> b.line.queue[j].path != job.path;
    }
  }

  lemma NextKeys(b: Batch, b': Batch, handed: set<DocPath>, same: seq<Item>, original: Sources, path: DocPath)
    requires Next(b, b', handed, same) && path in b'.store.sources
    requires path in b.store.sources ==> path in original || Recompiled(b, path)
    ensures path in original || Recompiled(b', path)
  {
    NextFinished(b, b', handed, same, path);
    assert b'.line.queue[b.index] == b.line.queue[b.index];
  }

  lemma NextAccounts(b: Batch, b': Batch, handed: set<DocPath>, same: seq<Item>, original: Sources)
    requires Next(b, b', handed, same) && Accounts(b, original, same)
    ensures Accounts(b', original, same)
  {
    forall j | 0 <= j < b'.index
      ensures Outcome(b', j)
    {
      NextOutcome(b, b', handed, same, j);
    }
    forall path | !Finished(b', path)
      ensures Untouched(b', original, path)
    {
      NextFinished(b, b', handed, same, path);
      NextUntouched(b, b', handed, same, original, path);
    }
    forall path | path in b'.dropped
      ensures Remembered(b', path)
    {
      NextRemembered(b, b', handed, same, original, path);
    }
    forall path | path in b'.store.sources
      ensures path in original || Recompiled(b', path)
    {
      NextKeys(b, b', handed, same, original, path);
    }
  }

  /** The accounts hold at the end of every run, finished or cancelled. */
  lemma {:induction false} RunAccounts(o: Orders, same: seq<Item>, b: Batch, turns: nat -> Turn, original: Sources)
    requires Sound(o) && Accounts(b, original, same)
    ensures Accounts(Run(o, same, b, turns), original, same)
    decreases Measure(b, same)
  {
    if !b.aborted && b.index < |b.line.queue| {
      var t := turns(b.index);
      if !t.stop {
        StepKeeps(o, same, b, t);
        StepIsNext(o, same, b, t);
        NextAccounts(b, StepBatch(o, same, b, t), HandedBy(b, t), same, original);
        RunAccounts(o, same, StepBatch(o, same, b, t), turns, original);
      } else {
        AbortAccounts(b, original, same);
      }
    }
  }

  lemma AbortAccounts(b: Batch, original: Sources, same: seq<Item>)
    requires Accounts(b, original, same)
    ensures Accounts(b.(aborted := true), original, same)
  {
    var b' := b.(aborted := true);
    assert forall path :: Finished(b', path) <==> Finished(b, path);
    assert forall path :: Recompiled(b', path) <==> Recompiled(b, path);
    assert forall j :: 0 <= j < b.index ==> Outcome(b, j) ==> Outcome(b', j);
    assert forall path :: Untouched(b, original, path) ==> Untouched(b', original, path);
  }
}
