/**
 * `ingestBatch` (ingest.js) on values: the queue that grows while it runs, and the two kinds of
 * item, each of which commits or leaves no trace. `Turn` holds everything the run does not
 * control: extraction, the model, which may rewrite the whole worktree or throw, the passes that
 * tidy its output, the validator's verdict and cancellation; which files git ignores in a worktree,
 * for the model may leave a `.gitignore`; and how the rest of JSON is read.
 */
module Ingest {
  import opened Text
  import opened SourcePlan
  import opened WikiTree
  import opened PageFile
  import F = Frontmatter

  /** The git repository, its worktree, and `state.sources` in memory and on disk. */
  datatype Store = Store(
    commits: seq<Wiki>, head: nat, worktree: Wiki, sources: Sources, saved: Sources)

  predicate WellFormed(s: Store) {
    s.head < |s.commits|
  }

  /** Nothing uncommitted, nothing unsaved. */
  predicate Clean(s: Store) {
    WellFormed(s) && s.worktree == s.commits[s.head] && s.saved == s.sources
  }

  /** Every file of the commit lies in the worktree as committed. */
  predicate Covers(w: Wiki, commit: Wiki) {
    && (forall slug :: slug in commit.pages ==> slug in w.pages && w.pages[slug] == commit.pages[slug])
    && (commit.index.Some? ==> w.index == commit.index)
    && (forall rel :: rel in commit.other ==> rel in w.other && w.other[rel] == commit.other[rel])
  }

  /** Nothing unsaved, and nothing uncommitted but files that git ignores. */
  predicate Steady(s: Store) {
    WellFormed(s) && Covers(s.worktree, s.commits[s.head]) && s.saved == s.sources
  }

  /** The files git ignores, unless they are tracked. */
  datatype Ignored = Ignored(pages: set<Slug>, index: bool, other: set<string>)

  datatype Extraction = Unreadable | Rejected | TooLarge | Accepted(cacheKey: string)

  datatype Model = Threw(tree: Wiki) | Answered(tree: Wiki, affected: seq<string>)

  /** A pass over the worktree gives the tree it leaves, also when it throws. */
  type Pass = Wiki -> Result<Wiki, Wiki>

  datatype Turn = Turn(
    stop: bool, extraction: Extraction, model: Model, reindex: Pass, tidy: Pass, valid: Wiki -> bool,
    ignored: Wiki -> Ignored, json: F.JsonReader)

  datatype Job = Job(action: Action, path: DocPath, sha: Option<Hash>)

  // ---------------------------------------------------------------- git

  /** The worktree without the untracked files that git ignores: what `git add -A` stages. */
  function Staged(w: Wiki, head: Wiki, ignored: Ignored): Wiki {
    Wiki(
      map slug | slug in w.pages && (slug in head.pages || slug !in ignored.pages) :: w.pages[slug],
      if head.index.None? && ignored.index then None else w.index,
      map rel | rel in w.other && (rel in head.other || rel !in ignored.other) :: w.other[rel])
  }

  /** Those files: `git clean -fd` leaves them. */
  function Unstaged(w: Wiki, head: Wiki, ignored: Ignored): Wiki {
    Wiki(
      map slug | slug in w.pages && slug !in head.pages && slug in ignored.pages :: w.pages[slug],
      if head.index.None? && ignored.index then w.index else None,
      map rel | rel in w.other && rel !in head.other && rel in ignored.other :: w.other[rel])
  }

  const NO_FILES: Wiki := Wiki(map[], None, map[])

  /** A commit, and beside it files that it does not have. */
  function Beside(commit: Wiki, files: Wiki): Wiki {
    Wiki(commit.pages + files.pages, if commit.index.Some? then commit.index else files.index, commit.other + files.other)
  }

  /** `commitAll`. */
  function CommitAll(s: Store, ignored: Ignored): Store
    requires WellFormed(s)
  {
    var staged := Staged(s.worktree, s.commits[s.head], ignored);
    if staged == s.commits[s.head] then s
    else s.(commits := s.commits + [staged], head := |s.commits|)
  }

  /** `resetHard`. */
  function ResetHard(s: Store, commit: nat, ignored: Ignored): Store
    requires commit < |s.commits|
  {
    s.(head := commit, worktree := Beside(s.commits[commit], Unstaged(s.worktree, s.commits[commit], ignored)))
  }

  function Save(s: Store): Store {
    s.(saved := s.sources)
  }

  // ---------------------------------------------------------------- add and update

  /** What a successful import records. */
  function Imported(job: Job, cacheKey: string, affected: seq<string>, commit: nat): Entry {
    Entry(job.sha, Some(cacheKey), Some(affected), true, Some(commit), None)
  }

  predicate IsPage(rel: string) {
    StartsWith(rel, "pages/")
  }

  predicate HasPages(rels: seq<string>) {
    exists rel :: rel in rels && IsPage(rel)
  }

  /** The entry a failed import puts back; without imported pages there is none. */
  function Restorable(previous: Option<Entry>): bool {
    previous.Some? && previous.value.imported && previous.value.pages.Some? && HasPages(previous.value.pages.value)
  }

  function RestoreEntry(sources: Sources, path: DocPath, previous: Option<Entry>): Sources {
    if Restorable(previous) then sources[path := previous.value] else sources - {path}
  }

  function Recorded(sources: Sources, path: DocPath): Option<Entry> {
    if path in sources then Some(sources[path]) else None
  }

  function MarkPending(sources: Sources, job: Job, commit: nat): Sources {
    var pending := Some(Pending(job.action, job.sha, commit));
    sources[job.path :=
      if job.path in sources then sources[job.path].(pending := pending)
      else Entry(None, None, None, false, None, pending)]
  }

  /** The worktree the validator accepted, if the whole compile went through, or the one it failed with. */
  function Compiled(job: Job, t: Turn): Result<Wiki, Wiki> {
    match t.model
    case Threw(tree) => Err(tree)
    case Answered(tree, affected) =>
      match t.tidy(tree)
      case Err(stuck) => Err(stuck)
      case Ok(tidied) => if HasPages(affected) && t.valid(tidied) && job.sha.Some? then Ok(tidied) else Err(tidied)
  }

  /** `ingestOne`: the store after it, and whether it succeeded. */
  function IngestOne(s: Store, job: Job, t: Turn): (Store, bool)
    requires WellFormed(s)
  {
    if !t.extraction.Accepted? then (s, false)
    else
      var previous := Recorded(s.sources, job.path);
      var pending := Save(s.(sources := MarkPending(s.sources, job, s.head)));
      match Compiled(job, t)
      case Ok(tree) =>
        var committed := CommitAll(pending.(worktree := tree), t.ignored(tree));
        var entry := Imported(job, t.extraction.cacheKey, t.model.affected, committed.head);
        (Save(committed.(sources := committed.sources[job.path := entry])), true)
      case Err(tree) =>
        var reset := ResetHard(pending.(worktree := tree), s.head, t.ignored(tree));
        (Save(reset.(sources := RestoreEntry(reset.sources, job.path, previous))), false)
  }

  // ---------------------------------------------------------------- retracting

  /** Put the snapshot of `slugs` and of the index back. */
  function RestorePages(w: Wiki, slugs: set<Slug>, from: Wiki): Wiki {
    var kept := map slug | slug in w.pages && slug !in slugs :: w.pages[slug];
    var back := map slug | slug in slugs && slug in from.pages :: from.pages[slug];
    w.(pages := kept + back, index := from.index)
  }

  /** Files that are neither in the commit nor in the snapshot go, unless git ignores them. */
  function DiscardModelOnly(w: Wiki, before: Wiki, slugs: set<Slug>, ignored: Ignored): Wiki {
    w.(
      pages := map slug | slug in w.pages && (slug in before.pages || slug in slugs || slug in ignored.pages) :: w.pages[slug],
      other := map rel | rel in w.other && (rel in before.other || rel in ignored.other) :: w.other[rel])
  }

  datatype Retraction = Retraction(tree: Wiki, coSources: set<DocPath>)

  /** The pages still citing the source once those citing nothing else are gone. */
  function CitingBeforeModel(s: Store, path: DocPath): set<Slug> {
    Citing(DropOnlyCiting(s.worktree, path), path)
  }

  /** The model left a page of the snapshot blank, or one that cites the source still. */
  predicate ModelFellShort(model: Model, seen: Wiki, slugs: set<Slug>, path: DocPath) {
    model.Threw? || Citing(seen, path) != {} || exists slug :: slug in slugs && (slug !in seen.pages || seen.pages[slug].Broken?)
  }

  /** The worktree up to the tidying passes, or the one that is left when the index cannot be rebuilt. */
  function Retracted(s: Store, path: DocPath, restricted: bool, t: Turn): Result<Retraction, Wiki>
    requires WellFormed(s)
  {
    var dropped := DropOnlyCiting(s.worktree, path);
    var slugs := CitingBeforeModel(s, path);
    if slugs == {} then Ok(Retraction(dropped, {}))
    else
      match t.reindex(dropped)
      case Err(stuck) => Err(stuck)
      case Ok(snap) =>
        var seen := if t.model.Threw? then RestorePages(t.model.tree, slugs, snap) else t.model.tree;
        if !ModelFellShort(t.model, seen, slugs, path) then Ok(Retraction(seen, {}))
        else
          var back := RestorePages(DiscardModelOnly(seen, s.commits[s.head], slugs, t.ignored(seen)), slugs, snap);
          if restricted then Ok(Retraction(DropCiting(back, path), CoSources(back, path)))
          else Ok(Retraction(Detach(back, path, t.json), {}))
  }

  /** `markForRecompile`. */
  function MarkForRecompile(sources: Sources, paths: set<DocPath>): Sources {
    map path | path in sources :: if path in paths then sources[path].(sha := None) else sources[path]
  }

  datatype Attempt = Failed | Done(coSources: set<DocPath>)

  /** The tidied tree of a retraction that may be committed, or the tree the retraction failed with. */
  function Committable(s: Store, path: DocPath, restricted: bool, t: Turn): Result<Retraction, Wiki>
    requires WellFormed(s) && path in s.sources
  {
    match Retracted(s, path, restricted, t)
    case Err(stuck) => Err(stuck)
    case Ok(r) =>
      match t.tidy(r.tree)
      case Err(stuck) => Err(stuck)
      case Ok(tidied) =>
        // `ingestMessage` slices the recorded hash, so an entry without one cannot be committed.
        if Citing(tidied, path) == {} && t.valid(tidied) && s.sources[path].sha.Some?
        then Ok(r.(tree := tidied)) else Err(tidied)
  }

  /** `retractOne`. */
  function RetractOne(s: Store, job: Job, restricted: bool, t: Turn): (Store, Attempt)
    requires WellFormed(s)
  {
    if job.path !in s.sources then (s, Done({}))
    else
      var previous := s.sources[job.path];
      var pending := Save(s.(sources := MarkPending(s.sources, Job(Delete, job.path, previous.sha), s.head)));
      match Committable(s, job.path, restricted, t)
      case Ok(r) =>
        var committed := CommitAll(pending.(worktree := r.tree), t.ignored(r.tree));
        (Save(committed.(sources := MarkForRecompile(committed.sources - {job.path}, r.coSources))), Done(r.coSources))
      case Err(tree) =>
        var reset := ResetHard(pending.(worktree := tree), s.head, t.ignored(tree));
        (Save(reset.(sources := reset.sources[job.path := previous])), Failed)
  }

  /** One queue item. */
  function RunJob(s: Store, job: Job, t: Turn): (Store, Attempt)
    requires WellFormed(s)
  {
    match job.action
    case Restrict => RetractOne(s, job, true, t)
    case Delete => RetractOne(s, job, false, t)
    case _ =>
      var (s', ok) := IngestOne(s, job, t);
      (s', if ok then Done({}) else Failed)
  }

  // ---------------------------------------------------------------- the queue

  function GoneJobs(action: Action, gone: seq<Gone>): (r: seq<Job>)
    ensures |r| == |gone|
    ensures forall i :: 0 <= i < |r| ==> r[i] == Job(action, gone[i].path, gone[i].sha)
  {
    seq(|gone|, i requires 0 <= i < |gone| => Job(action, gone[i].path, gone[i].sha))
  }

  function ItemJobs(action: Action, items: seq<Item>): (r: seq<Job>)
    ensures |r| == |items|
    ensures forall i :: 0 <= i < |r| ==> r[i] == Job(action, items[i].path, items[i].sha)
  {
    seq(|items|, i requires 0 <= i < |items| => Job(action, items[i].path, items[i].sha))
  }

  function InitialQueue(plan: Plan): seq<Job> {
    GoneJobs(Restrict, plan.restrict) + ItemJobs(Add, plan.add) + ItemJobs(Update, plan.update) + GoneJobs(Delete, plan.delete)
  }

  function JobPaths(queue: seq<Job>): set<DocPath> {
    set job | job in queue :: job.path
  }

  /** `findIndex` of the first delete, or the end of the queue. */
  function InsertAt(queue: seq<Job>): (k: nat)
    ensures k <= |queue|
    ensures forall i :: 0 <= i < k ==> queue[i].action != Delete
    ensures k < |queue| ==> queue[k].action == Delete
  {
    if queue == [] || queue[0].action == Delete then 0 else 1 + InsertAt(queue[1..])
  }

  function FindItem(items: seq<Item>, path: DocPath): (r: Option<Item>)
    ensures r.Some? ==> r.value in items && r.value.path == path
    ensures r.None? ==> forall item :: item in items ==> item.path != path
  {
    if items == [] then None
    else if items[0].path == path then Some(items[0])
    else FindItem(items[1..], path)
  }

  datatype Line = Line(queue: seq<Job>, queued: set<DocPath>)

  /** `requeue`: every insertion goes to the position found before the first one. */
  function Requeue(l: Line, at: nat, paths: seq<DocPath>, same: seq<Item>): Line
    requires at <= |l.queue|
    decreases |paths|
  {
    if paths == [] then l
    else
      var found := FindItem(same, paths[0]);
      if paths[0] in l.queued || found.None? then Requeue(l, at, paths[1..], same)
      else
        // With no delete queued the code pushes, so its position moves with the end.
        var job := Job(Update, paths[0], found.value.sha);
        var pushed := at == |l.queue|;
        var l' := Line(l.queue[..at] + [job] + l.queue[at..], l.queued + {paths[0]});
        Requeue(l', if pushed then at + 1 else at, paths[1..], same)
  }

  /** A run in progress: `oks` says how each finished job went, `dropped` collects co-sources. */
  datatype Batch = Batch(
    store: Store, line: Line, index: nat, oks: seq<bool>, dropped: set<DocPath>, aborted: bool)

  predicate Sane(b: Batch) {
    WellFormed(b.store) && b.index <= |b.line.queue| && |b.oks| == b.index
  }

  function Start(s: Store, plan: Plan): Batch {
    Batch(s, Line(InitialQueue(plan), JobPaths(InitialQueue(plan))), 0, [], {}, false)
  }

  function StepBatch(o: Orders, same: seq<Item>, b: Batch, t: Turn): (b': Batch)
    requires Sane(b) && b.index < |b.line.queue|
  {
    if t.stop then b.(aborted := true)
    else
      var job := b.line.queue[b.index];
      var (s, attempt) := RunJob(b.store, job, t);
      var coSources := if attempt.Done? && job.action == Restrict then attempt.coSources else {};
      Batch(
        s, Requeue(b.line, InsertAt(b.line.queue), o.paths(coSources), same),
        b.index + 1, b.oks + [attempt.Done?], b.dropped + coSources, false)
  }
}
