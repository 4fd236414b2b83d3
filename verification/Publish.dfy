/**
 * `publishWiki` (publish.js) on values: what one attempt decides, and the file steps it then
 * takes in order. A crash is a state after a prefix of those steps.
 */
module Publish {
  import opened Text
  import opened WikiPath
  import opened TreeHash

  /** A commit is its position in `repo`; the repository only grows. */
  type Commit = nat

  datatype Marker = Marker(toCommit: Commit, targetTreeHash: string)

  datatype World = World(
    repo: seq<Tree>, head: Commit, worktree: Tree,
    vault: Tree, published: Option<Commit>, syncStatus: string,
    marker: Option<Marker>)

  /** `rebuild` is `rebuildIndex`, `live` is `pageStillHasSource`. */
  datatype Env = Env(hasher: Hasher, rebuild: Tree -> Option<Tree>, live: Bytes -> bool)

  /** What the sync step gives: there may be no adapter, or one that returns nothing. */
  datatype Sync = NoAdapter | Nothing | Blocked | NotOk | Synced | Throws

  datatype Expected = Expected(commit: Commit, targetTreeHash: string, baseTreeHash: Option<string>)

  datatype Opts = Opts(forceReplay: bool, conflicts: bool, expected: Option<Expected>, sync: Sync)

  datatype Plan = Plan(
    fromCommit: Option<Commit>, baseTreeHash: Option<string>, toCommit: Commit,
    create: seq<Path>, update: seq<Path>, delete: seq<Path>, targetTreeHash: string)

  /** `rebuildIndex` may rewrite pages but keeps every file, and leaves an index. */
  ghost predicate SoundEnv(env: Env) {
    && Sound(env.hasher)
    && (forall t {:trigger env.rebuild(t)} :: env.rebuild(t).Some? ==> env.rebuild(t).value.Keys == t.Keys + {INDEX})
  }

  predicate WellFormed(w: World) {
    && w.head < |w.repo|
    && (w.published.Some? ==> w.published.value < |w.repo|)
  }

  function BaseTree(w: World): Tree
    requires WellFormed(w)
  {
    if w.published.None? then map[] else Listed(w.repo[w.published.value])
  }

  function TargetTree(w: World): Tree
    requires WellFormed(w)
  {
    Listed(w.repo[w.head])
  }

  // ---------------------------------------------------------------- absorbing the team vault

  /** A vault page that HEAD lacks and that still has a source. */
  predicate IsMissing(env: Env, vault: Tree, inHead: Tree, rel: Path) {
    rel in vault && rel != INDEX && rel !in inHead && env.live(vault[rel])
  }

  function MissingPages(env: Env, w: World): set<Path>
    requires WellFormed(w)
  {
    set rel | rel in Walked(w.vault).Keys && IsMissing(env, w.vault, TargetTree(w), rel)
  }

  predicate Absorbs(env: Env, w: World)
    requires WellFormed(w)
  {
    w.marker.None? && w.published.None? && MissingPages(env, w) != {}
  }

  function Restrict(t: Tree, rels: set<Path>): Tree {
    map rel | rel in rels && rel in t :: t[rel]
  }

  function CopiedIn(env: Env, w: World): Tree
    requires WellFormed(w)
  {
    w.worktree + Restrict(w.vault, MissingPages(env, w))
  }

  function CommitAll(w: World): World
    requires WellFormed(w)
  {
    if w.worktree == w.repo[w.head] then w else w.(repo := w.repo + [w.worktree], head := |w.repo|)
  }

  /** `absorbPublishedVault`: the rebuilt index may be unreadable, which ends the attempt. */
  function Absorb(env: Env, w: World): (r: Result<World, World>)
    requires WellFormed(w)
    ensures var w' := if r.Ok? then r.value else r.error;
      WellFormed(w') && w'.vault == w.vault && w'.marker == w.marker
  {
    if !Absorbs(env, w) then Ok(w)
    else
      var copied := w.(worktree := CopiedIn(env, w));
      match env.rebuild(copied.worktree)
      case None => Err(copied)
      case Some(tree) =>
        Ok(CommitAll(copied.(repo := w.repo + [Walked(w.vault)], worktree := tree, published := Some(|w.repo|))))
  }

  // ---------------------------------------------------------------- the decision

  /** The rows of `git diff --name-status` between the two trees. */
  function Created(base: Tree, target: Tree): set<Path> {
    set rel | rel in target && rel !in base
  }

  function Updated(base: Tree, target: Tree): set<Path> {
    set rel | rel in target && rel in base && base[rel] != target[rel]
  }

  function Deleted(base: Tree, target: Tree): set<Path> {
    set rel | rel in base && rel !in target
  }

  function BuildPlan(env: Env, w: World): Plan
    requires Sound(env.hasher) && WellFormed(w)
  {
    var base, target := BaseTree(w), TargetTree(w);
    Plan(
      w.published,
      if w.published.None? then None else Some(HashEntries(env.hasher, base)),
      w.head,
      env.hasher.order(Created(base, target)),
      env.hasher.order(Updated(base, target)),
      env.hasher.order(Deleted(base, target)),
      HashEntries(env.hasher, target))
  }

  /** `assertVaultBaseline` lets the attempt pass. */
  predicate BaselineOk(env: Env, w: World)
    requires Sound(env.hasher) && WellFormed(w)
  {
    var actual := HashEntries(env.hasher, Walked(w.vault));
    || actual == HashEntries(env.hasher, TargetTree(w))
    || (if w.published.None? then Walked(w.vault) == map[] else actual == HashEntries(env.hasher, BaseTree(w)))
  }

  /** `assertReplayableVault` lets the attempt pass. */
  predicate Replayable(vault: Tree, base: Tree, target: Tree) {
    && (forall rel :: rel in Walked(vault) ==> rel in base || rel in target)
    && (forall rel :: rel in base.Keys + target.Keys ==>
          if rel in vault
          then (rel in base && vault[rel] == base[rel]) || (rel in target && vault[rel] == target[rel])
          else !(rel in base && rel in target))
  }

  /** `compiledPagesPreserved`; a commit the repository does not have cannot be read. */
  predicate CompiledPagesPreserved(w: World, compiled: Commit)
    requires WellFormed(w)
  {
    compiled < |w.repo| &&
    forall rel :: rel in Listed(w.repo[compiled]) && rel != INDEX ==>
      rel in TargetTree(w) && TargetTree(w)[rel] == w.repo[compiled][rel]
  }

  predicate MeetsExpectation(plan: Plan, e: Expected) {
    plan.toCommit == e.commit && plan.targetTreeHash == e.targetTreeHash && plan.baseTreeHash == e.baseTreeHash
  }

  datatype Refusal =
    | IndexUnreadable | OtherPublishPending | UnresolvedConflicts
    | VaultModified | TargetMismatch | VaultNotReplayable

  datatype Decision = Refused(w: World, why: Refusal) | Admitted(w: World, plan: Plan)

  /** Everything `publishWiki` does before it writes the marker. */
  function Decide(env: Env, w: World, o: Opts): (d: Decision)
    requires Sound(env.hasher) && WellFormed(w)
    ensures WellFormed(d.w) && d.w.vault == w.vault && d.w.marker == w.marker
  {
    match Absorb(env, w)
    case Err(dirty) => Refused(dirty, IndexUnreadable)
    case Ok(w1) =>
      if w1.marker.Some? && w1.marker.value.toCommit != w1.head then Refused(w1, OtherPublishPending)
      else
        var replaying := w1.marker.Some? || o.forceReplay;
        var plan := BuildPlan(env, w1);
        if o.conflicts then Refused(w1, UnresolvedConflicts)
        else if !replaying && !BaselineOk(env, w1) then Refused(w1, VaultModified)
        else if o.expected.Some? && !MeetsExpectation(plan, o.expected.value)
          && !(Absorbs(env, w) && CompiledPagesPreserved(w1, o.expected.value.commit))
        then Refused(w1, TargetMismatch)
        else if replaying && !Replayable(w1.vault, BaseTree(w1), TargetTree(w1))
        then Refused(w1, VaultNotReplayable)
        else Admitted(w1, plan)
  }

  // ---------------------------------------------------------------- the file steps

  datatype Op =
    | PutMarker(marker: Marker)
    | Write(rel: Path, bytes: Bytes)
    | Remove(rel: Path)
    | SaveState(commit: Commit, syncStatus: string)
    | ClearMarker

  function Do(w: World, op: Op): World {
    match op
    case PutMarker(m) => w.(marker := Some(m))
    case Write(rel, bytes) => w.(vault := w.vault[rel := bytes])
    case Remove(rel) => w.(vault := w.vault - {rel})
    case SaveState(c, s) => w.(published := Some(c), syncStatus := s)
    case ClearMarker => w.(marker := None)
  }

  function Exec(w: World, ops: seq<Op>): World
    decreases |ops|
  {
    if ops == [] then w else Exec(Do(w, ops[0]), ops[1..])
  }

  function WriteOps(rels: seq<Path>, target: Tree): (ops: seq<Op>)
    requires forall rel :: rel in rels ==> rel in target
  {
    if rels == [] then [] else [Write(rels[0], target[rels[0]])] + WriteOps(rels[1..], target)
  }

  function RemoveOps(rels: seq<Path>): (ops: seq<Op>) {
    if rels == [] then [] else [Remove(rels[0])] + RemoveOps(rels[1..])
  }

  function WithoutIndex(rels: seq<Path>): (r: seq<Path>)
    ensures forall rel :: rel in r <==> rel in rels && rel != INDEX
  {
    if rels == [] then []
    else if rels[0] == INDEX then WithoutIndex(rels[1..])
    else [rels[0]] + WithoutIndex(rels[1..])
  }

  /** The pages of the plan, then the index whenever the target has one. */
  function WrittenInOrder(plan: Plan, target: Tree): (r: seq<Path>) {
    WithoutIndex(plan.create + plan.update) + (if INDEX in target then [INDEX] else [])
  }

  /** What `pruneVaultExtras` finds once the plan's deletes are done. */
  function Extras(env: Env, vault: Tree, target: Tree): seq<Path> {
    env.hasher.order(Walked(vault).Keys - target.Keys)
  }

  predicate PlanFits(plan: Plan, target: Tree) {
    && (forall rel :: rel in plan.create ==> rel in target)
    && (forall rel :: rel in plan.update ==> rel in target)
  }

  /** The writes and the planned deletes of `applyPlan`. */
  function PlannedOps(plan: Plan, target: Tree): seq<Op>
    requires PlanFits(plan, target)
  {
    WriteOps(WrittenInOrder(plan, target), target) + RemoveOps(plan.delete)
  }

  /** `applyPlan`, pruning included. */
  function ApplyOps(env: Env, w: World, plan: Plan, target: Tree): seq<Op>
    requires PlanFits(plan, target)
  {
    var planned := PlannedOps(plan, target);
    planned + RemoveOps(Extras(env, Exec(w, planned).vault, target))
  }

  /** `interpretSync`; without an adapter it is given a result that is not ok. */
  function SyncStatus(sync: Sync): string {
    match sync
    case Nothing => "sync_skipped_no_adapter"
    case Synced => "synced"
    case _ => "published_local_sync_pending"
  }

  /** The steps from the marker up to the tree check. */
  function OpsBeforeCheck(env: Env, w: World, plan: Plan): seq<Op>
    requires WellFormed(w) && PlanFits(plan, TargetTree(w))
  {
    var marked := PutMarker(Marker(plan.toCommit, plan.targetTreeHash));
    [marked] + ApplyOps(env, Do(w, marked), plan, TargetTree(w))
  }

  function OpsAfterCheck(plan: Plan, o: Opts): seq<Op> {
    [SaveState(plan.toCommit, SyncStatus(o.sync)), ClearMarker]
  }

  predicate TreeCheckPasses(env: Env, w: World, plan: Plan)
    requires Sound(env.hasher) && WellFormed(w) && PlanFits(plan, TargetTree(w))
  {
    HashEntries(env.hasher, Walked(Exec(w, OpsBeforeCheck(env, w, plan)).vault)) == plan.targetTreeHash
  }

  datatype Ending = Finished | HashMismatch | SyncThrew | NotStarted(why: Refusal)

  function EndingOf(env: Env, w: World, plan: Plan, o: Opts): Ending
    requires Sound(env.hasher) && WellFormed(w) && PlanFits(plan, TargetTree(w))
  {
    if !TreeCheckPasses(env, w, plan) then HashMismatch
    else if o.sync.Throws? then SyncThrew
    else Finished
  }

  /** Every step an admitted attempt takes when nothing interrupts it. */
  function AttemptOps(env: Env, w: World, plan: Plan, o: Opts): seq<Op>
    requires Sound(env.hasher) && WellFormed(w) && PlanFits(plan, TargetTree(w))
  {
    OpsBeforeCheck(env, w, plan) +
    if EndingOf(env, w, plan, o).Finished? then OpsAfterCheck(plan, o) else []
  }

  /** The plan writes only what the target has, whatever order the names are listed in. */
  lemma BuiltPlanFits(env: Env, w: World)
    requires Sound(env.hasher) && WellFormed(w)
    ensures PlanFits(BuildPlan(env, w), TargetTree(w))
    ensures var p, base, target := BuildPlan(env, w), BaseTree(w), TargetTree(w);
      && (forall rel :: rel in p.create <==> rel in Created(base, target))
      && (forall rel :: rel in p.update <==> rel in Updated(base, target))
      && (forall rel :: rel in p.delete <==> rel in Deleted(base, target))
  {
    var h, base, target := env.hasher, BaseTree(w), TargetTree(w);
    assert Lists(h.order(Created(base, target)), Created(base, target));
    assert Lists(h.order(Updated(base, target)), Updated(base, target));
    assert Lists(h.order(Deleted(base, target)), Deleted(base, target));
  }

  /** One whole attempt: the state it leaves, and how it ended. */
  function PublishWiki(env: Env, w: World, o: Opts): (r: (World, Ending))
    requires Sound(env.hasher) && WellFormed(w)
  {
    match Decide(env, w, o)
    case Refused(w1, why) => (w1, NotStarted(why))
    case Admitted(w1, plan) =>
      AdmittedPlan(env, w, o);
      (Exec(w1, AttemptOps(env, w1, plan, o)), EndingOf(env, w1, plan, o))
  }

  /** The file steps of one whole attempt; none if it is refused. */
  function StepsOf(env: Env, w: World, o: Opts): seq<Op>
    requires Sound(env.hasher) && WellFormed(w)
  {
    match Decide(env, w, o)
    case Refused(_, _) => []
    case Admitted(w1, plan) =>
      AdmittedPlan(env, w, o);
      AttemptOps(env, w1, plan, o)
  }

  lemma AdmittedPlan(env: Env, w: World, o: Opts)
    requires Sound(env.hasher) && WellFormed(w) && Decide(env, w, o).Admitted?
    ensures var d := Decide(env, w, o);
      d.plan == BuildPlan(env, d.w) && PlanFits(d.plan, TargetTree(d.w))
  {
    BuiltPlanFits(env, Decide(env, w, o).w);
  }
}
