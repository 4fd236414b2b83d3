/**
 * `publishWiki` (publish.js) in its own form: stores that are changed one file step at a time.
 * Every method is tied to the value model of module Publish, and `log` records the steps in
 * order, so a crash leaves the state after a prefix of `log`.
 */
module Publisher {
  import opened Text
  import opened WikiPath
  import opened TreeHash
  import P = Publish
  import opened PublishSafety

  datatype Status = Added | Modified | Gone

  datatype Row = Row(status: Status, rel: Path)

  /** `git diff --name-status` from `base` to `target`, over the names in `rels`. */
  function DiffRows(rels: seq<Path>, base: Tree, target: Tree): seq<Row> {
    if rels == [] then []
    else
      var rel, rest := rels[0], DiffRows(rels[1..], base, target);
      if rel in base && rel in target then
        if base[rel] == target[rel] then rest else [Row(Modified, rel)] + rest
      else if rel in target then [Row(Added, rel)] + rest
      else if rel in base then [Row(Gone, rel)] + rest
      else rest
  }

  function RowNames(status: Status, base: Tree, target: Tree): set<Path> {
    match status
    case Added => P.Created(base, target)
    case Modified => P.Updated(base, target)
    case Gone => P.Deleted(base, target)
  }

  lemma {:induction false} DiffRowsMean(rels: seq<Path>, base: Tree, target: Tree, row: Row)
    ensures row in DiffRows(rels, base, target) <==> (row.rel in rels && row.rel in RowNames(row.status, base, target))
  {
    if rels != [] {
      DiffRowsMean(rels[1..], base, target, row);
    }
  }

  /** The three lists `buildPublishPlan` pushes its rows to. */
  method PartitionRows(rows: seq<Row>) returns (create: seq<Path>, update: seq<Path>, del: seq<Path>)
    ensures forall rel :: rel in create <==> Row(Added, rel) in rows
    ensures forall rel :: rel in update <==> Row(Modified, rel) in rows
    ensures forall rel :: rel in del <==> Row(Gone, rel) in rows
  {
    create, update, del := [], [], [];
    for i := 0 to |rows|
      invariant forall rel :: rel in create <==> Row(Added, rel) in rows[..i]
      invariant forall rel :: rel in update <==> Row(Modified, rel) in rows[..i]
      invariant forall rel :: rel in del <==> Row(Gone, rel) in rows[..i]
    {
      match rows[i].status
      case Added => create := create + [rows[i].rel];
      case Modified => update := update + [rows[i].rel];
      case Gone => del := del + [rows[i].rel];
    }
    assert rows[..|rows|] == rows;
  }

  method AllKnown(found: seq<Path>, base: Tree, target: Tree) returns (ok: bool)
    ensures ok <==> forall rel :: rel in found ==> rel in base || rel in target
  {
    for i := 0 to |found|
      invariant forall rel :: rel in found[..i] ==> rel in base || rel in target
    {
      if found[i] !in base && found[i] !in target {
        return false;
      }
    }
    assert found[..|found|] == found;
    return true;
  }

  predicate FileReplayable(vault: Tree, base: Tree, target: Tree, rel: Path) {
    if rel in vault
    then (rel in base && vault[rel] == base[rel]) || (rel in target && vault[rel] == target[rel])
    else !(rel in base && rel in target)
  }

  method AllReplayable(all: seq<Path>, vault: Tree, base: Tree, target: Tree) returns (ok: bool)
    ensures ok <==> forall rel :: rel in all ==> FileReplayable(vault, base, target, rel)
  {
    for i := 0 to |all|
      invariant forall rel :: rel in all[..i] ==> FileReplayable(vault, base, target, rel)
    {
      var rel := all[i];
      if rel !in vault {
        if rel in base && rel in target {
          assert !FileReplayable(vault, base, target, rel);
          return false;
        }
      } else {
        var matchesBase := rel in base && vault[rel] == base[rel];
        var matchesTarget := rel in target && vault[rel] == target[rel];
        if !matchesBase && !matchesTarget {
          assert !FileReplayable(vault, base, target, rel);
          return false;
        }
      }
    }
    assert all[..|all|] == all;
    return true;
  }

  /** The vault files a first publish would drop although they still have a source. */
  method CollectMissing(env: P.Env, found: seq<Path>, vault: Tree, inHead: Tree) returns (missing: seq<Path>)
    requires forall rel :: rel in found ==> rel in vault
    ensures forall rel :: rel in missing <==> rel in found && P.IsMissing(env, vault, inHead, rel)
  {
    missing := [];
    for i := 0 to |found|
      invariant forall rel :: rel in missing <==> rel in found[..i] && P.IsMissing(env, vault, inHead, rel)
    {
      if found[i] != INDEX && found[i] !in inHead && env.live(vault[found[i]]) {
        missing := missing + [found[i]];
      }
    }
    assert found[..|found|] == found;
  }

  method CopyFiles(rels: seq<Path>, from: Tree, to: Tree) returns (r: Tree)
    requires forall rel :: rel in rels ==> rel in from
    ensures r == to + P.Restrict(from, set rel | rel in rels)
  {
    r := to;
    for i := 0 to |rels|
      invariant r == to + P.Restrict(from, set rel | rel in rels[..i])
    {
      assert rels[..i + 1] == rels[..i] + [rels[i]];
      r := r[rels[i] := from[rels[i]]];
    }
    assert rels[..|rels|] == rels;
  }

  class Publisher {
    const env: P.Env
    var repo: seq<Tree>
    var head: P.Commit
    var worktree: Tree
    var vault: Tree
    var published: Option<P.Commit>
    var syncStatus: string
    var marker: Option<P.Marker>
    ghost var log: seq<P.Op>

    constructor (env: P.Env, w: P.World)
      ensures this.env == env && View() == w && log == []
    {
      this.env := env;
      repo, head, worktree := w.repo, w.head, w.worktree;
      vault, published, syncStatus, marker := w.vault, w.published, w.syncStatus, w.marker;
      log := [];
    }

    function View(): P.World
      reads this
    {
      P.World(repo, head, worktree, vault, published, syncStatus, marker)
    }

    ghost predicate Ready()
      reads this
    {
      Sound(env.hasher) && P.WellFormed(View())
    }

    // ------------------------------------------------------------ single file steps

    method WriteMarker(m: P.Marker)
      modifies this`marker, this`log
      ensures View() == P.Do(old(View()), P.PutMarker(m))
      ensures log == old(log) + [P.PutMarker(m)]
    {
      marker, log := Some(m), log + [P.PutMarker(m)];
    }

    method AtomicWrite(rel: Path, bytes: Bytes)
      modifies this`vault, this`log
      ensures View() == P.Do(old(View()), P.Write(rel, bytes))
      ensures log == old(log) + [P.Write(rel, bytes)]
    {
      vault, log := vault[rel := bytes], log + [P.Write(rel, bytes)];
    }

    /** A delete of a file that is not there is a step that changes nothing. */
    method RemoveIfThere(rel: Path)
      modifies this`vault, this`log
      ensures View() == P.Do(old(View()), P.Remove(rel))
      ensures log == old(log) + [P.Remove(rel)]
    {
      log := log + [P.Remove(rel)];
      if rel in vault {
        vault := vault - {rel};
      } else {
        assert vault - {rel} == vault;
      }
    }

    method SavePublished(commit: P.Commit, status: string)
      modifies this`published, this`syncStatus, this`log
      ensures View() == P.Do(old(View()), P.SaveState(commit, status))
      ensures log == old(log) + [P.SaveState(commit, status)]
    {
      published, syncStatus, log := Some(commit), status, log + [P.SaveState(commit, status)];
    }

    method ClearMarker()
      modifies this`marker, this`log
      ensures View() == P.Do(old(View()), P.ClearMarker)
      ensures log == old(log) + [P.ClearMarker]
    {
      marker, log := None, log + [P.ClearMarker];
    }

    // ------------------------------------------------------------ applying a plan

    method WriteFiles(rels: seq<Path>, target: Tree)
      requires forall rel :: rel in rels ==> rel in target
      modifies this`vault, this`log
      ensures View() == P.Exec(old(View()), P.WriteOps(rels, target))
      ensures log == old(log) + P.WriteOps(rels, target)
    {
      assert rels[..0] == [];
      for i := 0 to |rels|
        invariant View() == P.Exec(old(View()), P.WriteOps(rels[..i], target))
        invariant log == old(log) + P.WriteOps(rels[..i], target)
      {
        var op := P.Write(rels[i], target[rels[i]]);
        WriteOpsSnoc(rels[..i], rels[i], target);
        ExecAppend(old(View()), P.WriteOps(rels[..i], target), [op]);
        ExecOne(View(), op);
        AtomicWrite(rels[i], target[rels[i]]);
        assert rels[..i + 1] == rels[..i] + [rels[i]];
      }
      assert rels[..|rels|] == rels;
    }

    method RemoveFiles(rels: seq<Path>)
      modifies this`vault, this`log
      ensures View() == P.Exec(old(View()), P.RemoveOps(rels))
      ensures log == old(log) + P.RemoveOps(rels)
    {
      assert rels[..0] == [];
      for i := 0 to |rels|
        invariant View() == P.Exec(old(View()), P.RemoveOps(rels[..i]))
        invariant log == old(log) + P.RemoveOps(rels[..i])
      {
        RemoveOpsSnoc(rels[..i], rels[i]);
        ExecAppend(old(View()), P.RemoveOps(rels[..i]), [P.Remove(rels[i])]);
        ExecOne(View(), P.Remove(rels[i]));
        RemoveIfThere(rels[i]);
        assert rels[..i + 1] == rels[..i] + [rels[i]];
      }
      assert rels[..|rels|] == rels;
    }

    method ApplyPlan(plan: P.Plan, target: Tree)
      requires P.PlanFits(plan, target)
      modifies this`vault, this`log
      ensures View() == P.Exec(old(View()), P.ApplyOps(env, old(View()), plan, target))
      ensures log == old(log) + P.ApplyOps(env, old(View()), plan, target)
    {
      ghost var w := View();
      var writes := P.WithoutIndex(plan.create + plan.update);
      WriteFiles(writes, target);
      var indexed := if INDEX in plan.create || INDEX in plan.update || INDEX in target then [INDEX] else [];
      WriteFiles(indexed, target);
      RemoveFiles(plan.delete);
      PlannedInParts(w, plan, target, writes, indexed);
      PruneVaultExtras(target);
      AppliedInParts(env, w, plan, target);
      Regroup4(old(log), P.WriteOps(writes, target), P.WriteOps(indexed, target), P.RemoveOps(plan.delete),
        P.RemoveOps(P.Extras(env, P.Exec(w, P.PlannedOps(plan, target)).vault, target)));
    }

    method PruneVaultExtras(target: Tree)
      modifies this`vault, this`log
      ensures View() == P.Exec(old(View()), P.RemoveOps(P.Extras(env, old(vault), target)))
      ensures log == old(log) + P.RemoveOps(P.Extras(env, old(vault), target))
    {
      RemoveFiles(env.hasher.order(Walked(vault).Keys - target.Keys));
    }

    // ------------------------------------------------------------ deciding

    method BuildPublishPlan() returns (plan: P.Plan)
      requires Ready()
      ensures plan == P.BuildPlan(env, View())
    {
      hide HashEntries;
      var base, target := P.BaseTree(View()), P.TargetTree(View());
      var names := env.hasher.order(base.Keys + target.Keys);
      assert Lists(names, base.Keys + target.Keys);
      var rows := DiffRows(names, base, target);
      var create, update, del := PartitionRows(rows);
      RowsList(rows, create, Added, base, target, names);
      RowsList(rows, update, Modified, base, target, names);
      RowsList(rows, del, Gone, base, target, names);
      plan := P.Plan(
        published,
        if published.None? then None else Some(HashEntries(env.hasher, base)),
        head,
        env.hasher.order(set rel | rel in create),
        env.hasher.order(set rel | rel in update),
        env.hasher.order(set rel | rel in del),
        HashEntries(env.hasher, target));
    }

    method AssertReplayableVault(base: Tree, target: Tree) returns (ok: bool)
      requires Sound(env.hasher)
      ensures ok <==> P.Replayable(vault, base, target)
    {
      var found := env.hasher.order(Walked(vault).Keys);
      var all := env.hasher.order(base.Keys + target.Keys);
      ok := AllKnown(found, base, target);
      if ok {
        ok := AllReplayable(all, vault, base, target);
      }
      ReplayableByFile(env.hasher, vault, base, target);
    }

    /** `absorbPublishedVault`; false when the rebuilt index is unreadable. */
    method AbsorbPublishedVault() returns (ok: bool)
      requires Ready()
      modifies this`worktree, this`repo, this`head, this`published
      ensures View() == match P.Absorb(env, old(View())) case Ok(w) => w case Err(w) => w
      ensures ok == P.Absorb(env, old(View())).Ok?
    {
      if marker.Some? || published.Some? {
        return true;
      }
      ghost var w := View();
      var found := env.hasher.order(Walked(vault).Keys);
      assert Lists(found, Walked(vault).Keys);
      var missing := CollectMissing(env, found, vault, P.TargetTree(View()));
      MissingListed(env, w, found, missing);
      if missing == [] {
        return true;
      }
      var baseline := Walked(vault);
      worktree := CopyFiles(missing, vault, worktree);
      match env.rebuild(worktree)
      case None =>
        return false;
      case Some(tree) =>
        worktree := tree;
        published := Some(|repo|);
        repo := repo + [baseline];
        CommitAll();
        return true;
    }

    method CommitAll()
      requires P.WellFormed(View())
      modifies this`repo, this`head
      ensures View() == P.CommitAll(old(View()))
    {
      if worktree != repo[head] {
        repo, head := repo + [worktree], |repo|;
      }
    }

    /** Everything before the marker. */
    method DecideAttempt(o: P.Opts) returns (refused: Option<P.Refusal>, plan: P.Plan)
      requires Ready()
      modifies this`worktree, this`repo, this`head, this`published
      ensures var d := P.Decide(env, old(View()), o);
        View() == d.w && match d case Refused(_, why) => refused == Some(why) case Admitted(_, p) => refused == None && plan == p
    {
      plan := P.Plan(None, None, 0, [], [], [], "");
      var absorbs := P.Absorbs(env, View());
      var absorbed := AbsorbPublishedVault();
      if !absorbed {
        return Some(P.IndexUnreadable), plan;
      }
      if marker.Some? && marker.value.toCommit != head {
        return Some(P.OtherPublishPending), plan;
      }
      var replaying := marker.Some? || o.forceReplay;
      plan := BuildPublishPlan();
      if o.conflicts {
        return Some(P.UnresolvedConflicts), plan;
      }
      if !replaying && !P.BaselineOk(env, View()) {
        return Some(P.VaultModified), plan;
      }
      if o.expected.Some? && !P.MeetsExpectation(plan, o.expected.value) {
        var kept := absorbs && P.CompiledPagesPreserved(View(), o.expected.value.commit);
        if !kept {
          return Some(P.TargetMismatch), plan;
        }
      }
      if replaying {
        var ok := AssertReplayableVault(P.BaseTree(View()), P.TargetTree(View()));
        if !ok {
          return Some(P.VaultNotReplayable), plan;
        }
      }
      return None, plan;
    }

    /** One attempt: the state and the ending are those of the value model, step for step. */
    method PublishWiki(o: P.Opts) returns (ending: P.Ending)
      requires Ready()
      modifies this
      ensures (View(), ending) == P.PublishWiki(env, old(View()), o)
      ensures log == old(log) + P.StepsOf(env, old(View()), o)
    {
      ghost var w := View();
      var refused, plan := DecideAttempt(o);
      if refused.Some? {
        return P.NotStarted(refused.value);
      }
      P.AdmittedPlan(env, w, o);
      ending := RunPlan(plan, P.TargetTree(View()), o);
    }

    /** From the marker on. */
    method RunPlan(plan: P.Plan, target: Tree, o: P.Opts) returns (ending: P.Ending)
      requires Ready() && target == P.TargetTree(View()) && P.PlanFits(plan, target)
      modifies this`vault, this`published, this`syncStatus, this`marker, this`log
      ensures View() == P.Exec(old(View()), P.AttemptOps(env, old(View()), plan, o))
      ensures log == old(log) + P.AttemptOps(env, old(View()), plan, o)
      ensures ending == P.EndingOf(env, old(View()), plan, o)
    {
      ghost var before := P.OpsBeforeCheck(env, View(), plan);
      RunToCheck(plan, target);
      if HashEntries(env.hasher, Walked(vault)) != plan.targetTreeHash {
        assert before + [] == before;
        return P.HashMismatch;
      }
      if o.sync.Throws? {
        assert before + [] == before;
        return P.SyncThrew;
      }
      RecordPublished(plan, o);
      ExecAppend(old(View()), before, P.OpsAfterCheck(plan, o));
      return P.Finished;
    }

    method RunToCheck(plan: P.Plan, target: Tree)
      requires Ready() && target == P.TargetTree(View()) && P.PlanFits(plan, target)
      modifies this`vault, this`marker, this`log
      ensures View() == P.Exec(old(View()), P.OpsBeforeCheck(env, old(View()), plan))
      ensures log == old(log) + P.OpsBeforeCheck(env, old(View()), plan)
    {
      ghost var w, before := View(), log;
      ghost var put := P.PutMarker(P.Marker(plan.toCommit, plan.targetTreeHash));
      ghost var rest := P.ApplyOps(env, P.Do(w, put), plan, target);
      WriteMarker(P.Marker(plan.toCommit, plan.targetTreeHash));
      ApplyPlan(plan, target);
      Regroup(before, [put], rest);
      MarkedInParts(env, w, plan);
    }

    method RecordPublished(plan: P.Plan, o: P.Opts)
      modifies this`published, this`syncStatus, this`marker, this`log
      ensures View() == P.Exec(old(View()), P.OpsAfterCheck(plan, o))
      ensures log == old(log) + P.OpsAfterCheck(plan, o)
    {
      ghost var save := P.SaveState(plan.toCommit, P.SyncStatus(o.sync));
      SavePublished(plan.toCommit, P.SyncStatus(o.sync));
      ExecOne(old(View()), save);
      ExecOne(View(), P.ClearMarker);
      ExecAppend(old(View()), [save], [P.ClearMarker]);
      ClearMarker();
      assert P.OpsAfterCheck(plan, o) == [save] + [P.ClearMarker];
    }
  }

  // -------------------------------------------------------------- what the loops need

  lemma ReplayableByFile(h: Hasher, vault: Tree, base: Tree, target: Tree)
    requires Sound(h)
    ensures P.Replayable(vault, base, target) <==>
      && (forall rel :: rel in h.order(Walked(vault).Keys) ==> rel in base || rel in target)
      && (forall rel :: rel in h.order(base.Keys + target.Keys) ==> FileReplayable(vault, base, target, rel))
  {
    var walked, both := Walked(vault).Keys, base.Keys + target.Keys;
    assert Lists(h.order(walked), walked) && Lists(h.order(both), both);
    ReplayableByName(vault, base, target, walked, both);
  }

  lemma ReplayableByName(vault: Tree, base: Tree, target: Tree, walked: set<Path>, both: set<Path>)
    requires walked == Walked(vault).Keys && both == base.Keys + target.Keys
    ensures P.Replayable(vault, base, target) <==>
      && (forall rel :: rel in walked ==> rel in base || rel in target)
      && (forall rel :: rel in both ==> FileReplayable(vault, base, target, rel))
  {
  }

  lemma MissingListed(env: P.Env, w: P.World, found: seq<Path>, missing: seq<Path>)
    requires P.WellFormed(w)
    requires Lists(found, Walked(w.vault).Keys)
    requires forall rel :: rel in missing <==> rel in found && P.IsMissing(env, w.vault, P.TargetTree(w), rel)
    ensures P.MissingPages(env, w) == set rel | rel in missing
    ensures missing == [] <==> P.MissingPages(env, w) == {}
  {
    assert forall rel :: rel in missing <==> rel in P.MissingPages(env, w);
    if missing != [] {
      assert missing[0] in P.MissingPages(env, w);
    }
  }

  lemma PlannedInParts(w: P.World, plan: P.Plan, target: Tree, writes: seq<Path>, indexed: seq<Path>)
    requires P.PlanFits(plan, target)
    requires writes == P.WithoutIndex(plan.create + plan.update)
    requires indexed == if INDEX in target then [INDEX] else []
    ensures P.PlannedOps(plan, target)
      == P.WriteOps(writes, target) + P.WriteOps(indexed, target) + P.RemoveOps(plan.delete)
    ensures P.Exec(P.Exec(P.Exec(w, P.WriteOps(writes, target)), P.WriteOps(indexed, target)), P.RemoveOps(plan.delete))
      == P.Exec(w, P.PlannedOps(plan, target))
  {
    var a, b, c := P.WriteOps(writes, target), P.WriteOps(indexed, target), P.RemoveOps(plan.delete);
    WriteOpsAppend(writes, indexed, target);
    ExecAppend(w, a, b);
    ExecAppend(w, a + b, c);
  }

  lemma Regroup<T>(s: seq<T>, a: seq<T>, b: seq<T>)
    ensures s + a + b == s + (a + b)
  {
  }

  lemma Regroup4<T>(s: seq<T>, a: seq<T>, b: seq<T>, c: seq<T>, d: seq<T>)
    ensures s + a + b + c + d == s + (a + b + c + d)
  {
  }

  lemma AppliedInParts(env: P.Env, w: P.World, plan: P.Plan, target: Tree)
    requires P.PlanFits(plan, target)
    ensures var planned := P.PlannedOps(plan, target);
      var pruned := P.RemoveOps(P.Extras(env, P.Exec(w, planned).vault, target));
      P.ApplyOps(env, w, plan, target) == planned + pruned
      && P.Exec(P.Exec(w, planned), pruned) == P.Exec(w, planned + pruned)
  {
    var planned := P.PlannedOps(plan, target);
    ExecAppend(w, planned, P.RemoveOps(P.Extras(env, P.Exec(w, planned).vault, target)));
  }

  lemma MarkedInParts(env: P.Env, w: P.World, plan: P.Plan)
    requires P.WellFormed(w) && P.PlanFits(plan, P.TargetTree(w))
    ensures var put := P.PutMarker(P.Marker(plan.toCommit, plan.targetTreeHash));
      var rest := P.ApplyOps(env, P.Do(w, put), plan, P.TargetTree(w));
      P.OpsBeforeCheck(env, w, plan) == [put] + rest && P.Exec(P.Do(w, put), rest) == P.Exec(w, [put] + rest)
  {
    var put := P.PutMarker(P.Marker(plan.toCommit, plan.targetTreeHash));
    ExecOne(w, put);
    ExecAppend(w, [put], P.ApplyOps(env, P.Do(w, put), plan, P.TargetTree(w)));
  }

  lemma RowsList(rows: seq<Row>, rels: seq<Path>, status: Status, base: Tree, target: Tree, names: seq<Path>)
    requires rows == DiffRows(names, base, target) && forall rel :: rel in names <==> rel in base.Keys + target.Keys
    requires forall rel :: rel in rels <==> Row(status, rel) in rows
    ensures (set rel | rel in rels) == RowNames(status, base, target)
  {
    forall rel
      ensures rel in rels <==> rel in RowNames(status, base, target)
    {
      DiffRowsMean(names, base, target, Row(status, rel));
    }
  }

  lemma {:induction false} WriteOpsAppend(a: seq<Path>, b: seq<Path>, target: Tree)
    requires forall rel :: rel in a ==> rel in target
    requires forall rel :: rel in b ==> rel in target
    ensures P.WriteOps(a + b, target) == P.WriteOps(a, target) + P.WriteOps(b, target)
  {
    if a == [] {
      assert a + b == b;
    } else {
      assert (a + b)[1..] == a[1..] + b;
      WriteOpsAppend(a[1..], b, target);
    }
  }

  lemma WriteOpsSnoc(a: seq<Path>, rel: Path, target: Tree)
    requires forall r :: r in a ==> r in target
    requires rel in target
    ensures P.WriteOps(a + [rel], target) == P.WriteOps(a, target) + [P.Write(rel, target[rel])]
  {
    WriteOpsAppend(a, [rel], target);
    assert [rel][1..] == [];
  }

  lemma {:induction false} RemoveOpsSnoc(a: seq<Path>, rel: Path)
    ensures P.RemoveOps(a + [rel]) == P.RemoveOps(a) + [P.Remove(rel)]
  {
    if a != [] {
      assert (a + [rel])[1..] == a[1..] + [rel];
      RemoveOpsSnoc(a[1..], rel);
    }
  }
}
