/** What every run of `publishWiki` keeps: crashes between any two file steps included. */
module PublishSafety {
  import opened Text
  import opened WikiPath
  import opened TreeHash
  import opened Publish

  // ---------------------------------------------------------------- the digest compares trees

  ghost predicate Wiki(t: Tree) {
    forall rel :: rel in t ==> IsAllowedWikiPath(rel)
  }

  lemma HashCompares(env: Env, t: Tree, t': Tree)
    requires Sound(env.hasher) && Wiki(t) && Wiki(t')
    ensures HashEntries(env.hasher, t) == HashEntries(env.hasher, t') <==> t == t'
  {
    HashEntriesInjective(env.hasher, t, t');
  }

  lemma BaselineMeans(env: Env, w: World)
    requires Sound(env.hasher) && WellFormed(w)
    ensures BaselineOk(env, w) <==>
      Walked(w.vault) == BaseTree(w) || Walked(w.vault) == TargetTree(w)
  {
    HashCompares(env, Walked(w.vault), TargetTree(w));
    HashCompares(env, Walked(w.vault), BaseTree(w));
  }

  // ---------------------------------------------------------------- executing steps

  lemma {:induction false} ExecAppend(w: World, a: seq<Op>, b: seq<Op>)
    ensures Exec(w, a + b) == Exec(Exec(w, a), b)
    decreases |a|
  {
    if a == [] {
      assert a + b == b;
    } else {
      assert (a + b)[1..] == a[1..] + b;
      ExecAppend(Do(w, a[0]), a[1..], b);
    }
  }

  lemma ExecOne(w: World, op: Op)
    ensures Exec(w, [op]) == Do(w, op)
  {
  }

  /** Only the vault differs. */
  ghost predicate SameButVault(w: World, w': World) {
    w' == w.(vault := w'.vault)
  }

  ghost predicate VaultOp(op: Op) {
    op.Write? || op.Remove?
  }

  lemma {:induction false} ExecWrites(w: World, rels: seq<Path>, target: Tree)
    requires forall rel :: rel in rels ==> rel in target
    ensures Exec(w, WriteOps(rels, target)) == w.(vault := w.vault + map rel | rel in rels :: target[rel])
    decreases |rels|
  {
    if rels == [] {
      assert WriteOps(rels, target) == [];
    } else {
      var w1 := Do(w, Write(rels[0], target[rels[0]]));
      ExecWrites(w1, rels[1..], target);
      OverlayFirst(w.vault, rels, target);
    }
  }

  lemma OverlayFirst(v: Tree, rels: seq<Path>, target: Tree)
    requires rels != [] && forall rel :: rel in rels ==> rel in target
    ensures v[rels[0] := target[rels[0]]] + (map rel | rel in rels[1..] :: target[rel])
         == v + (map rel | rel in rels :: target[rel])
  {
    assert forall rel :: rel in rels <==> rel == rels[0] || rel in rels[1..];
  }

  lemma {:induction false} ExecRemoves(w: World, rels: seq<Path>)
    ensures Exec(w, RemoveOps(rels)) == w.(vault := w.vault - set rel | rel in rels)
    decreases |rels|
  {
    if rels == [] {
      assert w.vault - (set rel | rel in rels) == w.vault;
    } else {
      var w1 := Do(w, Remove(rels[0]));
      ExecRemoves(w1, rels[1..]);
      assert w1.vault - (set rel | rel in rels[1..]) == w.vault - (set rel | rel in rels);
    }
  }

  lemma {:induction false} OpsAreVaultOps(rels: seq<Path>, target: Tree)
    ensures forall op :: op in RemoveOps(rels) ==> op.Remove? && op.rel in rels
    ensures (forall rel :: rel in rels ==> rel in target) ==>
      forall op :: op in WriteOps(rels, target) ==> op.Write? && op.rel in target && op.bytes == target[op.rel]
    decreases |rels|
  {
    if rels != [] {
      OpsAreVaultOps(rels[1..], target);
    }
  }

  // ---------------------------------------------------------------- half-written vaults

  ghost predicate NoStagingNames(t: Tree) {
    forall rel :: rel in t ==> Visible(rel)
  }

  /** Base and target have no page whose name the directory walk skips. */
  ghost predicate PlainTrees(w: World)
    requires WellFormed(w)
  {
    NoStagingNames(BaseTree(w)) && NoStagingNames(TargetTree(w))
  }

  /** Every vault file is its base or its target version, and files in both trees are present. */
  ghost predicate Mixed(w: World)
    requires WellFormed(w)
  {
    Replayable(w.vault, BaseTree(w), TargetTree(w))
  }

  /** The state between two attempts at publishing the same HEAD. */
  ghost predicate Recoverable(w: World) {
    && WellFormed(w) && PlainTrees(w)
    && if w.marker.None? then Walked(w.vault) == BaseTree(w) || Walked(w.vault) == TargetTree(w)
       else w.marker.value.toCommit == w.head && Mixed(w)
  }

  /** `w'` publishes the same HEAD as `w`, and its unlisted vault files are those of `w`. */
  ghost predicate SameGoal(w: World, w': World) {
    w'.repo == w.repo && w'.head == w.head && w'.worktree == w.worktree && Unseen(w'.vault) == Unseen(w.vault)
  }

  ghost predicate Published(w: World)
    requires WellFormed(w)
  {
    Walked(w.vault) == TargetTree(w) && w.published == Some(w.head) && w.marker == None
  }

  lemma RecoverableIsMixed(w: World)
    requires Recoverable(w)
    ensures Mixed(w)
  {
    var base, target := BaseTree(w), TargetTree(w);
    assert forall rel :: rel in base.Keys + target.Keys ==> Visible(rel);
    assert forall rel :: rel in base.Keys + target.Keys ==> (rel in w.vault <==> rel in Walked(w.vault));
    if w.marker.None? {
      assert forall rel :: rel in base.Keys + target.Keys && rel in w.vault ==> w.vault[rel] == Walked(w.vault)[rel];
    }
  }

  lemma WriteSeen(v: Tree, rel: Path, bytes: Bytes)
    requires Visible(rel)
    ensures Walked(v[rel := bytes]) == Walked(v)[rel := bytes]
    ensures Unseen(v[rel := bytes]) == Unseen(v)
  {
  }

  lemma RemoveSeen(v: Tree, rel: Path)
    requires Visible(rel)
    ensures Walked(v - {rel}) == Walked(v) - {rel}
    ensures Unseen(v - {rel}) == Unseen(v)
  {
  }

  lemma VaultOpKeepsReplayable(v: Tree, base: Tree, target: Tree, op: Op)
    requires Replayable(v, base, target) && VaultOp(op) && Visible(op.rel)
    requires op.Write? ==> op.rel in target && op.bytes == target[op.rel]
    requires op.Remove? ==> op.rel !in target
    ensures Replayable(if op.Write? then v[op.rel := op.bytes] else v - {op.rel}, base, target)
  {
    if op.Write? {
      WriteSeen(v, op.rel, op.bytes);
    } else {
      RemoveSeen(v, op.rel);
    }
  }

  /** A write of a target file or a delete of a visible file outside the target keeps a vault recoverable. */
  lemma VaultOpKeepsMixed(w: World, op: Op)
    requires WellFormed(w) && PlainTrees(w) && Mixed(w)
    requires VaultOp(op) && Visible(op.rel)
    requires op.Write? ==> op.rel in TargetTree(w) && op.bytes == TargetTree(w)[op.rel]
    requires op.Remove? ==> op.rel !in TargetTree(w)
    ensures Mixed(Do(w, op)) && SameGoal(w, Do(w, op)) && WellFormed(Do(w, op)) && PlainTrees(Do(w, op))
  {
    VaultOpKeepsReplayable(w.vault, BaseTree(w), TargetTree(w), op);
    if op.Write? {
      WriteSeen(w.vault, op.rel, op.bytes);
    } else {
      RemoveSeen(w.vault, op.rel);
    }
  }

  /** Every prefix of `ops` leaves a recoverable state with the same goal. */
  ghost predicate CutsRecover(w: World, ops: seq<Op>) {
    forall k :: 0 <= k <= |ops| ==> Recoverable(Exec(w, ops[..k])) && SameGoal(w, Exec(w, ops[..k]))
  }

  lemma CutsAppend(w: World, a: seq<Op>, b: seq<Op>)
    requires CutsRecover(w, a) && CutsRecover(Exec(w, a), b)
    ensures CutsRecover(w, a + b)
  {
    assert a[..|a|] == a;
    forall k | 0 <= k <= |a + b|
      ensures Recoverable(Exec(w, (a + b)[..k])) && SameGoal(w, Exec(w, (a + b)[..k]))
    {
      if k <= |a| {
        assert (a + b)[..k] == a[..k];
      } else {
        assert (a + b)[..k] == a + b[..k - |a|];
        ExecAppend(w, a, b[..k - |a|]);
      }
    }
  }

  lemma CutsOne(w: World, op: Op)
    requires Recoverable(w) && Recoverable(Do(w, op)) && SameGoal(w, Do(w, op))
    ensures CutsRecover(w, [op])
  {
    assert [op][..0] == [] && [op][..1] == [op];
    ExecOne(w, op);
  }

  /** Under the marker, writes of target files and deletes of other visible files may stop anywhere. */
  lemma {:induction false} CutsVaultOps(w: World, ops: seq<Op>)
    requires Recoverable(w) && w.marker.Some?
    requires forall op :: op in ops ==> VaultOp(op)
    requires forall op :: op in ops && op.Write? ==> op.rel in TargetTree(w) && op.bytes == TargetTree(w)[op.rel]
    requires forall op :: op in ops && op.Remove? ==> op.rel !in TargetTree(w) && Visible(op.rel)
    ensures CutsRecover(w, ops)
    decreases |ops|
  {
    if ops == [] {
      assert ops[..0] == [];
    } else {
      var w1 := Do(w, ops[0]);
      assert ops[0] in ops;
      VaultOpKeepsMixed(w, ops[0]);
      assert TargetTree(w1) == TargetTree(w);
      CutsOne(w, ops[0]);
      CutsVaultOps(w1, ops[1..]);
      ExecOne(w, ops[0]);
      CutsAppend(w, [ops[0]], ops[1..]);
      assert ops == [ops[0]] + ops[1..];
    }
  }

  // ---------------------------------------------------------------- one attempt

  /** The vault after the planned writes and deletes, in closed form. */
  ghost function Planned(v: Tree, writes: seq<Path>, deletes: seq<Path>, target: Tree): Tree
    requires forall rel :: rel in writes ==> rel in target
  {
    v + (map rel | rel in writes :: target[rel]) - set rel | rel in deletes
  }

  lemma PlannedOpsCompute(w: World, plan: Plan, target: Tree)
    requires PlanFits(plan, target)
    ensures Exec(w, PlannedOps(plan, target)) == w.(vault := Planned(w.vault, WrittenInOrder(plan, target), plan.delete, target))
  {
    var rels := WrittenInOrder(plan, target);
    ExecAppend(w, WriteOps(rels, target), RemoveOps(plan.delete));
    ExecWrites(w, rels, target);
    ExecRemoves(Exec(w, WriteOps(rels, target)), plan.delete);
  }

  lemma PlannedWalked(v: Tree, base: Tree, target: Tree, writes: seq<Path>, deletes: seq<Path>)
    requires Replayable(v, base, target) && NoStagingNames(target)
    requires forall rel :: rel in writes ==> rel in target
    requires forall rel :: rel in target && (rel !in base || base[rel] != target[rel]) ==> rel in writes
    requires forall rel :: rel in deletes <==> rel in base && rel !in target
    ensures Walked(Planned(v, writes, deletes, target)) == target
  {
    var v' := Planned(v, writes, deletes, target);
    forall rel | rel in target
      ensures rel in Walked(v') && v'[rel] == target[rel]
    {
      assert rel in base.Keys + target.Keys;
      assert Visible(rel);
    }
    forall rel | rel in Walked(v')
      ensures rel in target
    {
      assert rel in writes || rel in Walked(v);
    }
  }

  lemma PlannedUnseen(v: Tree, target: Tree, writes: seq<Path>, deletes: seq<Path>)
    requires NoStagingNames(target)
    requires forall rel :: rel in writes ==> rel in target
    requires forall rel :: rel in deletes ==> Visible(rel)
    ensures Unseen(Planned(v, writes, deletes, target)) == Unseen(v)
  {
    assert forall rel :: rel in writes ==> Visible(rel);
  }

  lemma BuiltPlanWrites(env: Env, w: World)
    requires Sound(env.hasher) && WellFormed(w)
    ensures var plan, base, target := BuildPlan(env, w), BaseTree(w), TargetTree(w);
      && PlanFits(plan, target)
      && (forall rel :: rel in WrittenInOrder(plan, target) ==> rel in target)
      && (forall rel :: rel in target && (rel !in base || base[rel] != target[rel]) ==> rel in WrittenInOrder(plan, target))
      && (forall rel :: rel in plan.delete <==> rel in base && rel !in target)
  {
    BuiltPlanFits(env, w);
  }

  /** The planned writes and deletes leave exactly the target's listed files. */
  lemma PlannedOpsReachTarget(env: Env, w: World)
    requires Sound(env.hasher) && WellFormed(w) && Mixed(w) && PlainTrees(w)
    ensures var plan, target := BuildPlan(env, w), TargetTree(w);
      && PlanFits(plan, target)
      && var w' := Exec(w, PlannedOps(plan, target));
        SameButVault(w, w') && Walked(w'.vault) == target && Unseen(w'.vault) == Unseen(w.vault)
  {
    var plan, target := BuildPlan(env, w), TargetTree(w);
    BuiltPlanWrites(env, w);
    PlannedOpsCompute(w, plan, target);
    var writes := WrittenInOrder(plan, target);
    PlannedWalked(w.vault, BaseTree(w), target, writes, plan.delete);
    assert forall rel :: rel in plan.delete ==> rel in BaseTree(w);
    PlannedUnseen(w.vault, target, writes, plan.delete);
  }

  /** Pruning removes nothing that the plan did not delete. */
  lemma NothingToPrune(env: Env, w: World)
    requires Sound(env.hasher) && WellFormed(w) && Mixed(w) && PlainTrees(w)
    ensures var plan, target := BuildPlan(env, w), TargetTree(w);
      PlanFits(plan, target) && Extras(env, Exec(w, PlannedOps(plan, target)).vault, target) == []
  {
    PlannedOpsReachTarget(env, w);
    var target := TargetTree(w);
    assert target.Keys - target.Keys == {};
    assert Lists(env.hasher.order({}), {});
  }

  /** From every mixed vault, `applyPlan` ends with exactly the target, and leaves unlisted files alone. */
  lemma AppliesExactly(env: Env, w: World)
    requires Sound(env.hasher) && WellFormed(w) && Mixed(w) && PlainTrees(w)
    ensures var plan := BuildPlan(env, w);
      && PlanFits(plan, TargetTree(w))
      && var w' := Exec(w, ApplyOps(env, w, plan, TargetTree(w)));
        SameButVault(w, w') && Walked(w'.vault) == TargetTree(w) && Unseen(w'.vault) == Unseen(w.vault)
  {
    var plan, target := BuildPlan(env, w), TargetTree(w);
    PlannedOpsReachTarget(env, w);
    NothingToPrune(env, w);
    assert ApplyOps(env, w, plan, target) == PlannedOps(plan, target);
  }

  /** Neither the plan nor the half-written vault depends on the marker. */
  lemma MarkerAside(env: Env, w: World, m: Marker)
    requires Sound(env.hasher) && WellFormed(w)
    ensures var marked := Do(w, PutMarker(m));
      && WellFormed(marked) && BaseTree(marked) == BaseTree(w) && TargetTree(marked) == TargetTree(w)
      && BuildPlan(env, marked) == BuildPlan(env, w)
      && (Mixed(marked) <==> Mixed(w)) && (PlainTrees(marked) <==> PlainTrees(w))
  {
  }

  /** The marker is put, then come the planned writes and deletes, and no others. */
  lemma StepsBeforeCheck(env: Env, w: World)
    requires Sound(env.hasher) && WellFormed(w) && Mixed(w) && PlainTrees(w)
    ensures var plan := BuildPlan(env, w);
      && PlanFits(plan, TargetTree(w))
      && OpsBeforeCheck(env, w, plan)
        == [PutMarker(Marker(plan.toCommit, plan.targetTreeHash))] + PlannedOps(plan, TargetTree(w))
  {
    BuiltPlanFits(env, w);
    var plan := BuildPlan(env, w);
    var m := Marker(plan.toCommit, plan.targetTreeHash);
    MarkerAside(env, w, m);
    NothingToPrune(env, Do(w, PutMarker(m)));
  }

  /** The steps up to the tree check may stop anywhere. */
  lemma CutsBeforeCheck(env: Env, w: World)
    requires Sound(env.hasher) && Recoverable(w)
    ensures var plan := BuildPlan(env, w);
      PlanFits(plan, TargetTree(w)) && CutsRecover(w, OpsBeforeCheck(env, w, plan))
  {
    var plan, target := BuildPlan(env, w), TargetTree(w);
    RecoverableIsMixed(w);
    StepsBeforeCheck(env, w);
    BuiltPlanWrites(env, w);
    var put := PutMarker(Marker(plan.toCommit, plan.targetTreeHash));
    var marked := Do(w, put);
    MarkerAside(env, w, put.marker);
    CutsOne(w, put);
    OpsAreVaultOps(WrittenInOrder(plan, target), target);
    OpsAreVaultOps(plan.delete, target);
    CutsVaultOps(marked, PlannedOps(plan, target));
    ExecOne(w, put);
    CutsAppend(w, [put], PlannedOps(plan, target));
  }

  /** The whole of an attempt up to the tree check. */
  lemma ReachesCheckFromMixed(env: Env, w: World)
    requires Sound(env.hasher) && WellFormed(w) && Mixed(w) && PlainTrees(w)
    ensures var plan := BuildPlan(env, w);
      && PlanFits(plan, TargetTree(w)) && TreeCheckPasses(env, w, plan)
      && var w' := Exec(w, OpsBeforeCheck(env, w, plan));
        && w' == w.(vault := w'.vault, marker := Some(Marker(plan.toCommit, plan.targetTreeHash)))
        && Walked(w'.vault) == TargetTree(w) && Unseen(w'.vault) == Unseen(w.vault)
  {
    BuiltPlanFits(env, w);
    var plan := BuildPlan(env, w);
    var ops := OpsBeforeCheck(env, w, plan);
    MarkerAside(env, w, ops[0].marker);
    AppliesExactly(env, Do(w, ops[0]));
    assert ops[1..] == ApplyOps(env, Do(w, ops[0]), plan, TargetTree(w));
  }

  lemma ReachesCheck(env: Env, w: World)
    requires Sound(env.hasher) && Recoverable(w)
    ensures var plan := BuildPlan(env, w);
      && PlanFits(plan, TargetTree(w)) && TreeCheckPasses(env, w, plan)
      && var w' := Exec(w, OpsBeforeCheck(env, w, plan));
        && w' == w.(vault := w'.vault, marker := Some(Marker(plan.toCommit, plan.targetTreeHash)))
        && Walked(w'.vault) == TargetTree(w) && Unseen(w'.vault) == Unseen(w.vault)
  {
    RecoverableIsMixed(w);
    ReachesCheckFromMixed(env, w);
  }

  /** The steps after the tree check may stop anywhere, and both together publish. */
  lemma CutsAfterCheck(w: World, plan: Plan, o: Opts)
    requires Recoverable(w) && w.marker.Some? && plan.toCommit == w.head
    requires Walked(w.vault) == TargetTree(w)
    ensures CutsRecover(w, OpsAfterCheck(plan, o))
    ensures var w' := Exec(w, OpsAfterCheck(plan, o));
      SameGoal(w, w') && WellFormed(w') && Published(w')
  {
    var save := SaveState(plan.toCommit, SyncStatus(o.sync));
    var saved := Do(w, save);
    assert BaseTree(saved) == TargetTree(w) == TargetTree(saved);
    RecoverableIsMixed(Do(saved, ClearMarker));
    CutsOne(w, save);
    CutsOne(saved, ClearMarker);
    ExecOne(w, save);
    ExecOne(saved, ClearMarker);
    ExecAppend(w, [save], [ClearMarker]);
    CutsAppend(w, [save], [ClearMarker]);
    assert OpsAfterCheck(plan, o) == [save] + [ClearMarker];
  }

  /** An attempt from a recoverable state may stop after any number of its steps. */
  lemma CutsAnywhere(env: Env, w: World, o: Opts)
    requires Sound(env.hasher) && Recoverable(w)
    ensures PlanFits(BuildPlan(env, w), TargetTree(w))
    ensures CutsRecover(w, AttemptOps(env, w, BuildPlan(env, w), o))
    ensures o.sync != Throws ==>
      var w' := Exec(w, AttemptOps(env, w, BuildPlan(env, w), o));
      SameGoal(w, w') && WellFormed(w') && Published(w')
  {
    hide BuildPlan, Exec, OpsBeforeCheck, OpsAfterCheck, Walked;
    var plan := BuildPlan(env, w);
    CutsBeforeCheck(env, w);
    ReachesCheck(env, w);
    var before, after := OpsBeforeCheck(env, w, plan), OpsAfterCheck(plan, o);
    if o.sync != Throws {
      assert before[..|before|] == before;
      var checked := Exec(w, before);
      CutsAfterCheck(checked, plan, o);
      CutsAppend(w, before, after);
      ExecAppend(w, before, after);
    } else {
      assert before + [] == before;
    }
  }

  // ---------------------------------------------------------------- runs with crashes

  /** No open conflict, and the plan is the expected checkpoint, if one is expected. */
  ghost predicate Agrees(env: Env, w: World, o: Opts)
    requires Sound(env.hasher) && WellFormed(w)
  {
    !o.conflicts && (o.expected.Some? ==> MeetsExpectation(BuildPlan(env, w), o.expected.value))
  }

  /** A re-run from a recoverable state changes nothing before the marker, and is admitted exactly when it agrees. */
  lemma RecoverableIsAdmitted(env: Env, w: World, o: Opts)
    requires Sound(env.hasher) && Recoverable(w)
    ensures Decide(env, w, o).w == w
    ensures Agrees(env, w, o) ==> Decide(env, w, o) == Admitted(w, BuildPlan(env, w))
    ensures !Agrees(env, w, o) ==> Decide(env, w, o).Refused?
  {
    RecoverableIsMixed(w);
    BaselineMeans(env, w);
    if w.marker.None? && w.published.None? {
      assert forall rel :: rel in Walked(w.vault) ==> rel in TargetTree(w);
      assert MissingPages(env, w) == {};
    }
  }

  /** Uninterrupted, an attempt from a recoverable state publishes HEAD. */
  lemma RecoverableCompletes(env: Env, w: World, o: Opts)
    requires Sound(env.hasher) && Recoverable(w) && Agrees(env, w, o) && o.sync != Throws
    ensures var (w', ending) := PublishWiki(env, w, o);
      ending == Finished && WellFormed(w') && SameGoal(w, w') && Published(w')
  {
    RecoverableIsAdmitted(env, w, o);
    ReachesCheck(env, w);
    CutsAnywhere(env, w, o);
  }

  /** One attempt that a crash cuts after `steps` file steps, or that ends by itself. */
  datatype Crashed = Crashed(opts: Opts, steps: nat)

  ghost function AfterCrash(env: Env, w: World, c: Crashed): World
    requires Sound(env.hasher) && WellFormed(w)
  {
    match Decide(env, w, c.opts)
    case Refused(w1, _) => w1
    case Admitted(w1, plan) =>
      AdmittedPlan(env, w, c.opts);
      var ops := AttemptOps(env, w1, plan, c.opts);
      Exec(w1, ops[..if c.steps <= |ops| then c.steps else |ops|])
  }

  lemma AfterCrashRecoverable(env: Env, w: World, c: Crashed)
    requires Sound(env.hasher) && Recoverable(w)
    ensures Recoverable(AfterCrash(env, w, c)) && SameGoal(w, AfterCrash(env, w, c))
  {
    hide BuildPlan, Walked, Decide, AttemptOps, Recoverable, Agrees;
    RecoverableIsAdmitted(env, w, c.opts);
    CutsAnywhere(env, w, c.opts);
  }

  ghost function AfterCrashes(env: Env, w: World, runs: seq<Crashed>): (w': World)
    requires Sound(env.hasher) && Recoverable(w)
    ensures Recoverable(w') && SameGoal(w, w')
    decreases |runs|
  {
    if runs == [] then w
    else
      AfterCrashRecoverable(env, w, runs[0]);
      AfterCrashes(env, AfterCrash(env, w, runs[0]), runs[1..])
  }

  /** The first attempt the baseline check admits, after absorbing, starts from a recoverable state. */
  lemma AdmittedFirst(env: Env, w: World, o: Opts)
    requires Sound(env.hasher) && WellFormed(w) && w.marker == None && !o.forceReplay
    requires var d := Decide(env, w, o); d.Admitted? && PlainTrees(d.w)
    ensures Recoverable(Decide(env, w, o).w)
  {
    hide BuildPlan, Walked, Replayable, HashEntries;
    BaselineMeans(env, Decide(env, w, o).w);
  }

  /**
   * Crash safety. Once a first attempt is admitted, any number of attempts, whatever checkpoint
   * they expect and each cut by a crash between any two file steps, leaves a vault of base and
   * target versions. The next attempt is admitted exactly when no conflict is open and the plan is
   * the checkpoint it expects, if any; uninterrupted it publishes the same HEAD and clears the marker.
   */
  lemma CrashSafety(env: Env, w: World, first: Opts, runs: seq<Crashed>, last: Opts)
    requires Sound(env.hasher) && WellFormed(w) && w.marker == None && !first.forceReplay
    requires var d := Decide(env, w, first); d.Admitted? && PlainTrees(d.w)
    requires last.sync != Throws
    ensures var w1 := Decide(env, w, first).w;
      && Recoverable(w1)
      && var w2 := AfterCrashes(env, w1, runs);
        && Mixed(w2)
        && (Decide(env, w2, last).Admitted? <==> Agrees(env, w2, last))
        && (Agrees(env, w2, last) ==>
              var (w3, ending) := PublishWiki(env, w2, last);
              ending == Finished && WellFormed(w3) && SameGoal(w1, w3) && Published(w3))
  {
    AdmittedFirst(env, w, first);
    var w2 := AfterCrashes(env, Decide(env, w, first).w, runs);
    RecoverableIsMixed(w2);
    RecoverableIsAdmitted(env, w2, last);
    if Agrees(env, w2, last) {
      RecoverableCompletes(env, w2, last);
    }
  }

  // ---------------------------------------------------------------- re-runs bound to a checkpoint

  /** The only commit these steps record as published is `commit`. */
  ghost predicate SavesOnly(ops: seq<Op>, commit: Commit) {
    forall op :: op in ops && op.SaveState? ==> op.commit == commit
  }

  lemma {:induction false} ExecPublished(w: World, ops: seq<Op>, commit: Commit)
    requires SavesOnly(ops, commit)
    ensures Exec(w, ops).published == w.published || Exec(w, ops).published == Some(commit)
    decreases |ops|
  {
    if ops != [] {
      assert ops[0] in ops;
      ExecPublished(Do(w, ops[0]), ops[1..], commit);
    }
  }

  lemma ApplySavesNothing(env: Env, w: World, plan: Plan, target: Tree)
    requires PlanFits(plan, target)
    ensures forall op :: op in ApplyOps(env, w, plan, target) ==> !op.SaveState?
  {
    hide Exec, Extras, WrittenInOrder;
    WritesFit(plan, target);
    OpsAreVaultOps(WrittenInOrder(plan, target), target);
    OpsAreVaultOps(plan.delete, target);
    OpsAreVaultOps(Extras(env, Exec(w, PlannedOps(plan, target)).vault, target), target);
  }

  lemma WritesFit(plan: Plan, target: Tree)
    requires PlanFits(plan, target)
    ensures forall rel :: rel in WrittenInOrder(plan, target) ==> rel in target
  {
  }

  lemma AttemptSaves(env: Env, w: World, o: Opts)
    requires Sound(env.hasher) && WellFormed(w) && PlanFits(BuildPlan(env, w), TargetTree(w))
    ensures SavesOnly(AttemptOps(env, w, BuildPlan(env, w), o), w.head)
  {
    var plan, target := BuildPlan(env, w), TargetTree(w);
    assert plan.toCommit == w.head;
    hide EndingOf, ApplyOps, BuildPlan;
    ApplySavesNothing(env, Do(w, PutMarker(Marker(plan.toCommit, plan.targetTreeHash))), plan, target);
  }

  lemma AfterCrashPublished(env: Env, w: World, c: Crashed)
    requires Sound(env.hasher) && Recoverable(w)
    ensures AfterCrash(env, w, c).published == w.published || AfterCrash(env, w, c).published == Some(w.head)
  {
    hide BuildPlan, Walked, Decide, AttemptOps, Agrees, Exec;
    RecoverableIsAdmitted(env, w, c.opts);
    if Agrees(env, w, c.opts) {
      CutsAnywhere(env, w, c.opts);
      AttemptSaves(env, w, c.opts);
      var ops := AttemptOps(env, w, BuildPlan(env, w), c.opts);
      ExecPublished(w, ops[..if c.steps <= |ops| then c.steps else |ops|], w.head);
    }
  }

  lemma {:induction false} AfterCrashesPublished(env: Env, w: World, runs: seq<Crashed>)
    requires Sound(env.hasher) && Recoverable(w)
    ensures AfterCrashes(env, w, runs).published == w.published || AfterCrashes(env, w, runs).published == Some(w.head)
    decreases |runs|
  {
    hide AfterCrash;
    if runs != [] {
      AfterCrashRecoverable(env, w, runs[0]);
      AfterCrashPublished(env, w, runs[0]);
      AfterCrashesPublished(env, AfterCrash(env, w, runs[0]), runs[1..]);
    }
  }

  /**
   * Re-runs of a bound publish that absorbed nothing: through any crashes, the same expectation is
   * met exactly until an attempt has saved the state, and after that only if the checkpoint changed
   * nothing.
   */
  lemma BoundRerunsIff(env: Env, w: World, o: Opts, runs: seq<Crashed>, again: Opts)
    requires Sound(env.hasher) && Recoverable(w) && Agrees(env, w, o) && o.expected.Some?
    requires again.expected == o.expected && !again.conflicts
    ensures var w2 := AfterCrashes(env, w, runs);
      && (w2.published == w.published || w2.published == Some(w.head))
      && (Decide(env, w2, again).Admitted? <==>
            w2.published == w.published || (w.published.Some? && BaseTree(w) == TargetTree(w)))
  {
    hide Decide, AfterCrashes, Walked;
    var w2 := AfterCrashes(env, w, runs);
    AfterCrashesPublished(env, w, runs);
    RecoverableIsAdmitted(env, w2, again);
    HashCompares(env, BaseTree(w), TargetTree(w));
  }
}
