/** What `publishWiki` never overwrites, what a first publish keeps, and when a re-run is refused. */
module PublishGuards {
  import opened Text
  import opened WikiPath
  import opened TreeHash
  import opened Publish
  import opened PublishSafety

  /** A vault file nobody published: outside both trees, of neither version, or gone from both. */
  ghost predicate Foreign(w: World, rel: Path)
    requires WellFormed(w)
  {
    var base, target := BaseTree(w), TargetTree(w);
    if rel in base && rel in target && rel !in w.vault then true
    else
      && rel in w.vault && (Visible(rel) || rel in base || rel in target)
      && !(rel in base && w.vault[rel] == base[rel])
      && !(rel in target && w.vault[rel] == target[rel])
  }

  lemma MixedHasNothingForeign(w: World)
    requires WellFormed(w)
    ensures Mixed(w) <==> forall rel :: !Foreign(w, rel)
  {
    var base, target := BaseTree(w), TargetTree(w);
    if forall rel :: !Foreign(w, rel) {
      forall rel | rel in Walked(w.vault)
        ensures rel in base || rel in target
      {
        assert !Foreign(w, rel);
      }
      forall rel | rel in base.Keys + target.Keys
        ensures if rel in w.vault
          then (rel in base && w.vault[rel] == base[rel]) || (rel in target && w.vault[rel] == target[rel])
          else !(rel in base && rel in target)
      {
        assert !Foreign(w, rel);
      }
    }
    if Mixed(w) {
      forall rel
        ensures !Foreign(w, rel)
      {
        if rel in w.vault && Visible(rel) {
          assert rel in Walked(w.vault);
        }
        assert rel in base || rel in target ==> rel in base.Keys + target.Keys;
      }
    }
  }

  /** An admitted attempt found a mixed vault, in normal and in replay mode. */
  lemma AdmittedIsMixed(env: Env, w: World, o: Opts)
    requires Sound(env.hasher) && WellFormed(w)
    requires var d := Decide(env, w, o); d.Admitted? && PlainTrees(d.w)
    ensures Mixed(Decide(env, w, o).w)
  {
    hide BuildPlan, Walked, HashEntries, Absorb;
    var w1 := Decide(env, w, o).w;
    if w1.marker.None? && !o.forceReplay {
      BaselineMeans(env, w1);
      assert Recoverable(w1);
      RecoverableIsMixed(w1);
    }
  }

  /** A foreign vault file stops the attempt before the first write, in normal and in replay mode. */
  lemma NoForeignOverwrite(env: Env, w: World, o: Opts, rel: Path)
    requires Sound(env.hasher) && WellFormed(w)
    requires PlainTrees(Decide(env, w, o).w) && Foreign(Decide(env, w, o).w, rel)
    ensures var (w', ending) := PublishWiki(env, w, o);
      ending.NotStarted? && w'.vault == w.vault && w'.marker == w.marker
  {
    var d := Decide(env, w, o);
    MixedHasNothingForeign(d.w);
    if d.Admitted? {
      AdmittedIsMixed(env, w, o);
      assert false;
    }
  }

  /**
   * Every admitted attempt writes exactly the target tree: the tree check cannot fail, and no file
   * outside the listed wiki paths changes.
   */
  lemma AdmittedPublishesTarget(env: Env, w: World, o: Opts)
    requires Sound(env.hasher) && WellFormed(w)
    requires var d := Decide(env, w, o); d.Admitted? && PlainTrees(d.w)
    ensures var (w', ending) := PublishWiki(env, w, o);
      && Walked(w'.vault) == TargetTree(Decide(env, w, o).w)
      && Unseen(w'.vault) == Unseen(w.vault)
      && ending == (if o.sync.Throws? then SyncThrew else Finished)
  {
    var w1 := Decide(env, w, o).w;
    AdmittedIsMixed(env, w, o);
    AdmittedPlan(env, w, o);
    ReachesCheckFromMixed(env, w1);
    var plan := BuildPlan(env, w1);
    var before, after := OpsBeforeCheck(env, w1, plan), OpsAfterCheck(plan, o);
    if !o.sync.Throws? {
      ExecAppend(w1, before, after);
      ExecSaveAndClear(Exec(w1, before), plan, o);
    } else {
      assert before + [] == before;
    }
  }

  lemma ExecSaveAndClear(w: World, plan: Plan, o: Opts)
    ensures Exec(w, OpsAfterCheck(plan, o)).vault == w.vault
  {
    var save := SaveState(plan.toCommit, SyncStatus(o.sync));
    ExecOne(w, save);
    ExecOne(Do(w, save), ClearMarker);
    ExecAppend(w, [save], [ClearMarker]);
    assert OpsAfterCheck(plan, o) == [save] + [ClearMarker];
  }

  // ---------------------------------------------------------------- staging names

  /** The planned steps on a mixed vault leave every target file in place, staging names included. */
  lemma PlannedStaging(v: Tree, base: Tree, target: Tree, writes: seq<Path>, deletes: seq<Path>)
    requires Replayable(v, base, target)
    requires forall rel :: rel in writes ==> rel in target
    requires forall rel :: rel in target && (rel !in base || base[rel] != target[rel]) ==> rel in writes
    requires forall rel :: rel in deletes <==> rel in base && rel !in target
    ensures Walked(Planned(v, writes, deletes, target)) == Walked(target)
  {
    var v' := Planned(v, writes, deletes, target);
    forall rel | rel in target
      ensures rel in v' && v'[rel] == target[rel]
    {
      assert rel in base.Keys + target.Keys;
    }
    forall rel | rel in Walked(v')
      ensures rel in target
    {
      assert rel in writes || rel in Walked(v);
    }
  }

  lemma PlannedOpsStaging(env: Env, w: World)
    requires Sound(env.hasher) && WellFormed(w) && Mixed(w)
    ensures var plan, target := BuildPlan(env, w), TargetTree(w);
      PlanFits(plan, target) && Walked(Exec(w, PlannedOps(plan, target)).vault) == Walked(target)
  {
    var plan, target := BuildPlan(env, w), TargetTree(w);
    BuiltPlanWrites(env, w);
    PlannedOpsCompute(w, plan, target);
    PlannedStaging(w.vault, BaseTree(w), target, WrittenInOrder(plan, target), plan.delete);
  }

  lemma AppliesStaging(env: Env, w: World)
    requires Sound(env.hasher) && WellFormed(w) && Mixed(w)
    ensures var plan, target := BuildPlan(env, w), TargetTree(w);
      PlanFits(plan, target) && ApplyOps(env, w, plan, target) == PlannedOps(plan, target)
  {
    var target := TargetTree(w);
    PlannedOpsStaging(env, w);
    assert Walked(target).Keys - target.Keys == {};
    assert Lists(env.hasher.order({}), {});
  }

  lemma WalkedIsWholeIff(target: Tree)
    ensures Walked(target) == target <==> NoStagingNames(target)
  {
    if Walked(target) == target {
      assert forall rel :: rel in target ==> rel in Walked(target);
    }
  }

  /**
   * The tree check after the writes passes exactly when no target page has a name the directory
   * walk skips; with one, every publish of that commit stops there.
   */
  lemma TreeCheckPassesIff(env: Env, w: World)
    requires Sound(env.hasher) && WellFormed(w) && Mixed(w)
    ensures var plan := BuildPlan(env, w);
      PlanFits(plan, TargetTree(w)) && (TreeCheckPasses(env, w, plan) <==> NoStagingNames(TargetTree(w)))
  {
    BuiltPlanFits(env, w);
    var ops := OpsBeforeCheck(env, w, BuildPlan(env, w));
    MarkerAside(env, w, ops[0].marker);
    PlannedOpsStaging(env, Do(w, ops[0]));
    AppliesStaging(env, Do(w, ops[0]));
    assert ops[1..] == ApplyOps(env, Do(w, ops[0]), BuildPlan(env, w), TargetTree(w));
    WalkedIsWholeIff(TargetTree(w));
    HashCompares(env, Walked(TargetTree(w)), TargetTree(w));
  }

  // ---------------------------------------------------------------- the first publish

  /** What absorbing does when it happens: the vault becomes the base, and HEAD gains its pages. */
  lemma AbsorbKeepsPages(env: Env, w: World)
    requires SoundEnv(env) && WellFormed(w) && w.worktree == w.repo[w.head]
    requires Absorbs(env, w) && Absorb(env, w).Ok?
    ensures var w1 := Absorb(env, w).value;
      && BaseTree(w1) == Walked(w.vault)
      && (forall rel :: rel in TargetTree(w) ==> rel in TargetTree(w1))
      && (forall rel :: rel in MissingPages(env, w) ==> rel in TargetTree(w1))
      && w1.head >= |w.repo|
  {
    var copied := CopiedIn(env, w);
    var tree := env.rebuild(copied).value;
    assert tree.Keys == copied.Keys + {INDEX};
    var w1 := Absorb(env, w).value;
    var missing :| missing in MissingPages(env, w);
    assert missing in tree && missing !in TargetTree(w);
    assert missing !in w.worktree;
    assert tree != w.repo[w.head];
    assert w1.repo[w1.published.value] == Walked(w.vault);
    assert Listed(Walked(w.vault)) == Walked(w.vault);
    assert w1.repo[w1.head] == tree;
  }

  lemma {:induction false} KeepsFile(w: World, ops: seq<Op>, rel: Path)
    requires rel in w.vault && forall op :: op in ops && op.Remove? ==> op.rel != rel
    ensures rel in Exec(w, ops).vault
    decreases |ops|
  {
    if ops != [] {
      assert ops[0] in ops;
      KeepsFile(Do(w, ops[0]), ops[1..], rel);
    }
  }

  ghost predicate Spares(ops: seq<Op>, target: Tree) {
    forall op :: op in ops && op.Remove? ==> op.rel !in target
  }

  lemma ApplySpares(env: Env, w: World, plan: Plan, target: Tree)
    requires Sound(env.hasher) && PlanFits(plan, target)
    requires forall rel :: rel in plan.delete ==> rel !in target
    ensures Spares(ApplyOps(env, w, plan, target), target)
  {
    hide Exec, Extras, WrittenInOrder;
    var planned := PlannedOps(plan, target);
    var extras := Extras(env, Exec(w, planned).vault, target);
    WritesFit(plan, target);
    OpsAreVaultOps(WrittenInOrder(plan, target), target);
    OpsAreVaultOps(plan.delete, target);
    OpsAreVaultOps(extras, target);
    ExtrasAreNoTarget(env, Exec(w, planned).vault, target);
    assert Spares(planned, target) && Spares(RemoveOps(extras), target);
  }

  /** An attempt removes no file of the commit it publishes, wherever it stops. */
  lemma RemovesNoTargetFile(env: Env, w: World, o: Opts)
    requires Sound(env.hasher) && WellFormed(w)
    ensures PlanFits(BuildPlan(env, w), TargetTree(w))
    ensures Spares(AttemptOps(env, w, BuildPlan(env, w), o), TargetTree(w))
  {
    hide BuildPlan, EndingOf, ApplyOps;
    var plan, target := BuildPlan(env, w), TargetTree(w);
    BuiltPlanWrites(env, w);
    ApplySpares(env, Do(w, PutMarker(Marker(plan.toCommit, plan.targetTreeHash))), plan, target);
  }

  lemma ExtrasAreNoTarget(env: Env, vault: Tree, target: Tree)
    requires Sound(env.hasher)
    ensures forall rel :: rel in Extras(env, vault, target) ==> rel !in target
  {
    var extras := Walked(vault).Keys - target.Keys;
    assert Lists(env.hasher.order(extras), extras);
  }

  /**
   * With nothing published yet, an attempt either leaves the vault as it was or ends, even at the tree check,
   * with every vault page that still has a source still there.
   */
  lemma FirstPublishKeepsLivePages(env: Env, w: World, o: Opts)
    requires SoundEnv(env) && WellFormed(w) && w.worktree == w.repo[w.head] && w.published == None
    ensures var (w', ending) := PublishWiki(env, w, o);
      && (ending.NotStarted? ==> w'.vault == w.vault)
      && forall rel :: rel in Walked(w.vault) && rel != INDEX && env.live(w.vault[rel]) ==> rel in Walked(w'.vault)
  {
    hide PublishWiki, Decide, Visible;
    RefusedKeepsVault(env, w, o);
    if Decide(env, w, o).Admitted? {
      forall rel | rel in Walked(w.vault) && rel != INDEX && env.live(w.vault[rel])
        ensures rel in Walked(PublishWiki(env, w, o).0.vault)
      {
        LivePageIsTarget(env, w, o, rel);
        AttemptKeepsFile(env, w, o, rel);
      }
    }
  }

  lemma RefusedKeepsVault(env: Env, w: World, o: Opts)
    requires Sound(env.hasher) && WellFormed(w)
    ensures PublishWiki(env, w, o).1.NotStarted? <==> Decide(env, w, o).Refused?
    ensures Decide(env, w, o).Refused? ==> PublishWiki(env, w, o).0.vault == w.vault
  {
    hide BuildPlan, AttemptOps, TreeCheckPasses, Absorb, BaselineOk, Replayable;
  }

  lemma AttemptKeepsFile(env: Env, w: World, o: Opts, rel: Path)
    requires Sound(env.hasher) && WellFormed(w) && Decide(env, w, o).Admitted?
    requires rel in w.vault && rel in TargetTree(Decide(env, w, o).w)
    ensures rel in PublishWiki(env, w, o).0.vault
  {
    hide BuildPlan, AttemptOps, EndingOf, Absorb, BaselineOk, Replayable, Exec;
    AdmittedPlan(env, w, o);
    var d := Decide(env, w, o);
    RemovesNoTargetFile(env, d.w, o);
    KeepsFile(d.w, AttemptOps(env, d.w, d.plan, o), rel);
  }

  lemma LivePageIsTarget(env: Env, w: World, o: Opts, rel: Path)
    requires SoundEnv(env) && WellFormed(w) && w.worktree == w.repo[w.head] && w.published == None
    requires Decide(env, w, o).Admitted? && rel in Walked(w.vault) && rel != INDEX && env.live(w.vault[rel])
    ensures rel in TargetTree(Decide(env, w, o).w)
  {
    if Absorbs(env, w) {
      AbsorbKeepsPages(env, w);
      assert rel in TargetTree(w) || rel in MissingPages(env, w);
    } else if w.marker.None? {
      assert rel !in MissingPages(env, w);
    } else {
      assert rel in Walked(Decide(env, w, o).w.vault);
    }
  }

  // ---------------------------------------------------------------- re-runs that expect a checkpoint

  /** From a recoverable state, an attempt bound to a checkpoint runs exactly when the plan is that checkpoint. */
  lemma ExpectationDecides(env: Env, w: World, o: Opts)
    requires Sound(env.hasher) && Recoverable(w) && !o.conflicts && o.expected.Some?
    ensures Decide(env, w, o).Admitted? <==> MeetsExpectation(BuildPlan(env, w), o.expected.value)
  {
    hide Decide, BuildPlan;
    RecoverableIsAdmitted(env, w, o);
  }

  /**
   * After an attempt that absorbed vault pages, a re-run that still expects a commit from before
   * the absorbing is refused wherever the crash fell.
   */
  lemma AbsorbedRerunIsRefused(env: Env, w: World, first: Opts, runs: seq<Crashed>, again: Opts)
    requires SoundEnv(env) && WellFormed(w) && w.worktree == w.repo[w.head]
    requires !first.forceReplay && Absorbs(env, w)
    requires var d := Decide(env, w, first); d.Admitted? && PlainTrees(d.w)
    requires !again.conflicts
    requires again.expected.Some? && again.expected.value.commit < |w.repo|
    ensures Recoverable(Decide(env, w, first).w)
    ensures Decide(env, AfterCrashes(env, Decide(env, w, first).w, runs), again).Refused?
  {
    AdmittedFirst(env, w, first);
    AbsorbedHeadIsNew(env, w, first);
    hide BuildPlan, Walked, HashEntries, Decide, AfterCrashes;
    LaterRerunIsRefused(env, AfterCrashes(env, Decide(env, w, first).w, runs), again);
  }

  lemma AbsorbedHeadIsNew(env: Env, w: World, o: Opts)
    requires SoundEnv(env) && WellFormed(w) && w.worktree == w.repo[w.head]
    requires Absorbs(env, w) && Decide(env, w, o).Admitted?
    ensures Decide(env, w, o).w.head >= |w.repo|
  {
    hide BuildPlan, Walked, HashEntries, Absorb;
    AbsorbKeepsPages(env, w);
  }

  lemma LaterRerunIsRefused(env: Env, w: World, o: Opts)
    requires Sound(env.hasher) && Recoverable(w) && !o.conflicts && o.expected.Some?
    requires o.expected.value.commit < w.head
    ensures Decide(env, w, o).Refused?
  {
    ExpectationDecides(env, w, o);
    hide Decide, Walked, HashEntries;
  }

  /**
   * Once a crash fell between the state save and the marker removal, a re-run with the same
   * expectation is admitted only if that checkpoint changed nothing: its base is its target.
   */
  lemma SavedRerun(env: Env, w: World, saved: World, o: Opts)
    requires Sound(env.hasher) && Recoverable(w) && Recoverable(saved) && SameGoal(w, saved)
    requires saved.published == Some(w.head)
    requires !o.conflicts && o.expected.Some? && MeetsExpectation(BuildPlan(env, w), o.expected.value)
    ensures Decide(env, w, o).Admitted?
    ensures Decide(env, saved, o).Admitted? <==> w.published.Some? && BaseTree(w) == TargetTree(w)
  {
    ExpectationDecides(env, w, o);
    ExpectationDecides(env, saved, o);
    HashCompares(env, BaseTree(w), TargetTree(w));
  }
}
