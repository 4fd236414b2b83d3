/**
 * What decides a publish (publish.js), told from the trees, the marker and the options alone: which vault pages are
 * absorbed, when an attempt is admitted, and what a finished one records.
 */
module PublishLaws {
  import opened Text
  import opened WikiPath
  import opened TreeHash
  import opened Publish
  import opened PublishSafety
  import opened PublishGuards

  // ---------------------------------------------------------------- paths

  /** A file name without a separator. */
  predicate PlainName(name: string) {
    '/' !in name && '\\' !in name && '\0' !in name
  }

  /** The maintainer touches the index and the Markdown files directly under `pages`. */
  lemma AllowedIff(rel: Path)
    ensures IsAllowedWikiPath(rel) <==> rel == "index.md" || exists name :: PlainName(name) && rel == "pages/" + name + ".md"
  {
    if IsAllowedWikiPath(rel) && rel != INDEX {
      NameOfPage(rel);
    }
    if name :| PlainName(name) && rel == "pages/" + name + ".md" {
      PageIsAllowed(name);
    }
    IndexIsAllowed();
  }

  /** The directory walk lists the allowed files except pages that are being staged. */
  lemma WalkedIff(t: Tree, rel: Path)
    ensures rel in Walked(t) <==> rel in t && IsAllowedWikiPath(rel) && !("pages/.tmp-" <= rel)
    ensures rel in Walked(t) ==> Walked(t)[rel] == t[rel]
  {
    if IsAllowedWikiPath(rel) && rel != INDEX {
      assert PAGES <= rel;
      StagingIff(rel);
    }
  }

  lemma StagingIff(rel: Path)
    requires PAGES <= rel
    ensures "pages/.tmp-" <= rel <==> TMP <= rel[|PAGES|..]
  {
    assert "pages/.tmp-" == PAGES + TMP;
    assert rel == PAGES + rel[|PAGES|..];
    if "pages/.tmp-" <= rel { assert rel[|PAGES|..][..|TMP|] == rel[..|PAGES| + |TMP|][|PAGES|..]; }
  }

  /** The tree check passes exactly when no file of HEAD has the name of a staged page. */
  lemma StagedPagesStop(env: Env, w: World)
    requires Sound(env.hasher) && WellFormed(w) && Mixed(w)
    ensures PlanFits(BuildPlan(env, w), TargetTree(w))
    ensures TreeCheckPasses(env, w, BuildPlan(env, w)) <==>
            forall rel :: rel in w.repo[w.head] && IsAllowedWikiPath(rel) ==> !("pages/.tmp-" <= rel)
  {
    hide Visible, IsAllowedWikiPath, TreeCheckPasses, BuildPlan, PlanFits, Mixed;
    TreeCheckPassesIff(env, w);
    var target := TargetTree(w);
    assert forall rel :: rel in target <==> rel in w.repo[w.head] && IsAllowedWikiPath(rel);
    forall rel | rel in target
      ensures Visible(rel) <==> !("pages/.tmp-" <= rel)
    {
      WalkedIff(target, rel);
      assert rel in Walked(target) <==> Visible(rel);
    }
    assert NoStagingNames(target) <==> forall rel :: rel in target ==> !("pages/.tmp-" <= rel);
  }

  lemma NameOfPage(rel: Path)
    requires IsAllowedWikiPath(rel) && rel != INDEX
    ensures exists name :: PlainName(name) && rel == "pages/" + name + ".md"
  {
    assert rel[..6] == PAGES && rel[|rel| - 3..] == ".md";
    assert rel[|rel| - 3] == '.' && forall i :: 0 <= i < 6 ==> rel[i] == rel[..6][i] != '.';
    assert |rel| >= 9;
    var name := rel[6..|rel| - 3];
    assert rel[6..] == name + ".md";
    assert rel == "pages/" + name + ".md";
    assert forall c :: c in name ==> c in rel;
  }

  lemma PageSplits(file: string)
    requires '/' !in file
    ensures Split("pages/" + file, '/') == ["pages", file]
  {
    hide Split;
    assert "pages/" + file == "pages" + ['/'] + file;
    SplitHead("pages", file, '/');
    SplitPlain(file, '/');
  }

  lemma PageIsAllowed(name: string)
    requires PlainName(name)
    ensures IsAllowedWikiPath("pages/" + name + ".md")
  {
    hide Split;
    var file := name + ".md";
    var rel := "pages/" + file;
    PageSplits(file);
    assert file != ".." by { assert file[|file| - 1] == 'd'; }
    assert rel[..6] == PAGES && rel[6..] == file && rel[|rel| - 3..] == ".md";
    assert '\\' !in rel && '\0' !in rel;
    assert rel == "pages/" + name + ".md";
  }

  lemma IndexIsAllowed()
    ensures IsAllowedWikiPath("index.md")
  {
    hide Split;
    SplitPlain("index.md", '/');
    assert "index.md" != "..";
  }

  // ---------------------------------------------------------------- absorbing

  /** A vault page that the walk sees, that HEAD lacks, and that still has a source. */
  ghost predicate Taken(env: Env, w: World, rel: Path)
    requires WellFormed(w)
  {
    rel in w.vault && Visible(rel) && rel != "index.md" && rel !in w.repo[w.head] && env.live(w.vault[rel])
  }

  /** HEAD's files, and beside them the vault pages that are taken over. */
  ghost function Beside(env: Env, w: World): Tree
    requires WellFormed(w)
  {
    map rel | rel in w.repo[w.head].Keys + w.vault.Keys && (rel in w.repo[w.head] || Taken(env, w, rel)) ::
      if rel in w.repo[w.head] then w.repo[w.head][rel] else w.vault[rel]
  }

  /**
   * Absorbing happens exactly when nothing is published, no marker stands and some vault page is to be taken
   * over. Then the index of HEAD and those pages is rebuilt; if that works, the vault is the base and the rebuilt
   * tree is HEAD. The vault, the marker and the sync status stay.
   */
  lemma AbsorbMeans(env: Env, w: World)
    requires SoundEnv(env) && WellFormed(w) && w.worktree == w.repo[w.head]
    ensures Absorbs(env, w) <==> w.published.None? && w.marker.None? && exists rel :: Taken(env, w, rel)
    ensures !Absorbs(env, w) ==> Absorb(env, w) == Ok(w)
    ensures Absorbs(env, w) ==>
      var rebuilt, r := env.rebuild(Beside(env, w)), Absorb(env, w);
      && (r.Ok? <==> rebuilt.Some?)
      && (r.Ok? ==> var w1 := r.value;
          && w1.published == Some(|w.repo|) && w1.repo[|w.repo|] == Walked(w.vault)
          && w1.head == |w.repo| + 1 == |w1.repo| - 1 && w1.repo[..|w.repo|] == w.repo
          && w1.repo[w1.head] == w1.worktree == rebuilt.value
          && w1.vault == w.vault && w1.marker == w.marker && w1.syncStatus == w.syncStatus)
  {
    hide Visible;
    forall rel ensures rel in MissingPages(env, w) <==> Taken(env, w, rel) {
      TakenIsMissing(env, w, rel);
    }
    if rel :| Taken(env, w, rel) {
      assert rel in MissingPages(env, w);
    }
    assert CopiedIn(env, w) == Beside(env, w);
    if Absorbs(env, w) && Absorb(env, w).Ok? {
      var rel :| rel in MissingPages(env, w);
      var tree := env.rebuild(CopiedIn(env, w)).value;
      assert tree.Keys == CopiedIn(env, w).Keys + {INDEX};
      assert rel in tree && rel !in w.repo[w.head];
      assert tree != w.repo[w.head];
    }
  }

  lemma TakenIsMissing(env: Env, w: World, rel: Path)
    requires WellFormed(w)
    ensures rel in MissingPages(env, w) <==> Taken(env, w, rel)
  {
    assert Visible(rel) ==> IsAllowedWikiPath(rel);
    hide IsAllowedWikiPath;
  }

  // ---------------------------------------------------------------- the decision

  /** The attempt replays: a marker stands, or it is told to. */
  ghost predicate Replays(w: World, o: Opts) {
    w.marker.Some? || o.forceReplay
  }

  /** The expected checkpoint is what the attempt would publish. */
  ghost predicate IsExpected(env: Env, w: World, e: Expected)
    requires Sound(env.hasher) && WellFormed(w)
  {
    && e.commit == w.head && e.targetTreeHash == HashEntries(env.hasher, Listed(w.repo[w.head]))
    && e.baseTreeHash ==
       (if w.published.None? then None else Some(HashEntries(env.hasher, Listed(w.repo[w.published.value]))))
  }

  /** Every listed page of the commit is in HEAD with the same bytes; the index may differ. */
  ghost predicate KeepsPagesOf(w: World, c: Commit)
    requires WellFormed(w)
  {
    c < |w.repo| &&
    forall rel :: rel in w.repo[c] && IsAllowedWikiPath(rel) && rel != "index.md" ==>
      rel in w.repo[w.head] && w.repo[w.head][rel] == w.repo[c][rel]
  }

  /**
   * An attempt is admitted exactly when absorbing did not fail, no marker of another commit stands, no sync
   * conflict is open, the vault is the base or the target tree (when replaying: holds no foreign file), and the
   * expectation, if there is one, is met or the attempt absorbed pages and keeps those of the expected commit.
   */
  lemma AdmittedIff(env: Env, w: World, o: Opts)
    requires Sound(env.hasher) && WellFormed(w)
    ensures Absorb(env, w).Err? ==> Decide(env, w, o).Refused?
    ensures Absorb(env, w).Ok? ==>
      var w1 := Absorb(env, w).value;
      && Decide(env, w, o).w == w1
      && (Decide(env, w, o).Admitted? <==>
            && (w1.marker.Some? ==> w1.marker.value.toCommit == w1.head)
            && !o.conflicts
            && (if Replays(w1, o) then forall rel :: !Foreign(w1, rel)
                else Walked(w1.vault) == BaseTree(w1) || Walked(w1.vault) == TargetTree(w1))
            && (o.expected.Some? ==>
                  IsExpected(env, w1, o.expected.value) || (Absorbs(env, w) && KeepsPagesOf(w1, o.expected.value.commit))))
  {
    hide IsAllowedWikiPath, HashEntries, Foreign, Walked, Absorbs;
    if Absorb(env, w).Ok? {
      var w1 := Absorb(env, w).value;
      MixedHasNothingForeign(w1);
      BaselineMeans(env, w1);
      if o.expected.Some? {
        KeepsIff(w1, o.expected.value.commit);
      }
    }
  }

  lemma KeepsIff(w: World, c: Commit)
    requires WellFormed(w)
    ensures CompiledPagesPreserved(w, c) <==> KeepsPagesOf(w, c)
  {
    hide IsAllowedWikiPath;
    if c < |w.repo| {
      var was, now := w.repo[c], w.repo[w.head];
      assert forall rel :: rel in Listed(was) <==> rel in was && IsAllowedWikiPath(rel);
      assert forall rel :: rel in Listed(now) <==> rel in now && IsAllowedWikiPath(rel);
      if CompiledPagesPreserved(w, c) {
        forall rel | rel in was && IsAllowedWikiPath(rel) && rel != "index.md"
          ensures rel in now && now[rel] == was[rel]
        {
          assert rel in Listed(was);
        }
      }
    }
  }

  /** A marker of another commit stops every attempt, and nothing changes. */
  lemma OtherCommitWaits(env: Env, w: World, o: Opts)
    requires Sound(env.hasher) && WellFormed(w) && w.marker.Some? && w.marker.value.toCommit != w.head
    ensures PublishWiki(env, w, o).0 == w && PublishWiki(env, w, o).1.NotStarted?
  {
    hide BuildPlan, Walked, MissingPages;
  }

  /**
   * The first publish that absorbs, bound to a commit from before: it is admitted exactly when every page of that
   * commit is in the rebuilt tree with the same bytes.
   */
  lemma AbsorbingIsAdmittedIff(env: Env, w: World, o: Opts, c: Commit)
    requires SoundEnv(env) && WellFormed(w) && w.worktree == w.repo[w.head]
    requires Absorbs(env, w) && env.rebuild(Beside(env, w)).Some?
    requires !o.conflicts && !o.forceReplay && o.expected.Some? && o.expected.value.commit == c < |w.repo|
    ensures Decide(env, w, o).Admitted? <==>
      var tree := env.rebuild(Beside(env, w)).value;
      forall rel :: rel in w.repo[c] && IsAllowedWikiPath(rel) && rel != "index.md" ==>
        rel in tree && tree[rel] == w.repo[c][rel]
  {
    hide IsAllowedWikiPath, Foreign, Walked, Absorbs, Absorb, Decide, Beside, HashEntries;
    AbsorbMeans(env, w);
    AdmittedIff(env, w, o);
    var w1 := Absorb(env, w).value;
    assert w1.repo[c] == w1.repo[..|w.repo|][c] == w.repo[c];
    WalkedIsListed(w.vault);
  }

  lemma WalkedIsListed(t: Tree)
    ensures Listed(Walked(t)) == Walked(t)
  {
    assert forall rel :: Visible(rel) ==> IsAllowedWikiPath(rel);
    hide IsAllowedWikiPath;
  }

  /** Bound to HEAD it is admitted when the index rebuild changes no other file of HEAD. */
  lemma AbsorbingBesideHead(env: Env, w: World, o: Opts)
    requires SoundEnv(env) && WellFormed(w) && w.worktree == w.repo[w.head]
    requires Absorbs(env, w) && env.rebuild(Beside(env, w)).Some?
    requires !o.conflicts && !o.forceReplay && o.expected.Some? && o.expected.value.commit == w.head
    requires var tree := env.rebuild(Beside(env, w)).value;
      forall rel :: rel in w.repo[w.head] && rel != "index.md" ==> rel in tree && tree[rel] == w.repo[w.head][rel]
    ensures Decide(env, w, o).Admitted?
  {
    hide Beside, Decide, Absorbs;
    AbsorbingIsAdmittedIff(env, w, o, w.head);
  }

  /** What a finished attempt records. */
  lemma FinishedRecords(env: Env, w: World, o: Opts)
    requires Sound(env.hasher) && WellFormed(w) && PublishWiki(env, w, o).1.Finished?
    ensures var w', d := PublishWiki(env, w, o).0, Decide(env, w, o).w;
      && w'.published == Some(d.head) && w'.marker.None? && w'.repo == d.repo && w'.head == d.head
      && (w'.syncStatus == "synced" <==> o.sync.Synced?)
      && (w'.syncStatus == "sync_skipped_no_adapter" <==> o.sync.Nothing?)
      && (w'.syncStatus == "published_local_sync_pending" <==> o.sync in {NoAdapter, Blocked, NotOk})
  {
    hide Absorb, BaselineOk, Replayable, OpsBeforeCheck, TreeCheckPasses;
    AdmittedPlan(env, w, o);
    var d := Decide(env, w, o);
    var before, after := OpsBeforeCheck(env, d.w, d.plan), OpsAfterCheck(d.plan, o);
    BeforeKeepsRepo(env, d.w, d.plan);
    ExecAppend(d.w, before, after);
    RecordsAndClears(Exec(d.w, before), d.plan, o);
    StatusesDiffer();
  }

  lemma StatusesDiffer()
    ensures "synced" != "sync_skipped_no_adapter" && "synced" != "published_local_sync_pending"
    ensures "sync_skipped_no_adapter" != "published_local_sync_pending"
  {
    assert |"synced"| == 6 && |"sync_skipped_no_adapter"| == 23 && |"published_local_sync_pending"| == 28;
  }

  lemma RecordsAndClears(w: World, plan: Plan, o: Opts)
    ensures Exec(w, OpsAfterCheck(plan, o)) == w.(published := Some(plan.toCommit), syncStatus := SyncStatus(o.sync), marker := None)
  {
    var save := SaveState(plan.toCommit, SyncStatus(o.sync));
    ExecOne(w, save);
    ExecOne(Do(w, save), ClearMarker);
    ExecAppend(w, [save], [ClearMarker]);
    assert OpsAfterCheck(plan, o) == [save] + [ClearMarker];
  }

  lemma {:induction false} ExecKeepsRepo(w: World, ops: seq<Op>)
    ensures Exec(w, ops).repo == w.repo && Exec(w, ops).head == w.head
    decreases |ops|
  {
    if ops != [] {
      ExecKeepsRepo(Do(w, ops[0]), ops[1..]);
    }
  }

  lemma BeforeKeepsRepo(env: Env, w: World, plan: Plan)
    requires WellFormed(w) && PlanFits(plan, TargetTree(w))
    ensures var w' := Exec(w, OpsBeforeCheck(env, w, plan)); w'.repo == w.repo && w'.head == w.head
  {
    ExecKeepsRepo(w, OpsBeforeCheck(env, w, plan));
  }

  // ---------------------------------------------------------------- the plan

  /** The three lists of a plan, from the files of the two commits. */
  lemma PlanMeans(env: Env, w: World, rel: Path)
    requires Sound(env.hasher) && WellFormed(w)
    ensures var p, base, target := BuildPlan(env, w), BaseTree(w), TargetTree(w);
      && (rel in p.create <==> rel in target && rel !in base)
      && (rel in p.update <==> rel in target && rel in base && target[rel] != base[rel])
      && (rel in p.delete <==> rel in base && rel !in target)
      && p.fromCommit == w.published && p.toCommit == w.head
    ensures var target := w.repo[w.head];
      rel in TargetTree(w) <==> rel in target && IsAllowedWikiPath(rel)
    ensures rel in BaseTree(w) <==>
      w.published.Some? && rel in w.repo[w.published.value] && IsAllowedWikiPath(rel)
  {
    hide IsAllowedWikiPath;
    BuiltPlanFits(env, w);
  }

  // ---------------------------------------------------------------- the order of the steps

  /** Marker, pages, index, deletions, state, marker again. */
  function Phase(op: Op): nat {
    match op
    case PutMarker(_) => 0
    case Write(rel, _) => if rel == "index.md" then 2 else 1
    case Remove(_) => 3
    case SaveState(_, _) => 4
    case ClearMarker => 5
  }

  ghost predicate InPhases(ops: seq<Op>, low: nat, high: nat) {
    && (forall i :: 0 <= i < |ops| ==> low <= Phase(ops[i]) <= high)
    && (forall i, j :: 0 <= i < j < |ops| ==> Phase(ops[i]) <= Phase(ops[j]))
  }

  lemma PhasesJoin(a: seq<Op>, b: seq<Op>, low: nat, mid: nat, high: nat)
    requires InPhases(a, low, mid) && InPhases(b, mid, high) && low <= mid <= high
    ensures InPhases(a + b, low, high)
  {
    hide Phase;
  }

  lemma {:induction false} WritesAre(rels: seq<Path>, target: Tree)
    requires forall rel :: rel in rels ==> rel in target
    ensures |WriteOps(rels, target)| == |rels|
    ensures forall i :: 0 <= i < |rels| ==> rels[i] in rels && WriteOps(rels, target)[i] == Write(rels[i], target[rels[i]])
  {
    if rels != [] {
      WritesAre(rels[1..], target);
    }
  }

  lemma {:induction false} RemovesAre(rels: seq<Path>)
    ensures |RemoveOps(rels)| == |rels| && forall i :: 0 <= i < |rels| ==> RemoveOps(rels)[i] == Remove(rels[i])
  {
    if rels != [] {
      RemovesAre(rels[1..]);
    }
  }

  lemma PagesInPhase(rels: seq<Path>, target: Tree)
    requires INDEX !in rels && forall rel :: rel in rels ==> rel in target
    ensures InPhases(WriteOps(rels, target), 1, 1)
  {
    WritesAre(rels, target);
    hide WriteOps;
  }

  lemma IndexInPhase(bytes: Bytes)
    ensures InPhases([Write(INDEX, bytes)], 1, 2)
  {
  }

  lemma WritesLast(rels: seq<Path>, last: Path, target: Tree)
    requires last in target && forall rel :: rel in rels ==> rel in target
    ensures WriteOps(rels + [last], target) == WriteOps(rels, target) + [Write(last, target[last])]
  {
    WritesAre(rels, target);
    WritesAre(rels + [last], target);
    hide WriteOps;
  }

  lemma WritesInPhases(plan: Plan, target: Tree)
    requires PlanFits(plan, target)
    ensures InPhases(WriteOps(WrittenInOrder(plan, target), target), 1, 2)
  {
    hide InPhases, WriteOps, WithoutIndex;
    var pages := WithoutIndex(plan.create + plan.update);
    PagesInPhase(pages, target);
    if INDEX in target {
      WritesLast(pages, INDEX, target);
      IndexInPhase(target[INDEX]);
      PhasesJoin(WriteOps(pages, target), [Write(INDEX, target[INDEX])], 1, 1, 2);
    } else {
      assert pages + [] == pages;
      PhasesJoin(WriteOps(pages, target), [], 1, 1, 2) by { NoPhases(); }
      assert WriteOps(pages, target) + [] == WriteOps(pages, target);
    }
  }

  lemma NoPhases()
    ensures InPhases([], 1, 2)
  {
  }

  lemma WritesHold(plan: Plan, target: Tree)
    requires PlanFits(plan, target)
    ensures forall rel, bytes :: Write(rel, bytes) in WriteOps(WrittenInOrder(plan, target), target) <==>
              rel in target && bytes == target[rel] && (rel == "index.md" || rel in plan.create || rel in plan.update)
  {
    var rels := WrittenInOrder(plan, target);
    WritesAre(rels, target);
    assert forall rel :: rel in rels ==> rel in target;
    assert forall rel :: rel in rels <==>
             rel in target && (rel == "index.md" || rel in plan.create || rel in plan.update);
    hide WrittenInOrder, WriteOps, PlanFits;
    WritesAreOf(rels, target);
  }

  lemma WritesAreOf(rels: seq<Path>, target: Tree)
    requires forall rel :: rel in rels ==> rel in target
    ensures forall rel, bytes :: Write(rel, bytes) in WriteOps(rels, target) <==> rel in rels && bytes == target[rel]
  {
    WritesAre(rels, target);
    hide WriteOps;
    var ops := WriteOps(rels, target);
    forall rel, bytes ensures Write(rel, bytes) in ops <==> rel in rels && bytes == target[rel] {
      if rel in rels {
        var i :| 0 <= i < |rels| && rels[i] == rel;
        assert ops[i] in ops;
      }
    }
  }

  lemma RemovesInPhases(rels: seq<Path>)
    ensures InPhases(RemoveOps(rels), 3, 3)
    ensures forall rel :: Remove(rel) in RemoveOps(rels) <==> rel in rels
  {
    RemovesAre(rels);
    forall rel | rel in rels ensures Remove(rel) in RemoveOps(rels) {
      var i :| 0 <= i < |rels| && rels[i] == rel;
      assert RemoveOps(rels)[i] in RemoveOps(rels);
    }
  }

  /**
   * The steps of an admitted attempt in their order: the marker of HEAD, the new and changed pages, the index whenever
   * HEAD has one, what HEAD has no more, and if the attempt finishes the state and the marker's removal.
   */
  lemma StepsMean(env: Env, w: World, o: Opts)
    requires Sound(env.hasher) && WellFormed(w) && Decide(env, w, o).Admitted?
    ensures var ops, d := StepsOf(env, w, o), Decide(env, w, o).w;
      && InPhases(ops, 0, 5)
      && ops != [] && ops[0] == PutMarker(Marker(d.head, HashEntries(env.hasher, TargetTree(d))))
      && (forall rel, bytes :: Write(rel, bytes) in ops <==>
            && rel in TargetTree(d) && bytes == TargetTree(d)[rel]
            && (rel == "index.md" || rel !in BaseTree(d) || BaseTree(d)[rel] != TargetTree(d)[rel]))
      && (forall rel :: rel in BaseTree(d) && rel !in TargetTree(d) ==> Remove(rel) in ops)
      && (forall rel :: Remove(rel) in ops ==> rel !in TargetTree(d))
      && (PublishWiki(env, w, o).1.Finished? <==> ClearMarker in ops)
      && (ClearMarker in ops ==> |ops| >= 2 && ops[|ops| - 2].SaveState? && ops[|ops| - 2].commit == d.head)
  {
    StepsAre(env, w, o);
    var d, plan := Decide(env, w, o).w, Decide(env, w, o).plan;
    var before, after := OpsBeforeCheck(env, d, plan), OpsAfterCheck(plan, o);
    BeforeMeans(env, d, plan);
    PlanIs(env, d, plan);
    AfterMeans(before, plan, o);
    OnlyWritesAndRemoves(before);
    hide Decide, OpsBeforeCheck, OpsAfterCheck, BuildPlan, EndingOf, BaseTree, TargetTree, InPhases;
    assert before + [] == before;
  }

  lemma OnlyWritesAndRemoves(ops: seq<Op>)
    requires InPhases(ops, 0, 3)
    ensures ClearMarker !in ops && InPhases(ops, 0, 5)
  {
  }

  lemma AfterMeans(before: seq<Op>, plan: Plan, o: Opts)
    requires InPhases(before, 0, 3)
    ensures var ops := before + OpsAfterCheck(plan, o);
      && InPhases(ops, 0, 5) && ClearMarker in ops && |ops| >= 2
      && ops[|ops| - 2].SaveState? && ops[|ops| - 2].commit == plan.toCommit
      && (forall rel, bytes :: Write(rel, bytes) in ops <==> Write(rel, bytes) in before)
      && (forall rel :: Remove(rel) in ops <==> Remove(rel) in before)
      && (before != [] ==> ops[0] == before[0])
  {
    var after := OpsAfterCheck(plan, o);
    assert InPhases(after, 4, 5) && after[1] == ClearMarker && |after| == 2;
    PhasesJoin(before, after, 0, 3, 5);
    hide InPhases;
    assert (before + after)[|before| + 1] == ClearMarker && (before + after)[|before|] == after[0];
  }

  lemma PlanIs(env: Env, w: World, plan: Plan)
    requires Sound(env.hasher) && WellFormed(w) && plan == BuildPlan(env, w)
    ensures plan.toCommit == w.head && plan.targetTreeHash == HashEntries(env.hasher, TargetTree(w))
    ensures var base, target := BaseTree(w), TargetTree(w);
      && (forall rel :: rel in plan.create || rel in plan.update <==>
            rel in target && (rel !in base || base[rel] != target[rel]))
      && (forall rel :: rel in plan.delete <==> rel in base && rel !in target)
  {
    BuiltPlanFits(env, w);
    hide BaseTree, TargetTree;
  }

  lemma StepsAre(env: Env, w: World, o: Opts)
    requires Sound(env.hasher) && WellFormed(w) && Decide(env, w, o).Admitted?
    ensures var d := Decide(env, w, o);
      && PlanFits(d.plan, TargetTree(d.w)) && d.plan == BuildPlan(env, d.w)
      && PublishWiki(env, w, o).1 == EndingOf(env, d.w, d.plan, o)
      && StepsOf(env, w, o) == OpsBeforeCheck(env, d.w, d.plan)
           + if EndingOf(env, d.w, d.plan, o).Finished? then OpsAfterCheck(d.plan, o) else []
  {
    AdmittedPlan(env, w, o);
    hide Decide, OpsBeforeCheck, EndingOf, BuildPlan;
  }

  lemma BeforeMeans(env: Env, w: World, plan: Plan)
    requires Sound(env.hasher) && WellFormed(w) && PlanFits(plan, TargetTree(w)) && plan == BuildPlan(env, w)
    ensures var ops, target := OpsBeforeCheck(env, w, plan), TargetTree(w);
      && InPhases(ops, 0, 3) && ops != [] && ops[0] == PutMarker(Marker(plan.toCommit, plan.targetTreeHash))
      && (forall rel, bytes :: Write(rel, bytes) in ops <==>
            rel in target && bytes == target[rel] && (rel == "index.md" || rel in plan.create || rel in plan.update))
      && (forall rel :: rel in plan.delete ==> Remove(rel) in ops)
      && (forall rel :: Remove(rel) in ops ==> rel !in target)
  {
    PlanIs(env, w, plan);
    var extras := BeforeIs(env, w, plan);
    BeforePhases(plan, TargetTree(w), extras);
    BeforeHolds(plan, TargetTree(w), extras);
    hide BeforeSteps, OpsBeforeCheck, InPhases, BuildPlan, TargetTree;
  }

  /** The marker, the writes, the planned deletions, and those of the files `extras`. */
  function BeforeSteps(plan: Plan, target: Tree, extras: seq<Path>): seq<Op>
    requires PlanFits(plan, target)
  {
    [PutMarker(Marker(plan.toCommit, plan.targetTreeHash))]
    + (WriteOps(WrittenInOrder(plan, target), target) + RemoveOps(plan.delete) + RemoveOps(extras))
  }

  lemma BeforeIs(env: Env, w: World, plan: Plan) returns (extras: seq<Path>)
    requires Sound(env.hasher) && WellFormed(w) && PlanFits(plan, TargetTree(w))
    ensures OpsBeforeCheck(env, w, plan) == BeforeSteps(plan, TargetTree(w), extras)
    ensures forall rel :: rel in extras ==> rel !in TargetTree(w)
  {
    var target, marked := TargetTree(w), PutMarker(Marker(plan.toCommit, plan.targetTreeHash));
    var vault := Exec(Do(w, marked), PlannedOps(plan, target)).vault;
    extras := Extras(env, vault, target);
    assert Lists(extras, Walked(vault).Keys - target.Keys);
    hide WriteOps, RemoveOps, Exec, WrittenInOrder, Walked, TargetTree;
  }

  lemma BeforePhases(plan: Plan, target: Tree, extras: seq<Path>)
    requires PlanFits(plan, target)
    ensures var ops := BeforeSteps(plan, target, extras);
      InPhases(ops, 0, 3) && ops != [] && ops[0] == PutMarker(Marker(plan.toCommit, plan.targetTreeHash))
  {
    hide InPhases, WriteOps, RemoveOps, WithoutIndex;
    WritesInPhases(plan, target);
    RemovesInPhases(plan.delete);
    RemovesInPhases(extras);
    FourPhases(PutMarker(Marker(plan.toCommit, plan.targetTreeHash)), WriteOps(WrittenInOrder(plan, target), target),
               RemoveOps(plan.delete), RemoveOps(extras));
  }

  lemma FourPhases(marked: Op, writes: seq<Op>, removes: seq<Op>, more: seq<Op>)
    requires marked.PutMarker? && InPhases(writes, 1, 2) && InPhases(removes, 3, 3) && InPhases(more, 3, 3)
    ensures InPhases([marked] + (writes + removes + more), 0, 3)
  {
    hide InPhases;
    MarkerInPhases(marked);
    Wider(removes);
    PhasesJoin(writes, removes, 1, 2, 3);
    PhasesJoin(writes + removes, more, 1, 3, 3);
    PhasesJoin([marked], writes + removes + more, 0, 1, 3);
  }

  lemma BeforeHolds(plan: Plan, target: Tree, extras: seq<Path>)
    requires PlanFits(plan, target)
    ensures var ops := BeforeSteps(plan, target, extras);
      && (forall rel, bytes :: Write(rel, bytes) in ops <==>
            rel in target && bytes == target[rel] && (rel == "index.md" || rel in plan.create || rel in plan.update))
      && (forall rel :: Remove(rel) in ops <==> rel in plan.delete || rel in extras)
  {
    hide InPhases, WriteOps, RemoveOps, WithoutIndex;
    WritesInPhases(plan, target);
    WritesHold(plan, target);
    RemovesInPhases(plan.delete);
    RemovesInPhases(extras);
    FourHold(PutMarker(Marker(plan.toCommit, plan.targetTreeHash)), WriteOps(WrittenInOrder(plan, target), target),
             RemoveOps(plan.delete), RemoveOps(extras));
  }

  lemma FourHold(marked: Op, writes: seq<Op>, removes: seq<Op>, more: seq<Op>)
    requires marked.PutMarker? && InPhases(writes, 1, 2) && InPhases(removes, 3, 3) && InPhases(more, 3, 3)
    ensures var ops := [marked] + (writes + removes + more);
      && (forall rel, bytes :: Write(rel, bytes) in ops <==> Write(rel, bytes) in writes)
      && (forall rel :: Remove(rel) in ops <==> Remove(rel) in removes || Remove(rel) in more)
  {
    hide InPhases;
    OnlyWrites(writes);
    OnlyRemoves(removes);
    OnlyRemoves(more);
  }

  lemma Wider(ops: seq<Op>)
    requires InPhases(ops, 3, 3)
    ensures InPhases(ops, 2, 3)
  {
  }

  lemma MarkerInPhases(op: Op)
    requires op.PutMarker?
    ensures InPhases([op], 0, 1)
  {
  }

  lemma OnlyWrites(ops: seq<Op>)
    requires InPhases(ops, 1, 2)
    ensures forall op :: op in ops ==> op.Write?
  {
  }

  lemma OnlyRemoves(ops: seq<Op>)
    requires InPhases(ops, 3, 3)
    ensures forall op :: op in ops ==> op.Remove?
  {
  }
}
