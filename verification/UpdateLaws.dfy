/**
 * What each event of the self-update (self_update.rs) does to the files and the record, told from what stood there
 * before it, and how an ordinary update ends.
 */
module UpdateLaws {
  import opened Text
  import opened SelfUpdate

  /** The channel's version has a record that says how often it was started. */
  ghost predicate Counting(d: Disk, v: Version, from: Version, attempts: nat) {
    d.record.pending == Some(PendingBoot(from, v, attempts))
  }

  /** The record after a save: the new one, or the old one if the save failed. */
  ghost predicate RecordIs(before: World, after: World, pending: Option<PendingBoot>, skip: Option<Version>, saved: bool) {
    after.disk.record == if saved then UpdateState(pending, skip) else before.disk.record
  }

  // ---------------------------------------------------------------- starts

  /** A start of another version than the recorded one drops the record, and that is all. */
  lemma StaleStart(w: World, v: Version, p: PendingBoot, luck: RestoreLuck, saved: bool, c: Channel)
    requires w.running.None? && w.disk.files.target == Some(v) && w.disk.record.pending == Some(p) && p.toVersion != v
    ensures var after := Step(w, Start(luck, saved), c);
            && after.running == Some(v) && after.disk.files == w.disk.files
            && RecordIs(w, after, None, w.disk.record.skipVersion, saved)
  {
  }

  /** The first three starts of a new version are counted, and run. */
  lemma CountedStart(w: World, v: Version, from: Version, attempts: nat, luck: RestoreLuck, saved: bool, c: Channel)
    requires w.running.None? && w.disk.files.target == Some(v) && Counting(w.disk, v, from, attempts) && attempts < 3
    ensures var after := Step(w, Start(luck, saved), c);
            && after.running == Some(v) && after.disk.files == w.disk.files
            && RecordIs(w, after, Some(PendingBoot(from, v, attempts + 1)), w.disk.record.skipVersion, saved)
  {
  }

  /** With nothing to go back to, the next one gives up counting and runs. */
  lemma StrandedStart(w: World, v: Version, from: Version, attempts: nat, luck: RestoreLuck, saved: bool, c: Channel)
    requires w.running.None? && w.disk.files.target == Some(v) && Counting(w.disk, v, from, attempts) && attempts >= 3
    requires w.disk.files.backup.None?
    ensures var after := Step(w, Start(luck, saved), c);
            && after.running == Some(v) && after.disk.files == w.disk.files
            && RecordIs(w, after, None, w.disk.record.skipVersion, saved)
  {
  }

  /**
   * With a backup it moves the new version aside and the old one back, remembers to skip the new one and ends; if
   * the files cannot be moved, the record stays and the new version runs.
   */
  lemma RestoringStart(w: World, v: Version, from: Version, attempts: nat, b: Version, luck: RestoreLuck, saved: bool, c: Channel)
    requires w.running.None? && w.disk.files.target == Some(v) && Counting(w.disk, v, from, attempts) && attempts >= 3
    requires w.disk.files.backup == Some(b)
    ensures var after := Step(w, Start(luck, saved), c);
            && (luck.aside && luck.moveIn ==>
                  && after.disk.files == Files(Some(b), None, Some(v), w.disk.files.staged)
                  && after.running.None? && RecordIs(w, after, None, Some(v), saved))
            && (!(luck.aside && luck.moveIn) ==>
                  && after.disk.record == w.disk.record && after.running == Some(v)
                  && after.disk.files.backup == Some(b) && (!luck.aside || luck.back ==> after.disk.files.target == Some(v)))
  {
  }

  // ---------------------------------------------------------------- checks

  /** The files can be written, run and moved. */
  predicate Lucky(f: Files, luck: InstallLuck) {
    && luck.written && luck.runs && luck.swap.moveIn
    && (f.target.Some? ==> luck.swap.aside && (f.backup.None? || luck.swap.removeBackup))
  }

  /**
   * A check installs exactly a newer version that was not rolled back, if the files can be moved; the old binary
   * is then the backup, the record starts at no boot, and an older skip is forgotten. Otherwise it leaves the record.
   */
  lemma CheckMeans(w: World, v: Version, luck: InstallLuck, saved: bool, c: Channel)
    requires w.running == Some(v) && !w.done
    ensures var after, f := Step(w, Check(luck, saved), c), w.disk.files;
            && after.running == w.running
            && (after.done <==> c.newerThan(v) && w.disk.record.skipVersion != Some(c.version) && Lucky(f, luck))
            && (!c.newerThan(v) || w.disk.record.skipVersion == Some(c.version) ==> after == w)
            && (after.done ==>
                  && after.disk.files.target == Some(c.version) && after.disk.files.staged.None?
                  && after.disk.files.backup == (if f.target.Some? then f.target else f.backup)
                  && after.disk.files.failed == f.failed
                  && RecordIs(w, after, Some(PendingBoot(v, c.version, 0)), None, saved))
            && (!after.done ==> after.disk.record == w.disk.record)
  {
  }

  /** A process that has installed a version makes no more checks. */
  lemma NoCheckTwice(w: World, luck: InstallLuck, saved: bool, c: Channel)
    requires w.running.None? || w.done
    ensures Step(w, Check(luck, saved), c) == w
  {
  }

  /** A write that fails leaves what it wrote beside the old binary, and nothing else changes. */
  lemma TornWrite(w: World, v: Version, luck: InstallLuck, saved: bool, c: Channel)
    requires w.running == Some(v) && !w.done && c.newerThan(v) && w.disk.record.skipVersion != Some(c.version)
    requires !luck.written
    ensures Step(w, Check(luck, saved), c) == w.(disk := w.disk.(files := w.disk.files.(staged := luck.partial)))
  {
  }

  // ---------------------------------------------------------------- one operation at a time

  /** A binary is written or removed at one place, or moves from one place to another. */
  predicate OneOperation(f: Files, g: Files) {
    || g == f.(staged := g.staged) || g == f.(backup := None) || g == f.(failed := None)
    || g == f.(target := None, backup := f.target) || g == f.(target := f.backup, backup := None)
    || g == f.(target := None, failed := f.target) || g == f.(target := f.failed, failed := None)
    || g == f.(target := f.staged, staged := None)
  }

  /** The files change by one operation at a time, from `f` to `g`. */
  ghost predicate GoesTo(f: Files, trail: seq<Files>, g: Files) {
    var all := [f] + trail;
    && (forall i :: 0 <= i < |trail| ==> OneOperation(all[i], all[i + 1]))
    && g == all[|trail|]
  }

  /** Every event goes by one file operation at a time, and ends with the files after the last of them. */
  lemma EventsGoStepwise(w: World, e: Event, c: Channel)
    requires e.Start? || e.Check?
    ensures GoesTo(w.disk.files, TrailOf(w, e, c), Step(w, e, c).disk.files)
  {
    match e
    case Start(luck, saved) => RestoreGoesStepwise(w.disk.files, luck);
    case Check(luck, saved) => InstallGoesStepwise(w.disk.files, c.version, luck);
  }

  lemma Longer(f: Files, trail: seq<Files>, g: Files, h: Files)
    requires GoesTo(f, trail, g) && OneOperation(g, h)
    ensures GoesTo(f, trail + [h], h)
  {
    assert [f] + (trail + [h]) == [f] + trail + [h];
    hide OneOperation;
  }

  lemma NotMoved(f: Files)
    ensures GoesTo(f, [], f)
  {
  }

  lemma Onward(f: Files, a: seq<Files>, g: Files, b: seq<Files>, h: Files)
    requires GoesTo(f, a, g) && GoesTo(g, b, h)
    ensures GoesTo(f, a + b, h)
    decreases |b|
  {
    if b == [] {
      assert a + b == a;
    } else {
      var front := b[..|b| - 1];
      assert [g] + b == [g] + front + [h];
      var before := ([g] + b)[|b| - 1];
      assert GoesTo(g, front, before) && OneOperation(before, h) by { Shorter(g, b, h); }
      Onward(f, a, g, front, before);
      Longer(f, a + front, before, h);
      assert a + front + [h] == a + b;
    }
  }

  lemma Shorter(f: Files, trail: seq<Files>, g: Files)
    requires trail != [] && GoesTo(f, trail, g)
    ensures var all := [f] + trail; GoesTo(f, trail[..|trail| - 1], all[|trail| - 1]) && OneOperation(all[|trail| - 1], g)
  {
    hide OneOperation;
    var front, all := trail[..|trail| - 1], [f] + trail;
    assert forall i :: 0 <= i <= |front| ==> ([f] + front)[i] == all[i];
  }

  lemma RestoreGoesStepwise(f: Files, luck: RestoreLuck)
    ensures var m := RestoreFiles(f, luck); GoesTo(f, m.trail, m.files)
  {
    var trail := RestoreFiles(f, luck).trail;
    NotMoved(f);
    Longer(f, [], f, trail[0]);
    assert [] + [trail[0]] == [trail[0]];
    if |trail| > 1 {
      Longer(f, [trail[0]], trail[0], trail[1]);
      Longer(f, [trail[0]] + [trail[1]], trail[1], trail[2]);
      assert trail == [trail[0]] + [trail[1]] + [trail[2]];
    }
  }

  lemma MovesInStepwise(f: Files, hadTarget: bool, luck: SwapLuck)
    ensures var m := MovedIn(f, hadTarget, luck); GoesTo(f, m.trail, m.files)
  {
    var trail := MovedIn(f, hadTarget, luck).trail;
    NotMoved(f);
    Longer(f, [], f, trail[0]);
    assert [] + [trail[0]] == [trail[0]];
    if |trail| > 1 {
      Longer(f, [trail[0]], trail[0], trail[1]);
      assert trail == [trail[0]] + [trail[1]];
    }
  }

  lemma SwapsStepwise(f: Files, luck: SwapLuck)
    ensures var m := Swap(f, luck); GoesTo(f, m.trail, m.files)
  {
    var trail := Swap(f, luck).trail;
    if f.target.Some? {
      NotMoved(f);
      Longer(f, [], f, trail[0]);
      assert [] + [trail[0]] == [trail[0]];
      if |trail| > 1 {
        var aside := MovedAside(trail[0]);
        Longer(f, [trail[0]], trail[0], aside);
        MovesInStepwise(aside, true, luck);
        Onward(f, [trail[0]] + [aside], aside, MovedIn(aside, true, luck).trail, MovedIn(aside, true, luck).files);
        assert [trail[0]] + [aside] == [trail[0], aside];
      }
    } else {
      MovesInStepwise(f, false, luck);
    }
  }

  lemma InstallGoesStepwise(f: Files, version: Version, luck: InstallLuck)
    ensures var m := Install(f, version, luck); GoesTo(f, m.trail, m.files)
  {
    hide Swap;
    var trail := Install(f, version, luck).trail;
    NotMoved(f);
    Longer(f, [], f, trail[0]);
    assert [] + [trail[0]] == [trail[0]];
    Longer(f, [trail[0]], trail[0], trail[1]);
    assert [trail[0]] + [trail[1]] == [trail[0], trail[1]];
    if luck.written && luck.runs {
      SwapsStepwise(trail[1], luck.swap);
      Onward(f, [trail[0], trail[1]], trail[1], Swap(trail[1], luck.swap).trail, Swap(trail[1], luck.swap).files);
    } else if luck.written {
      Longer(f, [trail[0], trail[1]], trail[1], trail[2]);
      assert [trail[0], trail[1]] + [trail[2]] == trail;
    }
  }

  // ---------------------------------------------------------------- staying up

  /** A version that stays up ends the counting of its own starts, and changes nothing else. */
  lemma StaysUpMeans(w: World, v: Version, saved: bool, c: Channel)
    requires w.running == Some(v)
    ensures var after := Step(w, StaysUp(saved), c);
            && after.running == w.running && after.done == w.done && after.disk.files == w.disk.files
            && (if w.disk.record.pending.Some? && w.disk.record.pending.value.toVersion == v
                then RecordIs(w, after, None, w.disk.record.skipVersion, saved) else after.disk.record == w.disk.record)
  {
  }

  /** Once it has stayed up on record, the channel's version stays for good. */
  lemma StayingUpHeals(w: World, events: seq<Event>, c: Channel)
    requires w.running == Some(c.version) && w.disk.files.target == Some(c.version) && !c.newerThan(c.version)
    requires w.disk.record.pending.Some? ==> w.disk.record.pending.value.toVersion == c.version
    ensures var up := Step(w, StaysUp(true), c);
            Healthy(up, c) && Run(up, events, c).disk == up.disk
  {
    hide Run, Step;
    StaysUpHeals(w, c);
    HealthyStays(Step(w, StaysUp(true), c), events, c);
  }

  lemma StaysUpHeals(w: World, c: Channel)
    requires w.running == Some(c.version) && w.disk.files.target == Some(c.version) && !c.newerThan(c.version)
    requires w.disk.record.pending.Some? ==> w.disk.record.pending.value.toVersion == c.version
    ensures Healthy(Step(w, StaysUp(true), c), c)
  {
  }

  /**
   * An ordinary update: from a settled machine whose process runs, a check, an end, up to three starts of which the
   * last stays up; the channel's version is then installed for good, with the previous one beside it.
   */
  lemma OrdinaryUpdate(w: World, previous: Version, luck: InstallLuck, restore: RestoreLuck, crashes: nat, c: Channel)
      returns (up: World)
    requires Settled(w, previous) && w.running == Some(previous) && c.newerThan(previous) && !c.newerThan(c.version)
    requires w.disk.record.skipVersion != Some(c.version) && Lucky(w.disk.files, luck) && crashes <= 2
    ensures up == Run(w, [Check(luck, true), Die] + Crashes(restore, crashes) + [Start(restore, true), StaysUp(true)], c)
    ensures Healthy(up, c) && up.disk.files.target == Some(c.version) && up.disk.files.backup == Some(previous)
    ensures up.disk.record == UpdateState(None, None)
  {
    var installed := Step(w, Check(luck, true), c);
    CheckMeans(w, previous, luck, true, c);
    var down := Step(installed, Die, c);
    var tried := CrashesCount(down, previous, restore, crashes, c);
    var started := Step(tried, Start(restore, true), c);
    CountedStart(tried, c.version, previous, crashes, restore, true, c);
    up := Step(started, StaysUp(true), c);
    StaysUpMeans(started, c.version, true, c);
    StaysUpHeals(started, c);
    hide Step, Healthy, Settled, Lucky, RecordIs, Counting;
    RunTwo(w, Check(luck, true), Die, c);
    RunTwo(tried, Start(restore, true), StaysUp(true), c);
    var a, m, z := [Check(luck, true), Die], Crashes(restore, crashes), [Start(restore, true), StaysUp(true)];
    RunOn(w, a, m, c);
    RunOn(w, a + m, z, c);
  }

  /** Starts that end before the version has stayed up. */
  function Crashes(restore: RestoreLuck, n: nat): seq<Event> {
    if n == 0 then [] else Crashes(restore, n - 1) + [Start(restore, true), Die]
  }

  lemma RunTwo(w: World, e: Event, f: Event, c: Channel)
    ensures Run(w, [e, f], c) == Step(Step(w, e, c), f, c)
  {
    hide Step;
    assert [e, f][..1] == [e] && [e][..0] == [];
    assert Run(w, [e], c) == Step(w, e, c);
  }

  lemma {:induction false} CrashesCount(w: World, previous: Version, restore: RestoreLuck, n: nat, c: Channel) returns (r: World)
    requires n <= 3 && w.running.None? && w.disk.files.target == Some(c.version)
    requires Counting(w.disk, c.version, previous, 0)
    ensures r == Run(w, Crashes(restore, n), c)
    ensures r.running.None? && r.disk.files == w.disk.files && Counting(r.disk, c.version, previous, n)
    ensures r.disk.record.skipVersion == w.disk.record.skipVersion
  {
    if n == 0 {
      r := w;
    } else {
      var m := CrashesCount(w, previous, restore, n - 1, c);
      CountedStart(m, c.version, previous, n - 1, restore, true, c);
      r := Step(Step(m, Start(restore, true), c), Die, c);
      RunTwo(m, Start(restore, true), Die, c);
      hide Step;
      RunOn(w, Crashes(restore, n - 1), [Start(restore, true), Die], c);
    }
  }
}
