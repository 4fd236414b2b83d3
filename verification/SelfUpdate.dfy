/**
 * The daemon's self-update (self_update.rs): files beside the binary, the update record, boot counting and
 * rollback. A binary is identified with the version it reports. Every file operation and every save of the
 * record may fail; the outcomes are parameters.
 */
module SelfUpdate {
  import opened Text

  type Version = string

  const MAX_BOOT_ATTEMPTS: nat := 3

  /** The binaries at the target and at its siblings. */
  datatype Files = Files(
    target: Option<Version>,
    backup: Option<Version>,
    failed: Option<Version>,
    staged: Option<Version>
  )

  datatype PendingBoot = PendingBoot(fromVersion: Version, toVersion: Version, bootAttempts: nat)

  datatype UpdateState = UpdateState(pending: Option<PendingBoot>, skipVersion: Option<Version>)

  datatype BootCheck = Continue | RolledBack(failed: Version, restored: Version)

  datatype Outcome = UpToDate | Skipped | Failed | Installed(from: Version, to: Version)

  /** Which of the operations of a swap succeed. */
  datatype SwapLuck = SwapLuck(removeBackup: bool, aside: bool, moveIn: bool, back: bool, removeStaged: bool)

  datatype RestoreLuck = RestoreLuck(removeFailed: bool, aside: bool, moveIn: bool, back: bool)

  datatype InstallLuck = InstallLuck(removeStaged: bool, written: bool, partial: Option<Version>, runs: bool, swap: SwapLuck)

  /** The files after some operations, whether they did what they are for, and the files after each of them. */
  datatype Moved = Moved(files: Files, ok: bool, trail: seq<Files>)

  // ---------------------------------------------------------------- what the operations do

  function MovedAside(f: Files): Files {
    f.(target := None, backup := f.target)
  }

  /** The staged binary moves in; if it cannot, what was moved aside moves back. */
  function MovedIn(f: Files, hadTarget: bool, luck: SwapLuck): Moved {
    if luck.moveIn then
      var done := f.(target := f.staged, staged := None);
      Moved(done, true, [done])
    else
      var back := if hadTarget && luck.back then f.(target := f.backup, backup := None) else f;
      var end := if luck.removeStaged then back.(staged := None) else back;
      Moved(end, false, [back, end])
  }

  function Swap(f: Files, luck: SwapLuck): Moved {
    if f.target.Some? then
      var cleared := if luck.removeBackup then f.(backup := None) else f;
      if f.backup.Some? && !luck.removeBackup then Moved(f, false, [f])
      else if !luck.aside then Moved(cleared, false, [cleared])
      else
        var aside := MovedAside(cleared);
        var moved := MovedIn(aside, true, luck);
        moved.(trail := [cleared, aside] + moved.trail)
    else MovedIn(f, false, luck)
  }

  function Install(f: Files, version: Version, luck: InstallLuck): Moved {
    var clean := if luck.removeStaged then f.(staged := None) else f;
    if !luck.written then
      var torn := clean.(staged := luck.partial);
      Moved(torn, false, [clean, torn])
    else
      var staged := clean.(staged := Some(version));
      if !luck.runs then
        var end := if luck.swap.removeStaged then staged.(staged := None) else staged;
        Moved(end, false, [clean, staged, end])
      else
        var swapped := Swap(staged, luck.swap);
        Moved(swapped.files, swapped.ok, [clean, staged] + swapped.trail)
  }

  function RestoreFiles(f: Files, luck: RestoreLuck): Moved {
    var clean := if luck.removeFailed then f.(failed := None) else f;
    if !luck.aside then Moved(clean, false, [clean])
    else
      var aside := clean.(target := None, failed := clean.target);
      if luck.moveIn then
        var done := aside.(target := aside.backup, backup := None);
        Moved(done, true, [clean, aside, done])
      else
        var end := if luck.back then aside.(target := aside.failed, failed := None) else aside;
        Moved(end, false, [clean, aside, end])
  }

  /** The files and the record. */
  datatype Disk = Disk(files: Files, record: UpdateState)

  function Saved(d: Disk, record: UpdateState, saved: bool): Disk {
    if saved then d.(record := record) else d
  }

  datatype Booted = Booted(disk: Disk, check: BootCheck, saved: bool, restored: bool)

  /** `boot_check`. In the result, `saved` and `restored` are false when a save or a restore was tried and failed. */
  function Boot(d: Disk, running: Version, luck: RestoreLuck, saved: bool): Booted {
    if d.record.pending.None? then Booted(d, Continue, true, true)
    else
      var p := d.record.pending.value;
      var dropped := d.record.(pending := None);
      if p.toVersion != running then Booted(Saved(d, dropped, saved), Continue, saved, true)
      else if p.bootAttempts < MAX_BOOT_ATTEMPTS then
        var counted := d.record.(pending := Some(p.(bootAttempts := p.bootAttempts + 1)));
        Booted(Saved(d, counted, saved), Continue, saved, true)
      else if d.files.backup.None? then Booted(Saved(d, dropped, saved), Continue, saved, true)
      else
        var moved := RestoreFiles(d.files, luck);
        if !moved.ok then Booted(d.(files := moved.files), Continue, true, false)
        else
          var after := d.(files := moved.files);
          Booted(Saved(after, dropped.(skipVersion := Some(running)), saved), RolledBack(running, p.fromVersion), saved, true)
  }

  /** The files after each file operation of a boot check. */
  function BootTrail(d: Disk, running: Version, luck: RestoreLuck): seq<Files> {
    if d.record.pending.Some? && d.record.pending.value.toVersion == running
       && d.record.pending.value.bootAttempts >= MAX_BOOT_ATTEMPTS && d.files.backup.Some?
    then RestoreFiles(d.files, luck).trail else []
  }

  function ClearPending(d: Disk, running: Version, saved: bool): Disk {
    if d.record.pending.Some? && d.record.pending.value.toVersion == running
    then Saved(d, d.record.(pending := None), saved)
    else d
  }

  datatype Updated = Updated(disk: Disk, outcome: Outcome)

  /** `update_installed` as the background check calls it, once the manifest is fetched. */
  function Update(d: Disk, current: Version, latest: Version, newer: bool, luck: InstallLuck, saved: bool): Updated {
    if !newer then Updated(d, UpToDate)
    else if d.record.skipVersion == Some(latest) then Updated(d, Skipped)
    else
      var moved := Install(d.files, latest, luck);
      if !moved.ok then Updated(d.(files := moved.files), Failed)
      else
        var record := UpdateState(Some(PendingBoot(current, latest, 0)), None);
        Updated(Saved(d.(files := moved.files), record, saved), Installed(current, latest))
  }

  /** The files after each file operation of a background update. */
  function UpdateTrail(d: Disk, latest: Version, newer: bool, luck: InstallLuck): seq<Files> {
    if newer && d.record.skipVersion != Some(latest) then Install(d.files, latest, luck).trail else []
  }

  // ---------------------------------------------------------------- the object

  class Machine {
    var target: Option<Version>
    var backup: Option<Version>
    var failed: Option<Version>
    var staged: Option<Version>
    var record: UpdateState
    /** The files after every file operation so far. */
    ghost var trail: seq<Files>

    ghost function Here(): Files
      reads this
    {
      Files(target, backup, failed, staged)
    }

    ghost function View(): Disk
      reads this
    {
      Disk(Here(), record)
    }

    method SaveState(state: UpdateState, saved: bool)
      modifies this`record
      ensures View() == Saved(old(View()), state, saved)
    {
      if saved {
        record := state;
      }
    }

    method MoveIn(hadTarget: bool, luck: SwapLuck) returns (ok: bool)
      modifies this`target, this`backup, this`staged, this`trail
      ensures var moved := MovedIn(old(Here()), hadTarget, luck);
              Here() == moved.files && ok == moved.ok && trail == old(trail) + moved.trail
    {
      if luck.moveIn {
        target, staged := staged, None;
        trail := trail + [Here()];
        return true;
      }
      if hadTarget && luck.back {
        target, backup := backup, None;
      }
      trail := trail + [Here()];
      if luck.removeStaged {
        staged := None;
      }
      trail := trail + [Here()];
      return false;
    }

    method SwapIn(luck: SwapLuck) returns (ok: bool)
      modifies this`target, this`backup, this`staged, this`trail
      ensures var moved := Swap(old(Here()), luck);
              Here() == moved.files && ok == moved.ok && trail == old(trail) + moved.trail
    {
      hide MovedIn;
      var hadTarget := target.Some?;
      if hadTarget {
        if backup.Some? && !luck.removeBackup {
          trail := trail + [Here()];
          return false;
        }
        backup := None;
        trail := trail + [Here()];
        if !luck.aside {
          return false;
        }
        target, backup := None, target;
        trail := trail + [Here()];
      }
      ok := MoveIn(hadTarget, luck);
    }

    method InstallBinary(version: Version, luck: InstallLuck) returns (ok: bool)
      modifies this`target, this`backup, this`staged, this`trail
      ensures var moved := Install(old(Here()), version, luck);
              Here() == moved.files && ok == moved.ok && trail == old(trail) + moved.trail
    {
      hide Swap;
      if luck.removeStaged {
        staged := None;
      }
      trail := trail + [Here()];
      staged := if luck.written then Some(version) else luck.partial;
      trail := trail + [Here()];
      if !luck.written {
        return false;
      }
      if !luck.runs {
        if luck.swap.removeStaged {
          staged := None;
        }
        trail := trail + [Here()];
        return false;
      }
      ok := SwapIn(luck.swap);
    }

    method Restore(luck: RestoreLuck) returns (ok: bool)
      modifies this`target, this`backup, this`failed, this`trail
      ensures var moved := RestoreFiles(old(Here()), luck);
              Here() == moved.files && ok == moved.ok && trail == old(trail) + moved.trail
    {
      if luck.removeFailed {
        failed := None;
      }
      trail := trail + [Here()];
      if !luck.aside {
        return false;
      }
      target, failed := None, target;
      trail := trail + [Here()];
      if !luck.moveIn {
        if luck.back {
          target, failed := failed, None;
        }
        trail := trail + [Here()];
        return false;
      }
      target, backup := backup, None;
      trail := trail + [Here()];
      return true;
    }

    /** `boot_check`. */
    method CheckBoot(running: Version, luck: RestoreLuck, saved: bool) returns (check: BootCheck)
      modifies this
      ensures View() == Boot(old(View()), running, luck, saved).disk
      ensures check == Boot(old(View()), running, luck, saved).check
      ensures trail == old(trail) + BootTrail(old(View()), running, luck)
    {
      var state := record;
      if state.pending.None? {
        return Continue;
      }
      var pending := state.pending.value;
      state := state.(pending := None);
      if pending.toVersion != running {
        SaveState(state, saved);
        return Continue;
      }
      if pending.bootAttempts < MAX_BOOT_ATTEMPTS {
        state := state.(pending := Some(pending.(bootAttempts := pending.bootAttempts + 1)));
        SaveState(state, saved);
        return Continue;
      }
      if backup.None? {
        SaveState(state, saved);
        return Continue;
      }
      var ok := Restore(luck);
      if !ok {
        return Continue;
      }
      state := state.(skipVersion := Some(pending.toVersion));
      SaveState(state, saved);
      return RolledBack(pending.toVersion, pending.fromVersion);
    }

    method ClearPendingFor(running: Version, saved: bool)
      modifies this`record
      ensures View() == ClearPending(old(View()), running, saved)
    {
      var state := record;
      if state.pending.Some? && state.pending.value.toVersion == running {
        SaveState(state.(pending := None), saved);
      }
    }

    method UpdateInstalled(current: Version, latest: Version, newer: bool, luck: InstallLuck, saved: bool)
      returns (outcome: Outcome)
      modifies this
      ensures View() == Update(old(View()), current, latest, newer, luck, saved).disk
      ensures outcome == Update(old(View()), current, latest, newer, luck, saved).outcome
      ensures trail == old(trail) + UpdateTrail(old(View()), latest, newer, luck)
    {
      if !newer {
        return UpToDate;
      }
      if record.skipVersion == Some(latest) {
        return Skipped;
      }
      var ok := InstallBinary(latest, luck);
      if !ok {
        return Failed;
      }
      SaveState(UpdateState(Some(PendingBoot(current, latest, 0)), None), saved);
      return Installed(current, latest);
    }
  }

  // ---------------------------------------------------------------- the binary is never lost

  ghost predicate Kept(f: Files, v: Version) {
    f.target == Some(v) || f.backup == Some(v)
  }

  /**
   * Through every step of an install over the previous binary, or over a missing target with it at the backup,
   * the previous binary is at the target or the backup, whatever fails.
   */
  lemma InstallKeepsPrevious(f: Files, version: Version, luck: InstallLuck, previous: Version)
    requires f.target == Some(previous) || (f.target.None? && f.backup == Some(previous))
    ensures forall g :: g in Install(f, version, luck).trail ==> Kept(g, previous)
    ensures var m := Install(f, version, luck);
            && (m.ok ==> m.files.target == Some(version) && m.files.backup == Some(previous))
            && (m.files.target == Some(version) ==> m.ok || f.target == Some(version))
  {
  }

  /** Through every step of a rollback, whatever fails, the binary it restores is at the target or the backup. */
  lemma RestoreKeepsPrevious(f: Files, luck: RestoreLuck)
    requires f.backup.Some?
    ensures forall g :: g in RestoreFiles(f, luck).trail ==> Kept(g, f.backup.value)
    ensures RestoreFiles(f, luck).ok ==> RestoreFiles(f, luck).files.target == f.backup
  {
  }

  // ---------------------------------------------------------------- runs

  /**
   * What can happen to the machine: a start when nothing runs, an end of the running process at any time, the
   * running version staying up long enough, and a background check. A check that does not reach the channel
   * changes nothing. A start or a check may also be killed after some of its file operations.
   */
  datatype Event =
    | Start(restore: RestoreLuck, saved: bool)
    | Die
    | StaysUp(saved: bool)
    | Check(install: InstallLuck, saved: bool)
    | KilledStart(restore: RestoreLuck, ops: nat)
    | KilledCheck(install: InstallLuck, ops: nat)

  /**
   * Installs, starts of the channel's version, and what failed: saves, and among them those that would have
   * counted a boot, recorded an install or recorded a rollback; and restores that failed or were killed.
   */
  datatype Tally = Tally(
    installs: nat,
    boots: nat,
    lostSaves: nat,
    lostCounts: nat,
    lostInstallRecords: nat,
    lostRollbacks: nat,
    failedRestores: nat
  )

  const NOTHING: Tally := Tally(0, 0, 0, 0, 0, 0, 0)

  /** The machine and its process; `done` once this process has installed and makes no more checks. */
  datatype World = World(disk: Disk, running: Option<Version>, done: bool, tally: Tally)

  /** The channel: the version it offers, and whether that is newer than another one. */
  datatype Channel = Channel(version: Version, newerThan: Version -> bool)

  function Count(b: bool): nat {
    if b then 1 else 0
  }

  function Started(w: World, luck: RestoreLuck, saved: bool, c: Channel): World {
    if w.running.Some? || w.disk.files.target.None? then w
    else
      var v := w.disk.files.target.value;
      var b := Boot(w.disk, v, luck, saved);
      var counts := w.disk.record.pending.Some? && w.disk.record.pending.value.toVersion == v && !b.check.RolledBack?
                    && w.disk.record.pending.value.bootAttempts < MAX_BOOT_ATTEMPTS;
      World(
        b.disk, if b.check.RolledBack? then None else Some(v), false,
        w.tally.(boots := w.tally.boots + Count(v == c.version),
                 lostSaves := w.tally.lostSaves + Count(!b.saved),
                 lostCounts := w.tally.lostCounts + Count(counts && !b.saved),
                 lostRollbacks := w.tally.lostRollbacks + Count(b.check.RolledBack? && !b.saved),
                 failedRestores := w.tally.failedRestores + Count(!b.restored)))
  }

  function Checked(w: World, luck: InstallLuck, saved: bool, c: Channel): World {
    if w.running.None? || w.done then w
    else
      var v := w.running.value;
      var u := Update(w.disk, v, c.version, c.newerThan(v), luck, saved);
      w.(disk := u.disk,
         done := u.outcome.Installed?,
         tally := w.tally.(
           installs := w.tally.installs + Count(u.outcome.Installed?),
           lostSaves := w.tally.lostSaves + Count(u.outcome.Installed? && !saved),
           lostInstallRecords := w.tally.lostInstallRecords + Count(u.outcome.Installed? && !saved)))
  }

  /** The files after each file operation of an event, as far as it would go without being killed. */
  function TrailOf(w: World, e: Event, c: Channel): seq<Files> {
    match e
    case Start(luck, _) => StartTrail(w, luck)
    case KilledStart(luck, _) => StartTrail(w, luck)
    case Check(luck, _) => CheckTrail(w, luck, c)
    case KilledCheck(luck, _) => CheckTrail(w, luck, c)
    case _ => []
  }

  function StartTrail(w: World, luck: RestoreLuck): seq<Files> {
    if w.running.Some? || w.disk.files.target.None? then [] else BootTrail(w.disk, w.disk.files.target.value, luck)
  }

  function CheckTrail(w: World, luck: InstallLuck, c: Channel): seq<Files> {
    if w.running.None? || w.done then []
    else UpdateTrail(w.disk, c.version, c.newerThan(w.running.value), luck)
  }

  function Stopped(w: World): World {
    w.(running := None)
  }

  /** The process is killed after the first operations of a trail. */
  function Cut(w: World, trail: seq<Files>, ops: nat): World
    requires ops <= |trail|
  {
    Stopped(if ops == 0 then w else w.(disk := w.disk.(files := trail[ops - 1])))
  }

  function CutStart(w: World, luck: RestoreLuck, ops: nat, c: Channel): World
    requires ops < |StartTrail(w, luck)|
  {
    var tally := w.tally.(
      boots := w.tally.boots + Count(w.disk.files.target == Some(c.version)),
      failedRestores := w.tally.failedRestores + 1);
    Cut(w, StartTrail(w, luck), ops).(tally := tally)
  }

  /** A kill after the last file operation comes before the save. */
  function Step(w: World, e: Event, c: Channel): World {
    match e
    case Start(luck, saved) => Started(w, luck, saved, c)
    case Die => Stopped(w)
    case StaysUp(saved) =>
      if w.running.None? then w
      else w.(disk := ClearPending(w.disk, w.running.value, saved))
    case Check(luck, saved) => Checked(w, luck, saved, c)
    case KilledStart(luck, ops) =>
      if ops < |StartTrail(w, luck)| then CutStart(w, luck, ops, c) else Stopped(Started(w, luck, false, c))
    case KilledCheck(luck, ops) =>
      if ops < |CheckTrail(w, luck, c)| then Cut(w, CheckTrail(w, luck, c), ops) else Stopped(Checked(w, luck, false, c))
  }

  /** The channel's version does not stay up; the first check comes later than that, so it makes none either. */
  ghost predicate Unhealthy(w: World, e: Event, c: Channel) {
    w.running == Some(c.version) ==> !e.StaysUp? && !e.Check? && !e.KilledCheck?
  }

  function Run(w: World, events: seq<Event>, c: Channel): World {
    if events == [] then w else Step(Run(w, events[..|events| - 1], c), events[|events| - 1], c)
  }

  ghost predicate NeverHealthy(w: World, events: seq<Event>, c: Channel) {
    forall i :: 0 <= i < |events| ==> Unhealthy(Run(w, events[..i], c), events[i], c)
  }

  /** A settled machine: `previous` is installed, no boots are being counted, nothing runs or `previous` does. */
  ghost predicate Settled(w: World, previous: Version) {
    && w.disk.files.target == Some(previous)
    && w.disk.record.pending.None?
    && (w.running.None? || w.running == Some(previous))
    && !w.done
    && w.tally == NOTHING
  }

  ghost predicate SafeFiles(f: Files, previous: Version, c: Channel) {
    f.target == Some(previous) || (f.backup == Some(previous) && (f.target.None? || f.target == Some(c.version)))
  }

  /** What every step keeps, whatever fails. */
  ghost predicate Safe(w: World, previous: Version, c: Channel) {
    var f := w.disk.files;
    && previous != c.version
    && SafeFiles(f, previous, c)
    && (w.disk.record.pending.Some? ==>
          var p := w.disk.record.pending.value;
          p.fromVersion == previous && p.toVersion == c.version && p.bootAttempts <= MAX_BOOT_ATTEMPTS)
    && (w.running.Some? ==> w.running.value == previous || w.running.value == c.version)
    && (w.running == Some(previous) ==> if w.done then f.target == Some(c.version) else f.target != Some(c.version))
    && (w.running == Some(c.version) ==> f.target != Some(previous))
  }

  lemma StartTrailIsSafe(w: World, luck: RestoreLuck, previous: Version, c: Channel)
    requires Safe(w, previous, c)
    ensures forall g :: g in StartTrail(w, luck) ==> SafeFiles(g, previous, c)
    ensures |StartTrail(w, luck)| > 0 ==> w.disk.files.target == Some(c.version)
  {
  }

  /** The channel's version reaches the target with the last operation only. */
  lemma InstallTrailIsSafe(f: Files, luck: InstallLuck, previous: Version, c: Channel)
    requires SafeFiles(f, previous, c) && f.target != Some(c.version) && previous != c.version
    ensures var trail := Install(f, c.version, luck).trail;
            && (forall g :: g in trail ==> SafeFiles(g, previous, c))
            && (forall i :: 0 <= i < |trail| - 1 ==> trail[i].target != Some(c.version))
  {
  }

  lemma CheckTrailIsSafe(w: World, luck: InstallLuck, previous: Version, c: Channel)
    requires Safe(w, previous, c) && w.running != Some(c.version)
    ensures var trail := CheckTrail(w, luck, c);
            && (forall g :: g in trail ==> SafeFiles(g, previous, c))
            && (forall i :: 0 <= i < |trail| - 1 ==> trail[i].target != Some(c.version))
            && (|trail| > 0 ==> w.disk.files.target != Some(c.version))
  {
    hide Install;
    if CheckTrail(w, luck, c) != [] {
      InstallTrailIsSafe(w.disk.files, luck, previous, c);
    }
  }

  lemma StartedIsSafe(w: World, luck: RestoreLuck, saved: bool, previous: Version, c: Channel)
    requires Safe(w, previous, c)
    ensures Safe(Started(w, luck, saved, c), previous, c)
  {
  }

  lemma CheckedIsSafe(w: World, luck: InstallLuck, saved: bool, previous: Version, c: Channel)
    requires Safe(w, previous, c) && w.running != Some(c.version)
    ensures Safe(Checked(w, luck, saved, c), previous, c)
  {
  }

  lemma StepIsSafe(w: World, e: Event, previous: Version, c: Channel)
    requires Safe(w, previous, c) && Unhealthy(w, e, c)
    ensures Safe(Step(w, e, c), previous, c)
  {
    hide Started, Checked, StartTrail, CheckTrail, SafeFiles;
    match e {
      case Start(luck, saved) => StartedIsSafe(w, luck, saved, previous, c);
      case KilledStart(luck, ops) =>
        StartedIsSafe(w, luck, false, previous, c);
        StartTrailIsSafe(w, luck, previous, c);
      case Check(luck, saved) =>
        if w.running.Some? { CheckedIsSafe(w, luck, saved, previous, c); } else { CheckNeedsProcess(w, luck, saved, c); }
      case KilledCheck(luck, ops) =>
        if w.running.Some? {
          CheckedIsSafe(w, luck, false, previous, c);
          CheckTrailIsSafe(w, luck, previous, c);
        } else {
          CheckNeedsProcess(w, luck, false, c);
        }
      case _ =>
    }
  }

  lemma CheckNeedsProcess(w: World, luck: InstallLuck, saved: bool, c: Channel)
    requires w.running.None?
    ensures Checked(w, luck, saved, c) == w && CheckTrail(w, luck, c) == []
  {
  }

  /** Through every file operation of an event. */
  lemma TrailKeepsPrevious(w: World, e: Event, previous: Version, c: Channel)
    requires Safe(w, previous, c) && Unhealthy(w, e, c)
    ensures forall g :: g in TrailOf(w, e, c) ==> Kept(g, previous)
  {
    hide StartTrail, CheckTrail;
    match e {
      case Start(luck, _) => StartTrailIsSafe(w, luck, previous, c);
      case KilledStart(luck, _) => StartTrailIsSafe(w, luck, previous, c);
      case Check(luck, saved) =>
        if w.running.Some? { CheckTrailIsSafe(w, luck, previous, c); } else { CheckNeedsProcess(w, luck, saved, c); }
      case KilledCheck(luck, _) =>
        if w.running.Some? { CheckTrailIsSafe(w, luck, previous, c); } else { CheckNeedsProcess(w, luck, true, c); }
      case _ =>
    }
  }

  /** Another install can happen without a restore or a lost save first. */
  ghost predicate MayInstall(w: World, c: Channel) {
    && w.disk.record.skipVersion != Some(c.version)
    && (if w.running.Some? then w.running.value != c.version && !w.done
        else w.disk.files.target.Some? && w.disk.files.target != Some(c.version))
  }

  ghost predicate InstallsBounded(w: World, c: Channel) {
    w.tally.installs + Count(MayInstall(w, c)) <= 1 + w.tally.lostRollbacks
  }

  lemma StepBoundsInstalls(w: World, e: Event, previous: Version, c: Channel)
    requires Safe(w, previous, c) && Unhealthy(w, e, c) && InstallsBounded(w, c)
    ensures InstallsBounded(Step(w, e, c), c)
  {
  }

  /**
   * While the channel's version is installed, its boots so far are those counted in the record, those whose
   * count was lost, and those of unfinished restores.
   */
  ghost predicate BootsBounded(w: World, c: Channel) {
    var t, more := w.tally, w.tally.lostCounts + w.tally.failedRestores;
    if w.disk.files.target == Some(c.version) then
      && w.disk.record.pending.Some?
      && t.installs > 0
      && t.boots <= (MAX_BOOT_ATTEMPTS + 1) * (t.installs - 1) + w.disk.record.pending.value.bootAttempts + more
    else t.boots <= (MAX_BOOT_ATTEMPTS + 1) * t.installs + more
  }

  lemma StartedBoundsBoots(w: World, luck: RestoreLuck, saved: bool, previous: Version, c: Channel)
    requires Safe(w, previous, c) && BootsBounded(w, c)
    ensures BootsBounded(Started(w, luck, saved, c), c)
  {
  }

  lemma CutStartBoundsBoots(w: World, luck: RestoreLuck, ops: nat, previous: Version, c: Channel)
    requires Safe(w, previous, c) && BootsBounded(w, c) && ops < |StartTrail(w, luck)|
    ensures BootsBounded(CutStart(w, luck, ops, c), c)
  {
    hide StartTrail;
    StartTrailIsSafe(w, luck, previous, c);
  }

  lemma CheckedBoundsBoots(w: World, luck: InstallLuck, saved: bool, previous: Version, c: Channel)
    requires Safe(w, previous, c) && w.running != Some(c.version) && BootsBounded(w, c)
    requires Checked(w, luck, saved, c).tally.lostInstallRecords == 0
    ensures BootsBounded(Checked(w, luck, saved, c), c)
  {
    hide Install;
    if w.running.Some? && !w.done {
      InstallTrailIsSafe(w.disk.files, luck, previous, c);
      InstallReaches(w.disk.files, luck, previous, c);
    }
  }

  lemma InstallReaches(f: Files, luck: InstallLuck, previous: Version, c: Channel)
    requires SafeFiles(f, previous, c) && f.target != Some(c.version) && previous != c.version
    ensures var m := Install(f, c.version, luck); m.ok <==> m.files.target == Some(c.version)
  {
    InstallKeepsPrevious(f, c.version, luck, previous);
  }

  lemma PendingStays(w: World, e: Event, previous: Version, c: Channel)
    requires Safe(w, previous, c) && Unhealthy(w, e, c) && e.StaysUp?
    ensures Step(w, e, c) == w
  {
  }

  lemma StepBoundsBoots(w: World, e: Event, previous: Version, c: Channel)
    requires Safe(w, previous, c) && Unhealthy(w, e, c) && BootsBounded(w, c)
    requires Step(w, e, c).tally.lostInstallRecords == 0
    ensures BootsBounded(Step(w, e, c), c)
  {
    hide Started, Checked, StartTrail, CheckTrail, Safe;
    match e {
      case Start(luck, saved) => StartedBoundsBoots(w, luck, saved, previous, c);
      case KilledStart(luck, ops) =>
        if ops < |StartTrail(w, luck)| {
          CutStartBoundsBoots(w, luck, ops, previous, c);
        } else {
          StartedBoundsBoots(w, luck, false, previous, c);
        }
      case Check(luck, saved) =>
        if w.running.Some? {
          CheckedBoundsBoots(w, luck, saved, previous, c);
        } else {
          CheckNeedsProcess(w, luck, saved, c);
        }
      case KilledCheck(luck, ops) =>
        if w.running.None? {
          CheckNeedsProcess(w, luck, false, c);
        } else if ops < |CheckTrail(w, luck, c)| {
          CheckTrailIsSafe(w, luck, previous, c);
        } else {
          CheckedBoundsBoots(w, luck, false, previous, c);
        }
      case StaysUp(_) => PendingStays(w, e, previous, c);
      case Die =>
    }
  }

  lemma FrontIsUnhealthy(w: World, events: seq<Event>, c: Channel)
    requires NeverHealthy(w, events, c) && events != []
    ensures NeverHealthy(w, events[..|events| - 1], c)
    ensures Unhealthy(Run(w, events[..|events| - 1], c), events[|events| - 1], c)
  {
    hide Unhealthy;
    var front := events[..|events| - 1];
    forall i | 0 <= i < |front| ensures Unhealthy(Run(w, front[..i], c), front[i], c) {
      assert front[..i] == events[..i];
    }
  }

  lemma {:induction false} RunIsSafe(w: World, events: seq<Event>, previous: Version, c: Channel)
    requires Settled(w, previous) && previous != c.version && NeverHealthy(w, events, c)
    ensures Safe(Run(w, events, c), previous, c)
    ensures InstallsBounded(Run(w, events, c), c)
    ensures Run(w, events, c).tally.lostInstallRecords == 0 ==> BootsBounded(Run(w, events, c), c)
  {
    if events != [] {
      var front := events[..|events| - 1];
      FrontIsUnhealthy(w, events, c);
      RunIsSafe(w, front, previous, c);
      var before, e := Run(w, front, c), events[|events| - 1];
      hide Step, Safe, InstallsBounded, BootsBounded, Settled, NeverHealthy;
      StepIsSafe(before, e, previous, c);
      StepBoundsInstalls(before, e, previous, c);
      LossesStay(before, e, c);
      if Step(before, e, c).tally.lostInstallRecords == 0 {
        StepBoundsBoots(before, e, previous, c);
      }
    }
  }

  lemma LossesStay(w: World, e: Event, c: Channel)
    ensures w.tally.lostInstallRecords <= Step(w, e, c).tally.lostInstallRecords
    ensures var t, t' := w.tally, Step(w, e, c).tally;
            t'.lostSaves - t.lostSaves >= t'.lostRollbacks - t.lostRollbacks + (t'.lostCounts - t.lostCounts)
  {
  }

  lemma {:induction false} LossesAreLostSaves(w: World, events: seq<Event>, previous: Version, c: Channel)
    requires Settled(w, previous)
    ensures var t := Run(w, events, c).tally; t.lostRollbacks + t.lostCounts <= t.lostSaves
  {
    hide Step;
    if events != [] {
      LossesAreLostSaves(w, events[..|events| - 1], previous, c);
      LossesStay(Run(w, events[..|events| - 1], c), events[|events| - 1], c);
    }
  }

  /** Every file operation of event number `i` leaves the previous binary at the target or the backup. */
  lemma RunKeepsPrevious(w: World, events: seq<Event>, previous: Version, c: Channel, i: nat)
    requires Settled(w, previous) && previous != c.version && NeverHealthy(w, events, c) && i < |events|
    ensures forall g :: g in TrailOf(Run(w, events[..i], c), events[i], c) ==> Kept(g, previous)
  {
    hide Run, Settled, Safe, TrailOf, Unhealthy;
    forall k | 0 <= k < i ensures Unhealthy(Run(w, events[..i][..k], c), events[..i][k], c) {
      assert events[..i][..k] == events[..k];
    }
    RunIsSafe(w, events[..i], previous, c);
    TrailKeepsPrevious(Run(w, events[..i], c), events[i], previous, c);
  }

  /**
   * Any run in which the channel's version never becomes healthy, from any settled machine, whatever else fails
   * and wherever processes are killed: after every file operation the previous binary is at the target or the
   * backup; there is at most one install more than rollbacks went unrecorded; and, unless an install itself
   * went unrecorded, the boots of the new version are at most `MAX_BOOT_ATTEMPTS + 1` per install, and one
   * more per boot whose count was lost and per unfinished restore.
   */
  lemma UpdateRunIsBounded(w: World, events: seq<Event>, previous: Version, c: Channel)
    requires Settled(w, previous) && previous != c.version && NeverHealthy(w, events, c)
    ensures forall i, g :: 0 <= i < |events| && g in TrailOf(Run(w, events[..i], c), events[i], c) ==> Kept(g, previous)
    ensures Kept(Run(w, events, c).disk.files, previous)
    ensures var t := Run(w, events, c).tally;
            && t.installs <= 1 + t.lostRollbacks && t.lostRollbacks + t.lostCounts <= t.lostSaves
            && (t.lostInstallRecords == 0 ==>
                  t.boots <= (MAX_BOOT_ATTEMPTS + 1) * t.installs + t.lostCounts + t.failedRestores)
  {
    hide Run, Settled, NeverHealthy, TrailOf;
    RunIsSafe(w, events, previous, c);
    LossesAreLostSaves(w, events, previous, c);
    forall i, g | 0 <= i < |events| && g in TrailOf(Run(w, events[..i], c), events[i], c) ensures Kept(g, previous) {
      RunKeepsPrevious(w, events, previous, c, i);
    }
  }

  /** The three phases of a run in which every save and restore succeeds: before the install, trying it, and after. */
  ghost predicate Phased(w: World, previous: Version, c: Channel) {
    var t := w.tally;
    || (t.installs == t.boots == 0 && w.disk.files.target != Some(c.version) && w.disk.record.pending.None?)
    || (t.installs == 1 && w.disk.files.target == Some(c.version) && w.disk.record.pending.Some?
        && t.boots == w.disk.record.pending.value.bootAttempts <= MAX_BOOT_ATTEMPTS)
    || (t.installs == 1 && t.boots == MAX_BOOT_ATTEMPTS + 1 && RolledOver(w.disk, previous, c) && w.running != Some(c.version))
  }

  ghost predicate Faultless(w: World) {
    w.tally.lostSaves == w.tally.failedRestores == 0
  }

  lemma StartedIsPhased(w: World, luck: RestoreLuck, saved: bool, previous: Version, c: Channel)
    requires Safe(w, previous, c) && (Faultless(w) ==> Phased(w, previous, c)) && Faultless(Started(w, luck, saved, c))
    ensures Phased(Started(w, luck, saved, c), previous, c)
  {
  }

  lemma CheckedIsPhased(w: World, luck: InstallLuck, saved: bool, previous: Version, c: Channel)
    requires Safe(w, previous, c) && w.running != Some(c.version)
    requires (Faultless(w) ==> Phased(w, previous, c)) && Faultless(Checked(w, luck, saved, c))
    ensures Phased(Checked(w, luck, saved, c), previous, c)
  {
    hide Install;
    if w.running.Some? && !w.done {
      InstallReaches(w.disk.files, luck, previous, c);
    }
  }

  lemma CutCheckIsPhased(w: World, luck: InstallLuck, ops: nat, previous: Version, c: Channel)
    requires Safe(w, previous, c) && w.running != Some(c.version) && Phased(w, previous, c)
    requires ops < |CheckTrail(w, luck, c)|
    ensures Phased(Cut(w, CheckTrail(w, luck, c), ops), previous, c)
  {
    hide Install;
    CheckTrailIsSafe(w, luck, previous, c);
  }

  lemma StepIsPhased(w: World, e: Event, previous: Version, c: Channel)
    requires Safe(w, previous, c) && Unhealthy(w, e, c)
    requires Faultless(w) ==> Phased(w, previous, c)
    requires Faultless(Step(w, e, c))
    ensures Phased(Step(w, e, c), previous, c)
  {
    hide Started, Checked, StartTrail, CheckTrail, Safe;
    match e {
      case Start(luck, saved) => StartedIsPhased(w, luck, saved, previous, c);
      case KilledStart(luck, ops) =>
        if ops >= |StartTrail(w, luck)| {
          StartedIsPhased(w, luck, false, previous, c);
        }
      case Check(luck, saved) =>
        if w.running.Some? {
          CheckedIsPhased(w, luck, saved, previous, c);
        } else {
          CheckNeedsProcess(w, luck, saved, c);
        }
      case KilledCheck(luck, ops) =>
        if w.running.None? {
          CheckNeedsProcess(w, luck, false, c);
        } else if ops < |CheckTrail(w, luck, c)| {
          CutCheckIsPhased(w, luck, ops, previous, c);
        } else {
          CheckedIsPhased(w, luck, false, previous, c);
        }
      case StaysUp(_) =>
        if w.running.Some? {
          PendingStays(w, e, previous, c);
        }
      case Die =>
    }
  }

  /**
   * With no save lost and no restore unfinished: one install at most, each boot of it counted, and the boot after
   * `MAX_BOOT_ATTEMPTS` brings the previous version back, with the failed one on record.
   */
  lemma {:induction false} FaultlessRunIsPhased(w: World, events: seq<Event>, previous: Version, c: Channel)
    requires Settled(w, previous) && previous != c.version && NeverHealthy(w, events, c)
    ensures Faultless(Run(w, events, c)) ==> Phased(Run(w, events, c), previous, c)
  {
    if events != [] {
      var front := events[..|events| - 1];
      FrontIsUnhealthy(w, events, c);
      FaultlessRunIsPhased(w, front, previous, c);
      RunIsSafe(w, front, previous, c);
      var before, e := Run(w, front, c), events[|events| - 1];
      hide Step, Safe, Phased, Settled, NeverHealthy;
      if Faultless(Step(before, e, c)) {
        StepIsPhased(before, e, previous, c);
      }
    }
  }

  /** A rollback reports the version that failed and the one that is now at the target. */
  lemma RollbackNamesTarget(w: World, luck: RestoreLuck, saved: bool, previous: Version, c: Channel)
    requires Safe(w, previous, c) && w.disk.files.target.Some?
    ensures var b := Boot(w.disk, w.disk.files.target.value, luck, saved);
            b.check.RolledBack? ==>
              && b.check.failed == c.version
              && b.disk.files.target == Some(b.check.restored)
              && b.check.restored == previous
              && (saved ==> RolledOver(b.disk, previous, c))
  {
  }

  /** The rollback is on record. */
  ghost predicate RolledOver(d: Disk, previous: Version, c: Channel) {
    && d.files.target == Some(previous)
    && d.record == UpdateState(None, Some(c.version))
  }

  ghost predicate RunsOnly(w: World, v: Version) {
    w.running.Some? ==> w.running.value == v
  }

  lemma RestoredStep(w: World, e: Event, previous: Version, c: Channel)
    requires RolledOver(w.disk, previous, c) && previous != c.version && RunsOnly(w, previous)
    ensures var w' := Step(w, e, c);
            && w'.disk == w.disk && w'.tally.installs == w.tally.installs && w'.tally.boots == w.tally.boots
            && RunsOnly(w', previous)
  {
    hide Install, RestoreFiles;
  }

  /** Once a rollback is on record, the restored version stays: the disk never changes again, whatever happens. */
  lemma {:induction false} RestoredStays(w: World, events: seq<Event>, previous: Version, c: Channel)
    requires RolledOver(w.disk, previous, c) && previous != c.version && RunsOnly(w, previous)
    ensures var r := Run(w, events, c);
            && r.disk == w.disk && r.tally.installs == w.tally.installs && r.tally.boots == w.tally.boots
            && RunsOnly(r, previous)
  {
    hide Step, RolledOver, RunsOnly;
    if events != [] {
      RestoredStays(w, events[..|events| - 1], previous, c);
      RestoredStep(Run(w, events[..|events| - 1], c), events[|events| - 1], previous, c);
    }
  }

  /** The channel's version is installed, nothing is pending, and it is not newer than itself. */
  ghost predicate Healthy(w: World, c: Channel) {
    && w.disk.files.target == Some(c.version) && w.disk.record.pending.None? && !c.newerThan(c.version)
    && RunsOnly(w, c.version)
  }

  lemma HealthyStep(w: World, e: Event, c: Channel)
    requires Healthy(w, c)
    ensures var w' := Step(w, e, c);
            Healthy(w', c) && w'.disk == w.disk && w'.tally.installs == w.tally.installs
  {
    hide Install, RestoreFiles;
  }

  /** A version that stayed up once, with its record cleared, is never rolled back and never replaced by itself. */
  lemma {:induction false} HealthyStays(w: World, events: seq<Event>, c: Channel)
    requires Healthy(w, c)
    ensures var r := Run(w, events, c);
            r.disk == w.disk && r.tally.installs == w.tally.installs && RunsOnly(r, c.version) && Healthy(r, c)
  {
    hide Step;
    if events != [] {
      HealthyStays(w, events[..|events| - 1], c);
      HealthyStep(Run(w, events[..|events| - 1], c), events[|events| - 1], c);
    }
  }

  // ---------------------------------------------------------------- runs that reach the bounds

  const SWAPS: SwapLuck := SwapLuck(true, true, true, true, true)
  const INSTALLS: InstallLuck := InstallLuck(true, true, None, true, SWAPS)
  const RESTORES: RestoreLuck := RestoreLuck(true, true, true, true)

  const START: Event := Start(RESTORES, true)
  const UNSAVED_START: Event := Start(RESTORES, false)
  const STUCK_START: Event := Start(RESTORES.(aside := false), true)
  const CHECK: Event := Check(INSTALLS, true)

  /** `events` lead from `w` to `r`, and the channel's version never becomes healthy. */
  ghost predicate Leads(w: World, events: seq<Event>, r: World, c: Channel) {
    Run(w, events, c) == r && NeverHealthy(w, events, c)
  }

  lemma {:induction false} RunOn(w: World, a: seq<Event>, b: seq<Event>, c: Channel)
    ensures Run(w, a + b, c) == Run(Run(w, a, c), b, c)
    decreases |b|
  {
    hide Step;
    if b == [] {
      assert a + b == a;
    } else {
      RunOn(w, a, b[..|b| - 1], c);
      assert (a + b)[..|a + b| - 1] == a + b[..|b| - 1] && (a + b)[|a + b| - 1] == b[|b| - 1];
    }
  }

  lemma LeadsOn(w: World, a: seq<Event>, m: World, b: seq<Event>, r: World, c: Channel)
    requires Leads(w, a, m, c) && Leads(m, b, r, c)
    ensures Leads(w, a + b, r, c)
  {
    hide Run, Unhealthy;
    RunOn(w, a, b, c);
    forall i | 0 <= i < |a + b| ensures Unhealthy(Run(w, (a + b)[..i], c), (a + b)[i], c) {
      if i < |a| {
        assert (a + b)[..i] == a[..i] && (a + b)[i] == a[i];
      } else {
        assert (a + b)[..i] == a + b[..i - |a|] && (a + b)[i] == b[i - |a|];
        RunOn(w, a, b[..i - |a|], c);
      }
    }
  }

  lemma LeadsMeans(w: World, events: seq<Event>, r: World, c: Channel)
    requires Leads(w, events, r, c)
    ensures Run(w, events, c) == r && NeverHealthy(w, events, c)
  {
  }

  lemma LeadsOne(w: World, e: Event, c: Channel)
    requires Unhealthy(w, e, c)
    ensures Leads(w, [e], Step(w, e, c), c)
  {
    hide Step, Unhealthy;
    assert [e][..0] == [];
    assert Run(w, [], c) == w;
    assert Run(w, [e], c) == Step(w, e, c);
  }

  lemma LeadsTwo(w: World, e: Event, f: Event, c: Channel)
    requires Unhealthy(w, e, c) && Unhealthy(Step(w, e, c), f, c)
    ensures Leads(w, [e, f], Step(Step(w, e, c), f, c), c)
  {
    hide Step, Unhealthy, Leads;
    LeadsOne(w, e, c);
    LeadsOne(Step(w, e, c), f, c);
    LeadsOn(w, [e], Step(w, e, c), [f], Step(Step(w, e, c), f, c), c);
    assert [e] + [f] == [e, f];
  }

  /** The channel's version is installed over `previous`, nothing runs, and `k` boots have been counted. */
  ghost predicate Trying(w: World, previous: Version, c: Channel, k: nat) {
    && previous != c.version && c.newerThan(previous)
    && w.disk.files.target == Some(c.version) && w.disk.files.backup == Some(previous) && w.disk.files.staged.None?
    && w.disk.record == UpdateState(Some(PendingBoot(previous, c.version, k)), None)
    && w.running.None?
  }

  function Fresh(previous: Version): World {
    World(Disk(Files(Some(previous), None, None, None), UpdateState(None, None)), None, false, NOTHING)
  }

  lemma Installs(w: World, previous: Version, c: Channel) returns (events: seq<Event>, r: World)
    requires previous != c.version && c.newerThan(previous)
    requires w.running.None? && w.disk.files.target == Some(previous) && w.disk.record.skipVersion.None?
    requires w.disk.record.pending.Some? ==> w.disk.record.pending.value.toVersion == c.version
    ensures Leads(w, events, r, c) && Trying(r, previous, c, 0)
    ensures r.tally == w.tally.(installs := w.tally.installs + 1)
  {
    hide Leads, Run, NeverHealthy;
    var up := Step(w, START, c);
    var done := Step(up, CHECK, c);
    assert up.running == Some(previous) && up.disk.record == UpdateState(None, None) && up.disk.files == w.disk.files;
    LeadsTwo(w, START, CHECK, c);
    LeadsOne(done, Die, c);
    r := Step(done, Die, c);
    LeadsOn(w, [START, CHECK], done, [Die], r, c);
    events := [START, CHECK] + [Die];
  }

  /** A start and an end of the process, `lost` if the save of the count failed. */
  lemma CountsOnce(w: World, previous: Version, c: Channel, k: nat, lost: bool) returns (events: seq<Event>, r: World)
    requires Trying(w, previous, c, k) && k < MAX_BOOT_ATTEMPTS
    ensures Leads(w, events, r, c) && Trying(r, previous, c, if lost then k else k + 1)
    ensures r.tally == w.tally.(boots := w.tally.boots + 1, lostSaves := w.tally.lostSaves + Count(lost),
                                lostCounts := w.tally.lostCounts + Count(lost))
  {
    hide Leads, Run, NeverHealthy;
    var start := if lost then UNSAVED_START else START;
    LeadsTwo(w, start, Die, c);
    events, r := [start, Die], Step(Step(w, start, c), Die, c);
  }

  lemma {:induction false} LosesCounts(w: World, previous: Version, c: Channel, n: nat) returns (events: seq<Event>, r: World)
    requires Trying(w, previous, c, 0)
    ensures Leads(w, events, r, c) && Trying(r, previous, c, 0)
    ensures r.tally == w.tally.(boots := w.tally.boots + n, lostSaves := w.tally.lostSaves + n,
                                lostCounts := w.tally.lostCounts + n)
  {
    if n == 0 {
      events, r := [], w;
    } else {
      hide Leads, Run, NeverHealthy, Trying;
      var es, m := LosesCounts(w, previous, c, n - 1);
      var fs;
      fs, r := CountsOnce(m, previous, c, 0, true);
      LeadsOn(w, es, m, fs, r, c);
      events := es + fs;
    }
  }

  lemma {:induction false} CountsAll(w: World, previous: Version, c: Channel, k: nat) returns (events: seq<Event>, r: World)
    requires Trying(w, previous, c, 0) && k <= MAX_BOOT_ATTEMPTS
    ensures Leads(w, events, r, c) && Trying(r, previous, c, k)
    ensures r.tally == w.tally.(boots := w.tally.boots + k)
  {
    if k == 0 {
      events, r := [], w;
    } else {
      hide Leads, Run, NeverHealthy, Trying;
      var es, m := CountsAll(w, previous, c, k - 1);
      var fs;
      fs, r := CountsOnce(m, previous, c, k - 1, false);
      LeadsOn(w, es, m, fs, r, c);
      events := es + fs;
    }
  }

  /** Every boot is counted, the rollback's save is lost, and the version is installed once more. */
  lemma Reinstalls(w: World, previous: Version, c: Channel) returns (events: seq<Event>, r: World)
    requires Trying(w, previous, c, 0)
    ensures Leads(w, events, r, c) && Trying(r, previous, c, 0)
    ensures r.tally == w.tally.(
              installs := w.tally.installs + 1, boots := w.tally.boots + MAX_BOOT_ATTEMPTS + 1,
              lostSaves := w.tally.lostSaves + 1, lostRollbacks := w.tally.lostRollbacks + 1)
  {
    hide Leads, Run, NeverHealthy;
    var es, tried := CountsAll(w, previous, c, MAX_BOOT_ATTEMPTS);
    var lost := Step(tried, UNSAVED_START, c);
    LeadsOne(tried, UNSAVED_START, c);
    var fs;
    fs, r := Installs(lost, previous, c);
    LeadsOn(tried, [UNSAVED_START], lost, fs, r, c);
    LeadsOn(w, es, tried, [UNSAVED_START] + fs, r, c);
    events := es + ([UNSAVED_START] + fs);
  }

  lemma {:induction false} ReinstallsOften(w: World, previous: Version, c: Channel, n: nat) returns (events: seq<Event>, r: World)
    requires Trying(w, previous, c, 0)
    ensures Leads(w, events, r, c) && Trying(r, previous, c, 0)
    ensures r.tally == w.tally.(
              installs := w.tally.installs + n, boots := w.tally.boots + (MAX_BOOT_ATTEMPTS + 1) * n,
              lostSaves := w.tally.lostSaves + n, lostRollbacks := w.tally.lostRollbacks + n)
  {
    if n == 0 {
      events, r := [], w;
    } else {
      hide Leads, Run, NeverHealthy, Trying;
      var es, m := ReinstallsOften(w, previous, c, n - 1);
      var fs;
      fs, r := Reinstalls(m, previous, c);
      LeadsOn(w, es, m, fs, r, c);
      events := es + fs;
    }
  }

  /** A restore that fails is tried again at the next start. */
  lemma {:induction false} RestoresFail(w: World, previous: Version, c: Channel, n: nat) returns (events: seq<Event>, r: World)
    requires Trying(w, previous, c, MAX_BOOT_ATTEMPTS)
    ensures Leads(w, events, r, c) && Trying(r, previous, c, MAX_BOOT_ATTEMPTS)
    ensures r.tally == w.tally.(boots := w.tally.boots + n, failedRestores := w.tally.failedRestores + n)
  {
    if n == 0 {
      events, r := [], w;
    } else {
      hide Leads, Run, NeverHealthy;
      var es, m := RestoresFail(w, previous, c, n - 1);
      LeadsTwo(m, STUCK_START, Die, c);
      r := Step(Step(m, STUCK_START, c), Die, c);
      LeadsOn(w, es, m, [STUCK_START, Die], r, c);
      events := es + [STUCK_START, Die];
    }
  }

  /**
   * Both bounds are reached together, for any number of lost rollbacks, lost counts and failed restores: one
   * more install than lost rollbacks, and for each install every boot the bound allows.
   */
  lemma BoundsAreReached(previous: Version, c: Channel, rollbacks: nat, counts: nat, restores: nat)
      returns (w: World, events: seq<Event>)
    requires previous != c.version && c.newerThan(previous)
    ensures Settled(w, previous) && NeverHealthy(w, events, c)
    ensures Run(w, events, c).tally == Tally(
              1 + rollbacks, (MAX_BOOT_ATTEMPTS + 1) * (1 + rollbacks) + counts + restores,
              rollbacks + counts, counts, 0, rollbacks, restores)
  {
    hide Leads, Run, NeverHealthy;
    w := Fresh(previous);
    var e1, w1 := Installs(w, previous, c);
    var e2, w2 := LosesCounts(w1, previous, c, counts);
    var e3, w3 := ReinstallsOften(w2, previous, c, rollbacks);
    var e4, w4 := CountsAll(w3, previous, c, MAX_BOOT_ATTEMPTS);
    var e5, w5 := RestoresFail(w4, previous, c, restores);
    var r := Step(w5, START, c);
    LeadsOne(w5, START, c);
    LeadsOn(w, e1, w1, e2, w2, c);
    LeadsOn(w, e1 + e2, w2, e3, w3, c);
    LeadsOn(w, e1 + e2 + e3, w3, e4, w4, c);
    LeadsOn(w, e1 + e2 + e3 + e4, w4, e5, w5, c);
    LeadsOn(w, e1 + e2 + e3 + e4 + e5, w5, [START], r, c);
    events := e1 + e2 + e3 + e4 + e5 + [START];
    LeadsMeans(w, events, r, c);
  }
}
