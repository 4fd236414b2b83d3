/**
 * The size-capped rotating log of the daemon (logging.rs). Files are numbered: 0 is the active file, n the
 * rotated file with suffix n. File operations succeed; a rename of a missing file changes nothing.
 */
module RotatingLog {
  import opened Text

  type Byte = x: int | 0 <= x < 0x100
  type Bytes = seq<Byte>
  type Files = map<nat, Bytes>

  const U64_MAX: nat := 0xFFFF_FFFF_FFFF_FFFF
  const MIN_CAP: nat := 4096

  datatype Settings = Settings(cap: nat, keep: nat)

  /** What `new` makes of the configured numbers. */
  ghost predicate Sane(s: Settings) {
    MIN_CAP <= s.cap <= U64_MAX && s.keep >= 1
  }

  function SaturatingAdd(a: nat, b: nat): nat {
    if a + b > U64_MAX then U64_MAX else a + b
  }

  /** A write of `more` bytes to a file of `len` bytes would cross the cap. */
  predicate Crosses(len: nat, more: nat, s: Settings) {
    SaturatingAdd(len, more) > s.cap
  }

  function Rename(files: Files, from: nat, to: nat): Files {
    if from in files then (files - {from})[to := files[from]] else files
  }

  /** The renames n to n + 1, and so on down to 1 to 2. */
  function ShiftUp(files: Files, n: nat): Files
    decreases n
  {
    if n == 0 then files else ShiftUp(Rename(files, n, n + 1), n - 1)
  }

  function Rotated(files: Files, keep: nat): Files
    requires keep >= 1
  {
    Rename(ShiftUp(files, keep - 1), 0, 1)
  }

  /** Opening creates the active file if it is missing. */
  function Opened(files: Files): (r: Files)
    ensures 0 in r
  {
    if 0 in files then files else files[0 := []]
  }

  /** The disk, and the length a live handle believes its file has. */
  datatype Log = Log(files: Files, tracked: Option<nat>)

  function Write(log: Log, buf: Bytes, s: Settings): Log
    requires s.keep >= 1
    requires log.tracked.Some? ==> 0 in log.files
  {
    var files := if log.tracked.Some? then log.files else Opened(log.files);
    var len := if log.tracked.Some? then log.tracked.value else |files[0]|;
    if Crosses(len, |buf|, s) then
      var renamed := Opened(Rotated(files, s.keep));
      Log(renamed[0 := renamed[0] + buf], Some(|renamed[0]| + |buf|))
    else
      Log(files[0 := files[0] + buf], Some(len + |buf|))
  }

  // ---------------------------------------------------------------- the object

  class Directory {
    var files: Files

    constructor ()
      ensures files == map[]
    {
      files := map[];
    }

    method RenameFile(from: nat, to: nat)
      modifies this
      ensures files == Rename(old(files), from, to)
    {
      if from in files {
        files := (files - {from})[to := files[from]];
      }
    }
  }

  class Writer {
    const dir: Directory
    const settings: Settings
    var tracked: Option<nat>

    ghost predicate Valid()
      reads this, dir
    {
      settings.keep >= 1 && (tracked.Some? ==> 0 in dir.files)
    }

    ghost function View(): Log
      reads this, dir
    {
      Log(dir.files, tracked)
    }

    /** `new`: floors on the settings, and no file opened yet. */
    constructor (dir: Directory, cap: nat, keep: nat)
      requires cap <= U64_MAX
      ensures Valid() && this.dir == dir && Sane(settings)
      ensures settings.cap == (if cap < MIN_CAP then MIN_CAP else cap) && settings.keep == (if keep < 1 then 1 else keep)
      ensures View() == Log(dir.files, None)
    {
      this.dir := dir;
      settings := Settings(if cap < MIN_CAP then MIN_CAP else cap, if keep < 1 then 1 else keep);
      tracked := None;
    }

    method Open()
      modifies this`tracked, dir
      ensures dir.files == Opened(old(dir.files)) && tracked == Some(|dir.files[0]|)
    {
      if 0 !in dir.files {
        dir.files := dir.files[0 := []];
      }
      tracked := Some(|dir.files[0]|);
    }

    method Rotate()
      requires settings.keep >= 1
      modifies dir
      ensures dir.files == Rotated(old(dir.files), settings.keep)
    {
      var n: nat := settings.keep - 1;
      while n > 0
        invariant ShiftUp(dir.files, n) == ShiftUp(old(dir.files), settings.keep - 1)
      {
        dir.RenameFile(n, n + 1);
        n := n - 1;
      }
      dir.RenameFile(0, 1);
    }

    /** `write_all_bytes`. */
    method WriteAllBytes(buf: Bytes)
      requires Valid()
      modifies this`tracked, dir
      ensures Valid() && View() == Write(old(View()), buf, settings)
    {
      if tracked.None? {
        Open();
      }
      if Crosses(tracked.value, |buf|, settings) {
        tracked := None;
        Rotate();
        Open();
      }
      dir.files := dir.files[0 := dir.files[0] + buf];
      tracked := Some(tracked.value + |buf|);
    }
  }

  // ---------------------------------------------------------------- runs

  /** A process writes, or ends and is started again over the same directory. */
  datatype Event = Put(buf: Bytes) | Restart

  ghost predicate Live(log: Log) {
    log.tracked.Some? ==> 0 in log.files
  }

  function Run(events: seq<Event>, s: Settings): (log: Log)
    requires s.keep >= 1
    ensures Live(log)
  {
    if events == [] then Log(map[], None)
    else
      var before := Run(events[..|events| - 1], s);
      match events[|events| - 1]
      case Put(buf) => Write(before, buf, s)
      case Restart => Log(before.files, None)
  }

  /** The stream that was written. */
  function Writes(events: seq<Event>): seq<Bytes> {
    if events == [] then []
    else
      var before := Writes(events[..|events| - 1]);
      match events[|events| - 1]
      case Put(buf) => before + [buf]
      case Restart => before
  }

  function Flat(writes: seq<Bytes>): Bytes {
    if writes == [] then [] else Flat(writes[..|writes| - 1]) + writes[|writes| - 1]
  }

  /**
   * The reference: cut the stream of writes into segments, starting a new one exactly when the next write would
   * take the current one over the cap. The first segment starts empty.
   */
  function Segments(writes: seq<Bytes>, s: Settings): (segments: seq<seq<Bytes>>)
    ensures writes != [] ==> segments != []
  {
    if writes == [] then []
    else
      var before := Segments(writes[..|writes| - 1], s);
      var w := writes[|writes| - 1];
      var open := if before == [] then [[]] else before;
      var last := open[|open| - 1];
      if Crosses(|Flat(last)|, |w|, s) then open + [[w]] else open[..|open| - 1] + [last + [w]]
  }

  function Min(a: nat, b: nat): nat {
    if a < b then a else b
  }

  /** The files on disk are the newest segments, newest first, and no more than `keep` of them are rotated. */
  ghost predicate Holds(files: Files, segments: seq<seq<Bytes>>, keep: nat) {
    && (forall k: nat :: k in files <==> k < Min(|segments|, keep + 1))
    && (forall k: nat :: k < Min(|segments|, keep + 1) ==> files[k] == Flat(segments[|segments| - 1 - k]))
  }

  /** Files 0 to m - 1 exist and no others. */
  ghost predicate Contiguous(files: Files, m: nat) {
    forall k: nat :: k in files <==> k < m
  }

  /** Part way through a rotation of `was`: everything above n + 1 has moved up, n and below has not. */
  ghost predicate Moving(files: Files, was: Files, m: nat, keep: nat, n: nat) {
    && (forall k: nat :: k != n + 1 ==> (k in files <==> (k <= n && k < m) || (n + 2 <= k <= keep && k - 1 < m)))
    && (forall k: nat :: k <= n && k < m ==> k in files && k in was && files[k] == was[k])
    && (forall k: nat :: n + 2 <= k <= keep && k - 1 < m ==> k in files && k - 1 in was && files[k] == was[k - 1])
    && (m <= n + 1 ==> n + 1 !in files)
  }

  lemma MovesOne(files: Files, was: Files, m: nat, keep: nat, n: nat)
    requires 1 <= n < keep && Contiguous(was, m) && Moving(files, was, m, keep, n)
    ensures Moving(Rename(files, n, n + 1), was, m, keep, n - 1)
  {
  }

  lemma {:induction false} Moves(files: Files, was: Files, m: nat, keep: nat, n: nat)
    requires n < keep && Contiguous(was, m) && Moving(files, was, m, keep, n)
    ensures Moving(ShiftUp(files, n), was, m, keep, 0)
    decreases n
  {
    if n > 0 {
      MovesOne(files, was, m, keep, n);
      Moves(Rename(files, n, n + 1), was, m, keep, n - 1);
    }
  }

  /** Rotation moves every file up by one and drops only a file numbered `keep`. */
  lemma RotationMoves(files: Files, m: nat, keep: nat)
    requires Contiguous(files, m) && 1 <= m <= keep + 1 && keep >= 1
    ensures var r := Rotated(files, keep);
            && (forall k: nat :: k in r <==> 1 <= k <= keep && k <= m)
            && (forall k: nat :: 1 <= k <= keep && k <= m ==> k - 1 in files && r[k] == files[k - 1])
  {
    Moves(files, files, m, keep, keep - 1);
    hide ShiftUp;
  }

  function Open(segments: seq<seq<Bytes>>): (r: seq<seq<Bytes>>)
    ensures r != []
  {
    if segments == [] then [[]] else segments
  }

  /** One more write in the reference. */
  function Extend(segments: seq<seq<Bytes>>, w: Bytes, s: Settings): seq<seq<Bytes>> {
    var open := Open(segments);
    var last := open[|open| - 1];
    if Crosses(|Flat(last)|, |w|, s) then open + [[w]] else open[..|open| - 1] + [last + [w]]
  }

  lemma FlatSnoc(writes: seq<Bytes>, w: Bytes)
    ensures Flat(writes + [w]) == Flat(writes) + w
  {
    assert (writes + [w])[..|writes|] == writes;
  }

  lemma HoldsOpened(files: Files, segments: seq<seq<Bytes>>, keep: nat)
    requires Holds(files, segments, keep)
    ensures Holds(Opened(files), Open(segments), keep)
  {
  }

  lemma HoldsRotated(files: Files, open: seq<seq<Bytes>>, keep: nat)
    requires open != [] && keep >= 1 && Holds(files, open, keep)
    ensures Holds(Opened(Rotated(files, keep)), open + [[]], keep)
    ensures Opened(Rotated(files, keep))[0] == []
  {
    hide Flat, Rotated;
    var m := Min(|open|, keep + 1);
    RotationMoves(files, m, keep);
    var r := Opened(Rotated(files, keep));
    var segments := open + [[]];
    forall k: nat | k < Min(|segments|, keep + 1) ensures k in r && r[k] == Flat(segments[|segments| - 1 - k]) {
      if k > 0 {
        assert r[k] == files[k - 1];
        assert segments[|segments| - 1 - k] == open[|open| - 1 - (k - 1)];
      } else {
        EmptyFlat();
      }
    }
  }

  lemma HoldsAppended(files: Files, open: seq<seq<Bytes>>, keep: nat, w: Bytes)
    requires open != [] && Holds(files, open, keep) && 0 in files
    ensures Holds(files[0 := files[0] + w], open[..|open| - 1] + [open[|open| - 1] + [w]], keep)
  {
    hide Flat;
    FlatSnoc(open[|open| - 1], w);
  }

  /** The handle's length is the length of the active file. */
  ghost predicate Tracks(log: Log) {
    log.tracked.Some? ==> 0 in log.files && log.tracked.value == |log.files[0]|
  }

  lemma WriteExtends(log: Log, segments: seq<seq<Bytes>>, w: Bytes, s: Settings)
    requires s.keep >= 1 && Tracks(log) && Holds(log.files, segments, s.keep)
    ensures Tracks(Write(log, w, s)) && Holds(Write(log, w, s).files, Extend(segments, w, s), s.keep)
  {
    hide Flat, Rotated;
    var open := Open(segments);
    HoldsOpened(log.files, segments, s.keep);
    var files := Opened(log.files);
    assert log.tracked.Some? ==> files == log.files;
    assert |files[0]| == |Flat(open[|open| - 1])|;
    if Crosses(|files[0]|, |w|, s) {
      HoldsRotated(files, open, s.keep);
      var next: seq<seq<Bytes>> := open + [[]];
      HoldsAppended(Opened(Rotated(files, s.keep)), next, s.keep, w);
      assert next[..|next| - 1] == open && next[|next| - 1] + [w] == [w];
    } else {
      HoldsAppended(files, open, s.keep, w);
    }
  }

  /**
   * After every run of writes and restarts from an empty directory, the disk is a function of the stream alone:
   * the files are the newest `keep + 1` segments of the reference, and the tracked length is the file's.
   */
  lemma {:induction false} RunHoldsSegments(events: seq<Event>, s: Settings)
    requires s.keep >= 1
    ensures Tracks(Run(events, s))
    ensures Holds(Run(events, s).files, Segments(Writes(events), s), s.keep)
  {
    hide Flat, Write, Segments, Holds;
    if events == [] {
      HoldsNothing(s);
    } else {
      var front := events[..|events| - 1];
      RunHoldsSegments(front, s);
      match events[|events| - 1]
      case Put(w) =>
        WriteExtends(Run(front, s), Segments(Writes(front), s), w, s);
        SegmentsSnoc(Writes(front), w, s);
      case Restart =>
    }
  }

  lemma HoldsNothing(s: Settings)
    ensures Holds(map[], Segments([], s), s.keep)
  {
  }

  lemma SegmentsSnoc(writes: seq<Bytes>, w: Bytes, s: Settings)
    ensures Segments(writes + [w], s) == Extend(Segments(writes, s), w, s)
  {
    assert (writes + [w])[..|writes|] == writes;
  }

  // ---------------------------------------------------------------- what the segments are

  function Concat(segments: seq<seq<Bytes>>): seq<Bytes> {
    if segments == [] then [] else Concat(segments[..|segments| - 1]) + segments[|segments| - 1]
  }

  lemma ConcatSnoc(segments: seq<seq<Bytes>>, last: seq<Bytes>)
    ensures Concat(segments + [last]) == Concat(segments) + last
  {
    assert (segments + [last])[..|segments|] == segments;
  }

  /** Every segment fits the cap, or is one write on its own; and none was closed before the next write needed it. */
  ghost predicate WellCut(segments: seq<seq<Bytes>>, s: Settings) {
    && (forall i :: 0 <= i < |segments| ==> !Crosses(|Flat(segments[i])|, 0, s) || |segments[i]| == 1)
    && (forall i :: 1 <= i < |segments| ==> segments[i] != [] && Crosses(|Flat(segments[i - 1])|, |segments[i][0]|, s))
  }

  lemma {:induction false} SegmentsAreWellCut(writes: seq<Bytes>, s: Settings)
    requires Sane(s)
    ensures WellCut(Segments(writes, s), s) && Concat(Segments(writes, s)) == writes
  {
    if writes != [] {
      var front, w := writes[..|writes| - 1], writes[|writes| - 1];
      SegmentsAreWellCut(front, s);
      assert front + [w] == writes;
      SegmentsSnoc(front, w, s);
      ExtendIsWellCut(Segments(front, s), w, s);
    }
  }

  lemma OpenIsWellCut(segments: seq<seq<Bytes>>, s: Settings)
    requires Sane(s) && WellCut(segments, s)
    ensures WellCut(Open(segments), s) && Concat(Open(segments)) == Concat(segments)
  {
    var none: seq<seq<Bytes>> := [];
    var empty: seq<Bytes> := [];
    ConcatSnoc(none, empty);
    assert none + [empty] == [empty];
  }

  lemma ExtendIsWellCut(segments: seq<seq<Bytes>>, w: Bytes, s: Settings)
    requires Sane(s) && WellCut(segments, s)
    ensures WellCut(Extend(segments, w, s), s) && Concat(Extend(segments, w, s)) == Concat(segments) + [w]
  {
    hide Flat, Concat, Crosses;
    OpenIsWellCut(segments, s);
    var open := Open(segments);
    var front, last := open[..|open| - 1], open[|open| - 1];
    ConcatSnoc(front, last);
    assert front + [last] == open;
    if Crosses(|Flat(last)|, |w|, s) {
      ConcatSnoc(open, [w]);
      assert Extend(segments, w, s) == open + [[w]];
    } else {
      ConcatSnoc(front, last + [w]);
      FlatSnoc(last, w);
      NotCrossed(|Flat(last)|, |w|, s);
      assert Concat(front) + (last + [w]) == Concat(front) + last + [w];
      assert Extend(segments, w, s) == front + [last + [w]];
      assert last != [] ==> (last + [w])[0] == last[0];
      AppendIsWellCut(front, last, w, s);
    }
  }

  lemma NotCrossed(len: nat, more: nat, s: Settings)
    requires !Crosses(len, more, s)
    ensures !Crosses(len + more, 0, s)
  {
  }

  lemma AppendIsWellCut(front: seq<seq<Bytes>>, last: seq<Bytes>, w: Bytes, s: Settings)
    requires WellCut(front + [last], s) && !Crosses(|Flat(last + [w])|, 0, s)
    ensures WellCut(front + [last + [w]], s)
  {
    hide Flat, Crosses;
    var was, now := front + [last], front + [last + [w]];
    forall i | 0 <= i < |now| ensures !Crosses(|Flat(now[i])|, 0, s) || |now[i]| == 1 {
      if i < |front| { assert now[i] == was[i]; }
    }
    forall i | 1 <= i < |now| ensures now[i] != [] && Crosses(|Flat(now[i - 1])|, |now[i][0]|, s) {
      assert now[i - 1] == was[i - 1];
      assert was[i] != [] && now[i][0] == was[i][0];
    }
  }

  // ---------------------------------------------------------------- what is on disk

  /** The files, oldest first. */
  function Oldest(files: Files, n: nat): Bytes
    requires forall k: nat :: k < n ==> k in files
    decreases n
  {
    if n == 0 then [] else files[n - 1] + Oldest(files, n - 1)
  }

  lemma {:induction false} FlatAppend(a: seq<Bytes>, b: seq<Bytes>)
    ensures Flat(a + b) == Flat(a) + Flat(b)
  {
    if b == [] {
      assert a + b == a;
    } else {
      var front := b[..|b| - 1];
      FlatAppend(a, front);
      assert (a + b)[..|a + b| - 1] == a + front;
    }
  }

  lemma {:induction false} ConcatAppend(a: seq<seq<Bytes>>, b: seq<seq<Bytes>>)
    ensures Concat(a + b) == Concat(a) + Concat(b)
  {
    if b == [] {
      assert a + b == a;
    } else {
      var front := b[..|b| - 1];
      ConcatAppend(a, front);
      assert (a + b)[..|a + b| - 1] == a + front;
    }
  }

  lemma {:induction false} OldestIsFlat(files: Files, segments: seq<seq<Bytes>>, keep: nat, n: nat)
    requires Holds(files, segments, keep) && n <= Min(|segments|, keep + 1)
    ensures Oldest(files, n) == Flat(Concat(segments[|segments| - n..]))
    decreases n
  {
    hide Flat, Concat;
    var tail := segments[|segments| - n..];
    var none: seq<seq<Bytes>> := [];
    if n == 0 {
      EmptyFlat();
      assert tail == none;
    } else {
      var rest := segments[|segments| - (n - 1)..];
      OldestIsFlat(files, segments, keep, n - 1);
      assert tail == [tail[0]] + rest;
      ConcatAppend([tail[0]], rest);
      ConcatSnoc(none, tail[0]);
      assert none + [tail[0]] == [tail[0]];
      EmptyFlat();
      assert Concat([tail[0]]) == tail[0];
      FlatAppend(tail[0], Concat(rest));
      assert files[n - 1] == Flat(tail[0]);
    }
  }

  lemma EmptyFlat()
    ensures Flat([]) == [] && Concat([]) == []
  {
  }

  /** The disk shows the stream from write `from` on. */
  ghost predicate Shows(files: Files, count: nat, writes: seq<Bytes>, from: nat) {
    && from <= |writes|
    && Contiguous(files, count)
    && Oldest(files, count) == Flat(writes[from..])
  }

  /**
   * Oldest file first, the log is always a suffix of everything written, cut between two writes; and nothing at
   * all is missing until every rotated place is taken.
   */
  lemma LogIsSuffix(events: seq<Event>, s: Settings) returns (from: nat, count: nat)
    requires Sane(s)
    ensures Shows(Run(events, s).files, count, Writes(events), from)
    ensures count <= s.keep + 1 && (from > 0 ==> count == s.keep + 1)
  {
    hide Run, Writes, Segments, Flat, Concat, Oldest, WellCut;
    var writes := Writes(events);
    var segments := Segments(writes, s);
    RunHoldsSegments(events, s);
    SegmentsAreWellCut(writes, s);
    count := Min(|segments|, s.keep + 1);
    from := TailIsSuffix(segments, writes, |segments| - count);
    OldestIsFlat(Run(events, s).files, segments, s.keep, count);
  }

  lemma TailIsSuffix(segments: seq<seq<Bytes>>, writes: seq<Bytes>, cut: nat) returns (from: nat)
    requires cut <= |segments| && Concat(segments) == writes
    ensures from <= |writes| && writes[from..] == Concat(segments[cut..])
    ensures cut == 0 ==> from == 0
  {
    assert segments[..cut] + segments[cut..] == segments;
    ConcatAppend(segments[..cut], segments[cut..]);
    from := |Concat(segments[..cut])|;
  }

  /** Every file is within the cap or is one oversized write. */
  lemma FilesWithinCap(events: seq<Event>, s: Settings, k: nat)
    requires Sane(s) && k in Run(events, s).files
    ensures |Run(events, s).files[k]| <= s.cap || s.cap == U64_MAX || Run(events, s).files[k] in Writes(events)
  {
    var writes := Writes(events);
    var segments := Segments(writes, s);
    RunHoldsSegments(events, s);
    SegmentsAreWellCut(writes, s);
    hide Run, Segments, Concat;
    var i := |segments| - 1 - k;
    assert Run(events, s).files[k] == Flat(segments[i]);
    if |segments[i]| == 1 {
      assert Flat(segments[i]) == segments[i][0] by { assert segments[i][..0] == []; }
      InConcat(segments, i, 0);
    }
  }

  lemma {:induction false} InConcat(segments: seq<seq<Bytes>>, i: nat, j: nat)
    requires i < |segments| && j < |segments[i]|
    ensures segments[i][j] in Concat(segments)
  {
    if i < |segments| - 1 {
      InConcat(segments[..|segments| - 1], i, j);
    }
  }

  /** Rotation is never early: two neighbouring files together hold more than the cap. */
  lemma NeighboursExceedCap(events: seq<Event>, s: Settings, k: nat)
    requires Sane(s) && k in Run(events, s).files && k + 1 in Run(events, s).files
    ensures |Run(events, s).files[k + 1]| + |Run(events, s).files[k]| > s.cap
  {
    var writes := Writes(events);
    var segments := Segments(writes, s);
    RunHoldsSegments(events, s);
    SegmentsAreWellCut(writes, s);
    hide Run, Segments, Concat, Flat;
    var i := |segments| - 1 - k;
    assert segments[i] != [] && Crosses(|Flat(segments[i - 1])|, |segments[i][0]|, s);
    FirstIsShorter(segments[i]);
  }

  lemma {:induction false} FirstIsShorter(writes: seq<Bytes>)
    requires writes != []
    ensures |writes[0]| <= |Flat(writes)|
  {
    if |writes| > 1 {
      FirstIsShorter(writes[..|writes| - 1]);
    }
  }

  /** The first write into an empty directory: if it is larger than the cap, it leaves an empty rotated file. */
  lemma FirstWrite(w: Bytes, s: Settings)
    requires Sane(s)
    ensures Run([Put(w)], s).files == if |w| > s.cap && s.cap < U64_MAX then map[0 := w, 1 := []] else map[0 := w]
  {
    var empty: Bytes := [];
    assert [Put(w)][..0] == [];
    assert Run([], s) == Log(map[], None);
    var files: Files := map[0 := empty];
    assert empty + w == w;
    if Crosses(0, |w|, s) {
      RotationMoves(files, 1, s.keep);
      hide Rotated;
      assert Opened(Rotated(files, s.keep)) == map[0 := empty, 1 := empty];
    }
  }
}
