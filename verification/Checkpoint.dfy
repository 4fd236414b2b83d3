/**
 * The checkpoint package (checkpoint.js): five files in one archive, four of them named by size and digest in
 * the fifth. The JSON codec, the digest and what the JSON of `state.json` says are parameters of the model.
 */
module Checkpoint {
  import opened Text
  import Zip

  type Bytes = Zip.Bytes

  const SCHEMA_VERSION: int := 1
  const MANIFEST: string := "manifest.json"
  const CONFIG: string := "config.json"
  const STATE: string := "state.json"
  const BUNDLE: string := "wiki.bundle"
  const PREPARED: string := "prepared-run.json"
  const ENTRY_NAMES: seq<string> := [MANIFEST, CONFIG, STATE, BUNDLE, PREPARED]
  const RECORDED_NAMES: seq<string> := [CONFIG, STATE, BUNDLE, PREPARED]

  /** A recorded entry; a field that is not a number or not a string is absent. */
  datatype Recorded = Recorded(size: Option<int>, digest: Option<string>)

  /** `rest` stands for the fields that no check looks at. */
  datatype Manifest = Manifest(
    schemaVersion: Option<int>,
    publishedCommit: Option<string>,
    readyToPublish: bool,
    targetCommit: Option<string>,
    targetTreeHash: Option<string>,
    baseTreeHash: Option<string>,
    rest: string,
    entries: map<string, Recorded>
  )

  datatype Tools = Tools(
    zip: Zip.Codec,
    render: Manifest -> Bytes,
    parse: Bytes -> Option<Manifest>,
    published: Bytes -> Option<Option<string>>,
    digest: Bytes -> string
  )

  /** The UTF-8 codec keeps the five names, and the JSON codec keeps manifests. */
  ghost predicate Sound(t: Tools) {
    && (forall name :: name in ENTRY_NAMES ==> t.zip.decode(t.zip.encode(name)) == name)
    && (forall m :: t.parse(t.render(m)) == Some(m))
  }

  datatype Danger = Credential | Transcript | RawCache | LocalPath

  datatype Error =
    | ConfigMissing
    | StateMissing
    | DirtyWorktree
    | BadState
    | Unsafe(entry: string, danger: Danger)
    | Archive(error: Zip.Error)
    | UnexpectedFiles
    | BadManifest
    | TooNew
    | UnsupportedVersion
    | Mismatch(name: string)

  // ---------------------------------------------------------------- text safety

  predicate Includes(text: string, part: string) {
    exists i :: 0 <= i <= |text| && part <= text[i..]
  }

  predicate Digit(c: char) { '0' <= c <= '9' }

  predicate Upper(c: char) { 'A' <= c <= 'Z' }

  predicate Letter(c: char) { Upper(c) || 'a' <= c <= 'z' }

  predicate ApiKeyAt(text: string) {
    "sk-" <= text && |text| >= 15 && forall i :: 3 <= i < 15 ==> Letter(text[i]) || Digit(text[i])
  }

  predicate AccessKeyAt(text: string) {
    "AKIA" <= text && |text| >= 20 && forall i :: 4 <= i < 20 ==> Upper(text[i]) || Digit(text[i])
  }

  predicate DrivePathAt(text: string) {
    text != "" && Letter(text[0]) && ":\\Users" <= text[1..]
  }

  predicate HasCredential(text: string) {
    || Includes(text, "BEGIN PRIVATE KEY")
    || Includes(text, "BEGIN OPENSSH PRIVATE KEY")
    || exists i :: 0 <= i <= |text| && (ApiKeyAt(text[i..]) || AccessKeyAt(text[i..]))
  }

  predicate HasLocalPath(text: string) {
    || Includes(text, "/Users/")
    || Includes(text, "/home/")
    || exists i :: 0 <= i <= |text| && DrivePathAt(text[i..])
  }

  /** `assertCheckpointTextSafe`: why the text is refused, if it is. */
  function Refusal(entry: string, data: Bytes, t: Tools): (r: Option<Error>)
    ensures r.Some? ==> r.value.Unsafe? && r.value.entry == entry
  {
    var text := t.zip.decode(data);
    if HasCredential(text) then Some(Unsafe(entry, Credential))
    else if Includes(text, "pi-transcript") || Includes(text, "\"type\":\"session\"") then Some(Unsafe(entry, Transcript))
    else if Includes(text, "state/raw/") || Includes(text, "\"/raw/") then Some(Unsafe(entry, RawCache))
    else if entry == BUNDLE then None
    else if HasLocalPath(text) then Some(Unsafe(entry, LocalPath))
    else None
  }

  // ---------------------------------------------------------------- creating

  datatype Input = Input(
    config: Option<Bytes>,
    state: Option<Bytes>,
    dirty: bool,
    bundle: Bytes,
    prepared: Bytes,
    readyToPublish: bool,
    targetCommit: Option<string>,
    targetTreeHash: Option<string>,
    baseTreeHash: Option<string>,
    rest: string
  )

  datatype Created = Created(bytes: Bytes, size: nat, digest: string, manifest: Manifest)

  function Record(data: Bytes, t: Tools): Recorded {
    Recorded(Some(|data|), Some(t.digest(data)))
  }

  function ManifestOf(x: Input, config: Bytes, state: Bytes, published: Option<string>, t: Tools): Manifest {
    Manifest(
      Some(SCHEMA_VERSION),
      published,
      x.readyToPublish,
      if x.readyToPublish then x.targetCommit else None,
      if x.readyToPublish then x.targetTreeHash else None,
      if x.readyToPublish then x.baseTreeHash else None,
      x.rest,
      map[
        CONFIG := Record(config, t),
        STATE := Record(state, t),
        BUNDLE := Record(x.bundle, t),
        PREPARED := Record(x.prepared, t)
      ])
  }

  function FilesOf(x: Input, manifest: Manifest, config: Bytes, state: Bytes, t: Tools): seq<Zip.File> {
    [
      Zip.File(MANIFEST, t.render(manifest)),
      Zip.File(CONFIG, config),
      Zip.File(STATE, state),
      Zip.File(BUNDLE, x.bundle),
      Zip.File(PREPARED, x.prepared)
    ]
  }

  /** The first of the named texts that is refused. */
  function FirstRefusal(files: seq<Zip.File>, t: Tools): Option<Error> {
    if files == [] then None
    else
      var refusal := Refusal(files[0].name, files[0].data, t);
      if refusal.Some? then refusal else FirstRefusal(files[1..], t)
  }

  /** The order in which the parts are checked before they are packed; the manifest is not among them. */
  function CheckedAtCreation(x: Input, config: Bytes, state: Bytes): seq<Zip.File> {
    [
      Zip.File(CONFIG, config),
      Zip.File(STATE, state),
      Zip.File(PREPARED, x.prepared),
      Zip.File(BUNDLE, x.bundle)
    ]
  }

  /** `createCheckpoint`. */
  method CreateCheckpoint(x: Input, t: Tools) returns (r: Result<Created, Error>)
    ensures r.Ok? <==> Creatable(x, t)
    ensures r.Ok? ==> r.value == CreatedFrom(x, t)
    ensures r == Err(ConfigMissing) <==> x.config.None?
    ensures r == Err(StateMissing) <==> x.config.Some? && x.state.None?
    ensures r == Err(DirtyWorktree) <==> x.config.Some? && x.state.Some? && x.dirty
    ensures r == Err(BadState) <==> x.config.Some? && x.state.Some? && !x.dirty && t.published(x.state.value).None?
    ensures r.Err? && r.error.Unsafe? ==>
              && x.config.Some? && x.state.Some?
              && FirstRefusal(CheckedAtCreation(x, x.config.value, x.state.value), t) == Some(r.error)
  {
    if x.config.None? { return Err(ConfigMissing); }
    if x.state.None? { return Err(StateMissing); }
    if x.dirty { return Err(DirtyWorktree); }
    var config, state := x.config.value, x.state.value;
    if t.published(state).None? { return Err(BadState); }
    var manifest := ManifestOf(x, config, state, t.published(state).value, t);
    var checked := CheckedAtCreation(x, config, state);
    for i := 0 to |checked|
      invariant FirstRefusal(checked, t) == FirstRefusal(checked[i..], t)
    {
      var refusal := Refusal(checked[i].name, checked[i].data, t);
      if refusal.Some? {
        return Err(refusal.value);
      }
      assert checked[i..][1..] == checked[i + 1..];
    }
    var zipped := Zip.ZipStore(FilesOf(x, manifest, config, state, t), t.zip);
    if zipped.Err? { return Err(Archive(zipped.error)); }
    var bytes := zipped.value;
    return Ok(Created(bytes, |bytes|, t.digest(bytes), manifest));
  }

  /** A checkpoint can be made of these parts. */
  predicate Creatable(x: Input, t: Tools) {
    && x.config.Some? && x.state.Some? && !x.dirty && t.published(x.state.value).Some?
    && FirstRefusal(CheckedAtCreation(x, x.config.value, x.state.value), t).None?
    && Zip.Fits(PackedFiles(x, t), t.zip)
  }

  function PackedManifest(x: Input, t: Tools): Manifest
    requires x.config.Some? && x.state.Some? && t.published(x.state.value).Some?
  {
    ManifestOf(x, x.config.value, x.state.value, t.published(x.state.value).value, t)
  }

  function PackedFiles(x: Input, t: Tools): seq<Zip.File>
    requires x.config.Some? && x.state.Some? && t.published(x.state.value).Some?
  {
    FilesOf(x, PackedManifest(x, t), x.config.value, x.state.value, t)
  }

  function CreatedFrom(x: Input, t: Tools): Created
    requires Creatable(x, t)
  {
    var bytes := Zip.Archive(PackedFiles(x, t), t.zip);
    Created(bytes, |bytes|, t.digest(bytes), PackedManifest(x, t))
  }

  // ---------------------------------------------------------------- parsing

  datatype Parsed = Parsed(files: map<string, Bytes>, manifest: Manifest)

  /** The keys, sorted, are the five names, sorted. */
  predicate HasExactlyTheEntries(files: map<string, Bytes>) {
    files.Keys == Elements(ENTRY_NAMES)
  }

  predicate Matches(recorded: Recorded, data: Bytes, t: Tools) {
    recorded.size == Some(|data|) && recorded.digest == Some(t.digest(data))
  }

  predicate AllSafe(files: map<string, Bytes>, t: Tools)
    requires HasExactlyTheEntries(files)
  {
    forall name :: name in ENTRY_NAMES ==> Refusal(name, files[name], t).None?
  }

  predicate AllMatch(files: map<string, Bytes>, entries: map<string, Recorded>, t: Tools) {
    forall name :: name in RECORDED_NAMES ==>
      name in files && name in entries && Matches(entries[name], files[name], t)
  }

  /** What acceptance means for the files and the manifest together. */
  predicate Accepts(files: map<string, Bytes>, manifest: Manifest, t: Tools) {
    && HasExactlyTheEntries(files)
    && MANIFEST in files && t.parse(files[MANIFEST]) == Some(manifest)
    && manifest.schemaVersion == Some(SCHEMA_VERSION)
    && AllSafe(files, t)
    && AllMatch(files, manifest.entries, t)
  }

  method CheckTexts(files: map<string, Bytes>, t: Tools) returns (refusal: Option<Error>)
    requires HasExactlyTheEntries(files)
    ensures refusal.None? <==> AllSafe(files, t)
    ensures refusal.Some? ==> refusal.value.Unsafe? && refusal.value.entry in ENTRY_NAMES && refusal.value.entry in files
                              && refusal == Refusal(refusal.value.entry, files[refusal.value.entry], t)
  {
    hide Refusal;
    for i := 0 to |ENTRY_NAMES|
      invariant forall name :: name in ENTRY_NAMES[..i] ==> name in files && Refusal(name, files[name], t).None?
    {
      var name := ENTRY_NAMES[i];
      assert name in Elements(ENTRY_NAMES);
      refusal := Refusal(name, files[name], t);
      if refusal.Some? {
        return;
      }
      assert ENTRY_NAMES[..i + 1] == ENTRY_NAMES[..i] + [name];
    }
    assert ENTRY_NAMES[..|ENTRY_NAMES|] == ENTRY_NAMES;
    return None;
  }

  method CheckRecorded(files: map<string, Bytes>, entries: map<string, Recorded>, t: Tools)
    returns (mismatch: Option<string>)
    requires HasExactlyTheEntries(files)
    ensures mismatch.None? <==> AllMatch(files, entries, t)
    ensures mismatch.Some? ==> mismatch.value in RECORDED_NAMES && mismatch.value in files
                               && (mismatch.value in entries ==> !Matches(entries[mismatch.value], files[mismatch.value], t))
  {
    hide Matches;
    for i := 0 to |RECORDED_NAMES|
      invariant forall name :: name in RECORDED_NAMES[..i] ==>
                  name in files && name in entries && Matches(entries[name], files[name], t)
    {
      var name := RECORDED_NAMES[i];
      assert RECORDED_NAMES[i] == ENTRY_NAMES[i + 1];
      assert name in Elements(ENTRY_NAMES);
      if name !in entries || !Matches(entries[name], files[name], t) {
        return Some(name);
      }
      assert RECORDED_NAMES[..i + 1] == RECORDED_NAMES[..i] + [name];
    }
    assert RECORDED_NAMES[..|RECORDED_NAMES|] == RECORDED_NAMES;
    return None;
  }

  /** The five entries, if the archive unpacks to exactly them. */
  function Entries(bytes: Bytes, t: Tools): (r: Option<map<string, Bytes>>)
    ensures r.Some? ==> MANIFEST in r.value
  {
    var unzipped := Zip.Unzipped(bytes, t.zip);
    ManifestIsEntry();
    if unzipped.Ok? && HasExactlyTheEntries(unzipped.value) then Some(unzipped.value) else None
  }

  /** The schema version of the manifest, if there is a manifest. */
  function Version(bytes: Bytes, t: Tools): (r: Option<Option<int>>)
    ensures r.Some? ==> Entries(bytes, t).Some?
  {
    match Entries(bytes, t)
    case None => None
    case Some(files) =>
      match t.parse(files[MANIFEST])
      case None => None
      case Some(manifest) => Some(manifest.schemaVersion)
  }

  /** `parseCheckpoint`: accepted exactly when the archive unpacks to files and a manifest that `Accepts` relates. */
  method ParseCheckpoint(bytes: Bytes, t: Tools) returns (r: Result<Parsed, Error>)
    ensures r.Ok? ==> Accepted(bytes, r.value, t)
    ensures r.Err? ==> forall p :: !Accepted(bytes, p, t)
    ensures r.Err? && r.error.Archive? <==> Zip.Unzipped(bytes, t.zip).Err?
    ensures r == Err(UnexpectedFiles) <==> Zip.Unzipped(bytes, t.zip).Ok? && Entries(bytes, t).None?
    ensures r == Err(BadManifest) <==> Entries(bytes, t).Some? && t.parse(Entries(bytes, t).value[MANIFEST]).None?
    ensures r == Err(TooNew) <==> exists v: int :: v > 1 && Version(bytes, t) == Some(Some(v))
    ensures r == Err(UnsupportedVersion) <==>
            Version(bytes, t) == Some(None) || exists v: int :: v < 1 && Version(bytes, t) == Some(Some(v))
    ensures r.Err? && r.error.Unsafe? ==>
              && Version(bytes, t) == Some(Some(1)) && r.error.entry in Entries(bytes, t).value
              && Refusal(r.error.entry, Entries(bytes, t).value[r.error.entry], t) == Some(r.error)
    ensures r.Err? && r.error.Mismatch? ==> Version(bytes, t) == Some(Some(1)) && r.error.name in RECORDED_NAMES
  {
    hide Refusal, AllSafe, AllMatch, Zip.Unzipped;
    var unzipped := Zip.Unzip(bytes, t.zip);
    if unzipped.Err? { return Err(Archive(unzipped.error)); }
    var files := unzipped.value;
    if !HasExactlyTheEntries(files) { return Err(UnexpectedFiles); }
    ManifestIsEntry();
    var parsed := t.parse(files[MANIFEST]);
    if parsed.None? { return Err(BadManifest); }
    var manifest := parsed.value;
    if manifest.schemaVersion.Some? && manifest.schemaVersion.value > SCHEMA_VERSION { return Err(TooNew); }
    if manifest.schemaVersion != Some(SCHEMA_VERSION) { return Err(UnsupportedVersion); }
    var refusal := CheckTexts(files, t);
    if refusal.Some? { return Err(refusal.value); }
    var mismatch := CheckRecorded(files, manifest.entries, t);
    if mismatch.Some? { return Err(Mismatch(mismatch.value)); }
    return Ok(Parsed(files, manifest));
  }

  lemma ManifestIsEntry()
    ensures MANIFEST in Elements(ENTRY_NAMES)
  {
    assert MANIFEST == ENTRY_NAMES[0];
  }

  lemma RecordedAreEntries()
    ensures forall name :: name in RECORDED_NAMES <==> name in ENTRY_NAMES && name != MANIFEST
  {
  }

  /** What the parser's answer can be for given bytes. */
  ghost predicate Accepted(bytes: Bytes, p: Parsed, t: Tools) {
    Zip.Unzipped(bytes, t.zip) == Ok(p.files) && Accepts(p.files, p.manifest, t)
  }

  // ---------------------------------------------------------------- the round trip

  lemma NamesApart()
    ensures forall i, j :: 0 <= i < j < |ENTRY_NAMES| ==> ENTRY_NAMES[i] != ENTRY_NAMES[j]
    ensures forall name :: name in ENTRY_NAMES ==> '\\' !in name
  {
  }

  lemma Unpacks(x: Input, t: Tools)
    requires Sound(t) && Creatable(x, t)
    ensures Zip.Unzipped(CreatedFrom(x, t).bytes, t.zip).Ok?
    ensures var files := Zip.Unzipped(CreatedFrom(x, t).bytes, t.zip).value;
            && |files| == 5 && Elements(ENTRY_NAMES) <= files.Keys
            && files[MANIFEST] == t.render(PackedManifest(x, t))
            && files[CONFIG] == x.config.value && files[STATE] == x.state.value
            && files[BUNDLE] == x.bundle && files[PREPARED] == x.prepared
  {
    hide Refusal, PackedManifest, Zip.Fits, Zip.Archive, Zip.Unzipped;
    var files := PackedFiles(x, t);
    NamesApart();
    assert forall i :: 0 <= i < |files| ==> files[i].name == ENTRY_NAMES[i];
    forall f | f in files ensures t.zip.decode(t.zip.encode(f.name)) == f.name && '\\' !in f.name {
      assert f.name in ENTRY_NAMES;
    }
    Zip.ExactRoundTrip(files, t.zip);
    assert files[0] in files && files[1] in files && files[2] in files && files[3] in files && files[4] in files;
  }

  lemma FiveNames(files: map<string, Bytes>)
    requires |files| == 5 && Elements(ENTRY_NAMES) <= files.Keys
    ensures HasExactlyTheEntries(files)
  {
    NamesApart();
    Zip.CountOnce(ENTRY_NAMES);
    assert Elements(ENTRY_NAMES) == set x | x in ENTRY_NAMES;
    assert |files.Keys - Elements(ENTRY_NAMES)| == |files.Keys| - |Elements(ENTRY_NAMES)| == 0;
  }

  /** The parts that were checked at creation pass the same check when they are read. */
  lemma PartsPass(x: Input, t: Tools)
    requires Creatable(x, t)
    ensures Refusal(CONFIG, x.config.value, t).None? && Refusal(STATE, x.state.value, t).None?
    ensures Refusal(BUNDLE, x.bundle, t).None? && Refusal(PREPARED, x.prepared, t).None?
  {
    hide Refusal, Zip.Fits;
    var checked := CheckedAtCreation(x, x.config.value, x.state.value);
    RefusedNone(checked, t);
    assert Refusal(checked[0].name, checked[0].data, t).None? && Refusal(checked[1].name, checked[1].data, t).None?;
    assert Refusal(checked[2].name, checked[2].data, t).None? && Refusal(checked[3].name, checked[3].data, t).None?;
  }

  lemma {:induction false} RefusedNone(files: seq<Zip.File>, t: Tools)
    ensures FirstRefusal(files, t).None? <==>
            forall i :: 0 <= i < |files| ==> Refusal(files[i].name, files[i].data, t).None?
  {
    hide Refusal;
    if files != [] {
      RefusedNone(files[1..], t);
      if FirstRefusal(files, t).None? {
        forall i | 0 <= i < |files| ensures Refusal(files[i].name, files[i].data, t).None? {
          if i > 0 { assert files[i] == files[1..][i - 1]; }
        }
      }
    }
  }

  /**
   * Reading back what was created: it is accepted exactly when the text of the manifest itself, which creation
   * does not check, passes the text check; and then the manifest and every part come back as they were.
   */
  lemma RoundTrip(x: Input, t: Tools)
    requires Sound(t) && Creatable(x, t)
    ensures (exists p :: Accepted(CreatedFrom(x, t).bytes, p, t))
            <==> Refusal(MANIFEST, t.render(PackedManifest(x, t)), t).None?
    ensures forall p :: Accepted(CreatedFrom(x, t).bytes, p, t) ==>
              && p.manifest == CreatedFrom(x, t).manifest
              && p.files == map[MANIFEST := t.render(p.manifest), CONFIG := x.config.value, STATE := x.state.value,
                                BUNDLE := x.bundle, PREPARED := x.prepared]
  {
    hide Refusal, Zip.Fits, Zip.Archive, Zip.Unzipped;
    var bytes, manifest := CreatedFrom(x, t).bytes, PackedManifest(x, t);
    Unpacks(x, t);
    PartsPass(x, t);
    var files := Zip.Unzipped(bytes, t.zip).value;
    FiveNames(files);
    assert files == map[MANIFEST := t.render(manifest), CONFIG := x.config.value, STATE := x.state.value,
                        BUNDLE := x.bundle, PREPARED := x.prepared];
    if Refusal(MANIFEST, t.render(manifest), t).None? {
      PackedIsAccepted(x, t, files);
      assert Accepted(bytes, Parsed(files, manifest), t);
    }
    assert MANIFEST == ENTRY_NAMES[0];
  }

  lemma PackedIsAccepted(x: Input, t: Tools, files: map<string, Bytes>)
    requires Sound(t) && Creatable(x, t)
    requires files == map[MANIFEST := t.render(PackedManifest(x, t)), CONFIG := x.config.value,
                          STATE := x.state.value, BUNDLE := x.bundle, PREPARED := x.prepared]
    requires Refusal(MANIFEST, t.render(PackedManifest(x, t)), t).None?
    ensures Accepts(files, PackedManifest(x, t), t)
  {
    hide Refusal, Zip.Fits;
    PartsPass(x, t);
    SetOfFive(files);
    assert AllSafe(files, t);
    AllMatchPacked(files, x, t);
  }

  lemma SetOfFive(files: map<string, Bytes>)
    requires files.Keys == {MANIFEST, CONFIG, STATE, BUNDLE, PREPARED}
    ensures HasExactlyTheEntries(files) && MANIFEST in files
  {
  }

  lemma AllMatchPacked(files: map<string, Bytes>, x: Input, t: Tools)
    requires Creatable(x, t)
    requires files == map[MANIFEST := t.render(PackedManifest(x, t)), CONFIG := x.config.value,
                          STATE := x.state.value, BUNDLE := x.bundle, PREPARED := x.prepared]
    ensures AllMatch(files, PackedManifest(x, t).entries, t)
  {
    hide Zip.Fits;
    var entries := PackedManifest(x, t).entries;
    assert entries[CONFIG] == Record(x.config.value, t) && entries[STATE] == Record(x.state.value, t);
    assert entries[BUNDLE] == Record(x.bundle, t) && entries[PREPARED] == Record(x.prepared, t);
  }

  /**
   * A manifest pins its package: with a digest free of collisions, two accepted packages with equal manifests
   * have the same four parts.
   */
  lemma ManifestPinsParts(a: Bytes, b: Bytes, p: Parsed, q: Parsed, t: Tools)
    requires Accepted(a, p, t) && Accepted(b, q, t) && p.manifest == q.manifest
    requires forall d, e :: t.digest(d) == t.digest(e) ==> d == e
    ensures forall name :: name in RECORDED_NAMES ==>
              name in p.files && name in q.files && p.files[name] == q.files[name]
  {
    hide Refusal, Zip.Unzipped;
    RecordedAreEntries();
    forall name | name in RECORDED_NAMES ensures p.files[name] == q.files[name] {
      assert Matches(p.manifest.entries[name], p.files[name], t) && Matches(q.manifest.entries[name], q.files[name], t);
    }
  }
}
