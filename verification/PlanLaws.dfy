/**
 * The dry run's plan (dry-run.js, reconcile.js, acl-preflight.js, paths.js), list by list, told from the documents on
 * disk, the team's list, the whitelist's verdicts and the recorded entries alone.
 */
module PlanLaws {
  import opened Text
  import opened SourcePlan
  import opened PlanFacts

  // ---------------------------------------------------------------- restricted paths

  /** The prefix itself, or something below it; a prefix with a slash at its end is a folder already. */
  ghost predicate Under(path: DocPath, prefix: string) {
    || path == prefix
    || (exists name :: path == prefix + "/" + name && !EndsWith(prefix, "/"))
    || (exists name :: path == prefix + name && EndsWith(prefix, "/"))
  }

  /** A path is restricted exactly when it is a listed prefix or lies below one. */
  lemma RestrictedIff(path: DocPath, prefixes: seq<string>)
    ensures IsRestrictedPath(path, prefixes) <==> exists prefix :: prefix in prefixes && Under(path, prefix)
  {
    hide Under;
    forall prefix ensures Under(path, prefix) <==> path == prefix || StartsWith(path, Folder(prefix)) {
      UnderIff(path, prefix);
    }
  }

  lemma UnderIff(path: DocPath, prefix: string)
    ensures Under(path, prefix) <==> path == prefix || StartsWith(path, Folder(prefix))
  {
    if StartsWith(path, Folder(prefix)) {
      var name := path[|Folder(prefix)|..];
      assert path == Folder(prefix) + name;
    }
    if name :| path == prefix + "/" + name && !EndsWith(prefix, "/") {
      assert path[..|prefix + "/"|] == prefix + "/";
    }
    if name :| path == prefix + name && EndsWith(prefix, "/") {
      assert path[..|prefix|] == prefix;
    }
  }

  /** What lies beside a restricted folder is not restricted by it, even if its name begins alike. */
  lemma SiblingIsFree(prefix: string, more: string, name: string)
    requires !EndsWith(prefix, "/") && more != "" && more[0] != '/'
    ensures !IsRestrictedPath(prefix + more + "/" + name, [prefix])
    ensures IsRestrictedPath(prefix + "/" + name, [prefix])
  {
    var path := prefix + more + "/" + name;
    assert path[|prefix|] == more[0] && |path| > |prefix|;
    var folder := prefix + "/";
    assert folder[|prefix|] == '/' && |folder| == |prefix| + 1 <= |path|;
    assert path[|prefix|] != folder[|prefix|] && !StartsWith(path, folder);
    assert StartsWith(prefix + "/" + name, prefix + "/");
    assert prefix in [prefix];
  }

  // ---------------------------------------------------------------- legal paths

  predicate LegalName(name: string) {
    name != "" && name != "." && name != ".." && '/' !in name && '\\' !in name && '\0' !in name
  }

  /** A documents path is `documents` and one or more legal names, with slashes between them. */
  lemma DocumentsPathIff(path: string)
    ensures IsDocumentsPath(path) <==>
      exists names: seq<string> :: names != [] && (forall name :: name in names ==> LegalName(name))
        && path == "documents/" + Join(names, "/")
  {
    if IsDocumentsPath(path) {
      NamesOf(path);
    }
    if names: seq<string> :|
      names != [] && (forall name :: name in names ==> LegalName(name)) && path == "documents/" + Join(names, "/")
    {
      NamesAreLegal(names);
    }
  }

  lemma {:induction false} SplitChars(s: string, c: char)
    ensures forall piece, x :: piece in Split(s, c) && x in piece ==> x in s
  {
    if s != "" {
      SplitChars(s[1..], c);
      var rest := Split(s[1..], c);
      assert forall x :: x in rest[0] ==> x in s[1..];
      assert forall piece :: piece in rest[1..] ==> piece in rest;
      assert forall x :: x in s[1..] ==> x in s;
    }
  }

  lemma NamesOf(path: string)
    requires IsDocumentsPath(path)
    ensures exists names: seq<string> :: names != [] && (forall name :: name in names ==> LegalName(name))
              && path == "documents/" + Join(names, "/")
  {
    var rest := path[|DOCUMENTS|..];
    assert path == "documents" + ['/'] + rest;
    SplitHead("documents", rest, '/');
    var names := Split(rest, '/');
    JoinSplit(rest, '/');
    SplitChars(rest, '/');
    assert Split(path, '/') == ["documents"] + names;
    forall name | name in names ensures LegalName(name) {
      assert name in Split(path, '/');
      assert forall x :: x in name ==> x in rest && x in path;
    }
    assert path == "documents/" + Join(names, "/");
  }

  lemma {:induction false} JoinChars(names: seq<string>, c: char)
    requires c != '/' && forall name :: name in names ==> c !in name
    ensures c !in Join(names, "/")
  {
    if |names| > 1 {
      JoinChars(names[1..], c);
    }
  }

  lemma NamesAreLegal(names: seq<string>)
    requires names != [] && forall name :: name in names ==> LegalName(name)
    ensures IsDocumentsPath("documents/" + Join(names, "/"))
  {
    var rest := Join(names, "/");
    var path := "documents/" + rest;
    SplitJoin(names, '/');
    assert path == "documents" + ['/'] + rest;
    SplitHead("documents", rest, '/');
    assert Split(path, '/') == ["documents"] + names;
    JoinChars(names, '\\');
    JoinChars(names, '\0');
    assert names[0] in names;
    assert rest != "" by { assert Split("", '/') == [""]; }
    hide Split, Join;
    assert path[..|DOCUMENTS|] == DOCUMENTS && path[0] == 'd' && |path| > |DOCUMENTS|;
    assert '\\' !in path && '\0' !in path;
  }

  // ---------------------------------------------------------------- what is there

  /** The team lists the path, first with this size. */
  ghost predicate FirstKnown(known: seq<Known>, path: DocPath, size: nat) {
    exists i :: 0 <= i < |known| && known[i] == Known(path, size) && forall j :: 0 <= j < i ==> known[j].path != path
  }

  ghost predicate IsKnown(known: seq<Known>, path: DocPath) {
    exists i :: 0 <= i < |known| && known[i].path == path
  }

  /** A document the whitelist is asked about: its size, and its hash if it is on disk. */
  ghost predicate Asked(ins: Inputs, path: DocPath, size: nat, sha: Option<Hash>) {
    if path in ins.docs then size == ins.docs[path].size && sha == Some(ins.docs[path].sha)
    else FirstKnown(ins.known, path, size) && sha == None
  }

  lemma {:induction false} WithKnownMeans(known: seq<Known>, prefixes: seq<string>, union: map<DocPath, Candidate>, path: DocPath, size: nat)
    requires path !in union && !IsRestrictedPath(path, prefixes)
    ensures var u := WithKnown(known, prefixes, union);
      (path in u && u[path] == Candidate(size, None)) <==> FirstKnown(known, path, size)
    decreases |known|
  {
    hide IsRestrictedPath;
    if known != [] {
      var k := known[0];
      if k.path == path {
        UnionMeans(known[1..], prefixes, union[path := Candidate(k.size, None)], path);
        if FirstKnown(known, path, size) {
          var i :| 0 <= i < |known| && known[i] == Known(path, size) && forall j :: 0 <= j < i ==> known[j].path != path;
          assert i == 0;
        }
      } else {
        var next := if IsRestrictedPath(k.path, prefixes) || k.path in union then union
          else union[k.path := Candidate(k.size, None)];
        WithKnownMeans(known[1..], prefixes, next, path, size);
        FirstOfRest(known, path, size);
      }
    }
  }

  lemma FirstOfRest(known: seq<Known>, path: DocPath, size: nat)
    requires known != [] && known[0].path != path
    ensures FirstKnown(known, path, size) <==> FirstKnown(known[1..], path, size)
  {
    if FirstKnown(known, path, size) {
      var i :| 0 <= i < |known| && known[i] == Known(path, size) && forall j :: 0 <= j < i ==> known[j].path != path;
      assert known[1..][i - 1] == Known(path, size);
    }
    if FirstKnown(known[1..], path, size) {
      var i :| 0 <= i < |known[1..]| && known[1..][i] == Known(path, size) && forall j :: 0 <= j < i ==> known[1..][j].path != path;
      assert known[i + 1] == Known(path, size);
      assert forall j :: 0 < j < i + 1 ==> known[j] == known[1..][j - 1];
    }
  }

  /** The documents the whitelist is asked about are those on disk and those listed, none of them restricted. */
  lemma UnionIff(ins: Inputs, prefixes: seq<string>, path: DocPath, size: nat, sha: Option<Hash>)
    ensures var u := UnionOf(ins, prefixes);
      (path in u && u[path] == Candidate(size, sha)) <==> !IsRestrictedPath(path, prefixes) && Asked(ins, path, size, sha)
  {
    hide IsRestrictedPath, FirstKnown;
    var local := LocalDocs(ins.docs, prefixes);
    UnionMeans(ins.known, prefixes, local, path);
    if !IsRestrictedPath(path, prefixes) && path !in ins.docs {
      WithKnownMeans(ins.known, prefixes, local, path, size);
    }
  }

  lemma KnownIff(ins: Inputs, prefixes: seq<string>, path: DocPath)
    ensures path in KnownPaths(ins.known, prefixes) <==> IsKnown(ins.known, path) && !IsRestrictedPath(path, prefixes)
  {
    hide IsRestrictedPath;
    if i :| 0 <= i < |ins.known| && ins.known[i].path == path {
      assert ins.known[i] in ins.known;
    }
  }

  // ---------------------------------------------------------------- the lists of the plan

  /** An allowed, unrestricted document. */
  ghost predicate IsAllowed(ins: Inputs, prefixes: seq<string>, item: Item) {
    && !IsRestrictedPath(item.path, prefixes) && item.cacheKey == None
    && exists size: nat :: Asked(ins, item.path, size, item.sha) && ins.classify(item.path, size) == Allowed(item.priority)
  }

  lemma CurrentIff(ins: Inputs, prefixes: seq<string>, item: Item)
    ensures item in Current(ins, prefixes) <==> IsAllowed(ins, prefixes, item)
  {
    hide IsRestrictedPath, Asked;
    var u := UnionOf(ins, prefixes);
    forall size: nat
      ensures (item.path in u && u[item.path] == Candidate(size, item.sha))
              <==> !IsRestrictedPath(item.path, prefixes) && Asked(ins, item.path, size, item.sha)
    {
      UnionIff(ins, prefixes, item.path, size, item.sha);
    }
    if item in Current(ins, prefixes) {
      assert u[item.path] == Candidate(u[item.path].size, item.sha);
    }
  }

  /** The entry has the hash of the document, the extractor did not change, and the import left pages. */
  ghost predicate IsUpToDate(item: Item, prior: Entry) {
    && prior.sha == item.sha
    && (item.cacheKey.Some? && prior.cacheKey.Some? ==> item.cacheKey == prior.cacheKey)
    && prior.pages.Some? && |prior.pages.value| > 0
  }

  /** Which queue `reconcile` gives a document. */
  lemma QueueIff(item: Item, previous: Sources)
    ensures QueueOf(item, previous) == ToFetch <==> item.sha == None
    ensures QueueOf(item, previous) == ToAdd <==> item.sha.Some? && item.path !in previous
    ensures QueueOf(item, previous) == Unchanged <==>
              item.sha.Some? && item.path in previous && IsUpToDate(item, previous[item.path])
    ensures QueueOf(item, previous) == ToUpdate <==>
              item.sha.Some? && item.path in previous && !IsUpToDate(item, previous[item.path])
  {
  }

  /** Recorded at the hash of the file on disk, with at least one page. */
  ghost predicate RecordedAt(sources: Sources, path: DocPath, sha: Hash) {
    path in sources && sources[path].sha == Some(sha) && sources[path].pages.Some? && |sources[path].pages.value| > 0
  }

  /**
   * Additions, updates and unchanged documents are the allowed, unrestricted files on disk: those not recorded, those
   * recorded at another hash or without a page, and those recorded at their hash with a page. What would be fetched
   * is allowed and listed, but not on disk.
   */
  lemma ImportListsMean(o: Orders, ins: Inputs, prefixes: seq<string>, sources: Sources, item: Item)
    requires Sound(o)
    ensures var plan := PlanOf(o, ins, prefixes, sources);
      && (item in plan.add <==> IsAllowed(ins, prefixes, item) && item.path in ins.docs && item.path !in sources)
      && (item in plan.update <==>
            IsAllowed(ins, prefixes, item) && item.path in ins.docs && item.path in sources
            && !RecordedAt(sources, item.path, ins.docs[item.path].sha))
      && (item in plan.same <==>
            IsAllowed(ins, prefixes, item) && item.path in ins.docs
            && RecordedAt(sources, item.path, ins.docs[item.path].sha))
      && (item in plan.wouldFetch <==> IsAllowed(ins, prefixes, item) && item.path !in ins.docs)
    ensures IsAllowed(ins, prefixes, item) && item.path in ins.docs ==> item.sha == Some(ins.docs[item.path].sha)
  {
    hide IsRestrictedPath, QueueOf, PlanOf, Current;
    PlanMembers(o, ins, prefixes, sources);
    CurrentIff(ins, prefixes, item);
    QueueIff(item, sources);
  }

  /** A changed document is planned as an update, whatever else there is. */
  lemma ChangedIsUpdated(o: Orders, ins: Inputs, prefixes: seq<string>, sources: Sources, path: DocPath, priority: int)
    requires Sound(o) && path in ins.docs && !IsRestrictedPath(path, prefixes)
    requires ins.classify(path, ins.docs[path].size) == Allowed(priority)
    requires path in sources && sources[path].sha != Some(ins.docs[path].sha)
    ensures Item(path, Some(ins.docs[path].sha), None, priority) in PlanOf(o, ins, prefixes, sources).update
  {
    hide IsRestrictedPath, PlanOf;
    var item := Item(path, Some(ins.docs[path].sha), None, priority);
    assert Asked(ins, path, ins.docs[path].size, item.sha);
    ImportListsMean(o, ins, prefixes, sources, item);
  }

  /** The whitelist's verdict on a document that is asked about. */
  ghost predicate Judged(ins: Inputs, prefixes: seq<string>, path: DocPath, verdict: Verdict) {
    !IsRestrictedPath(path, prefixes)
    && exists size: nat, sha: Option<Hash> :: Asked(ins, path, size, sha) && ins.classify(path, size) == verdict
  }

  lemma JudgedIff(ins: Inputs, prefixes: seq<string>, path: DocPath, verdict: Verdict)
    ensures var u := UnionOf(ins, prefixes);
      (path in u && VerdictAt(ins, u, path) == verdict) <==> Judged(ins, prefixes, path, verdict)
  {
    hide IsRestrictedPath, Asked;
    var u := UnionOf(ins, prefixes);
    forall size: nat, sha: Option<Hash>
      ensures (path in u && u[path] == Candidate(size, sha)) <==> !IsRestrictedPath(path, prefixes) && Asked(ins, path, size, sha)
    {
      UnionIff(ins, prefixes, path, size, sha);
    }
    if path in u {
      assert u[path] == Candidate(u[path].size, u[path].sha);
    }
  }

  /** The three lists of what is not imported. */
  lemma RefusedListsMean(o: Orders, ins: Inputs, prefixes: seq<string>, sources: Sources, path: DocPath)
    ensures var plan := PlanOf(o, ins, prefixes, sources);
      && (path in plan.denied <==> Judged(ins, prefixes, path, Denied))
      && (path in plan.blocked <==> Judged(ins, prefixes, path, Blocked))
      && (path in plan.ignored <==> Judged(ins, prefixes, path, Verdict.Ignored))
  {
    hide Judged, UnionOf, Reconciled;
    JudgedIff(ins, prefixes, path, Denied);
    JudgedIff(ins, prefixes, path, Blocked);
    JudgedIff(ins, prefixes, path, Verdict.Ignored);
  }

  /**
   * A recorded source is restricted exactly when its path is; otherwise it is deleted exactly when the team does
   * not list it and it is not an allowed or unchecked file on disk.
   */
  lemma RetractListsMean(o: Orders, ins: Inputs, prefixes: seq<string>, sources: Sources, path: DocPath, sha: Option<Hash>)
    requires Sound(o)
    ensures var plan := PlanOf(o, ins, prefixes, sources);
      && (Gone(path, sha) in plan.restrict <==>
            path in sources && sha == sources[path].sha && IsRestrictedPath(path, prefixes))
      && (Gone(path, sha) in plan.delete <==>
            && path in sources && sha == sources[path].sha && !IsRestrictedPath(path, prefixes)
            && !IsKnown(ins.known, path)
            && (path in ins.docs ==>
                  var verdict := ins.classify(path, ins.docs[path].size); !verdict.Allowed? && !verdict.Ignored?))
  {
    hide IsRestrictedPath, PlanOf, IsKnown;
    PlanMembers(o, ins, prefixes, sources);
    KnownIff(ins, prefixes, path);
    CurrentPaths(ins, prefixes, path);
    if path in sources && !IsRestrictedPath(path, prefixes) {
      RetainedIff(ins, prefixes, sources, path);
    }
    hide Current, Retain;
  }

  lemma CurrentPaths(ins: Inputs, prefixes: seq<string>, path: DocPath)
    ensures path in (set item | item in Current(ins, prefixes) :: item.path) ==>
              !IsRestrictedPath(path, prefixes)
              && (path in ins.docs ==> ins.classify(path, ins.docs[path].size).Allowed?) && (path !in ins.docs ==> IsKnown(ins.known, path))
    ensures path in ins.docs && !IsRestrictedPath(path, prefixes) && ins.classify(path, ins.docs[path].size).Allowed? ==>
              path in (set item | item in Current(ins, prefixes) :: item.path)
  {
    hide IsRestrictedPath, Current;
    if item :| item in Current(ins, prefixes) && item.path == path {
      CurrentIff(ins, prefixes, item);
    }
    if path in ins.docs && !IsRestrictedPath(path, prefixes) && ins.classify(path, ins.docs[path].size).Allowed? {
      var item := Item(path, Some(ins.docs[path].sha), None, ins.classify(path, ins.docs[path].size).priority);
      assert Asked(ins, path, ins.docs[path].size, item.sha);
      CurrentIff(ins, prefixes, item);
    }
  }

  lemma RetainedIff(ins: Inputs, prefixes: seq<string>, sources: Sources, path: DocPath)
    requires path in sources && !IsRestrictedPath(path, prefixes)
    ensures path in Retain(ins, prefixes, sources) <==>
      IsKnown(ins.known, path) || (path in ins.docs && ins.classify(path, ins.docs[path].size).Ignored?)
  {
    hide IsRestrictedPath, IsKnown, UnionOf;
    KnownIff(ins, prefixes, path);
    var u := UnionOf(ins, prefixes);
    if path in ins.docs {
      UnionIff(ins, prefixes, path, ins.docs[path].size, Some(ins.docs[path].sha));
    }
    if path in u {
      UnionIff(ins, prefixes, path, u[path].size, u[path].sha);
    }
  }

  /** When there is a plan at all. */
  lemma PlannedIff(o: Orders, ins: Inputs, sources: Sources)
    ensures DryRunResult(o, ins, sources).Ok? <==>
      && ins.acl.Some? && ins.schemaOk
      && (forall path :: path in ins.docs ==> IsDocumentsPath(path))
      && (forall i :: 0 <= i < |ins.known| ==> IsDocumentsPath(ins.known[i].path))
    ensures DryRunResult(o, ins, sources).Ok? ==>
      DryRunResult(o, ins, sources).value == PlanOf(o, ins, DocumentPrefixes(ins.acl.value), sources)
  {
    hide IsDocumentsPath, PlanOf;
    assert (forall k :: k in ins.known ==> IsDocumentsPath(k.path)) <==>
           (forall i :: 0 <= i < |ins.known| ==> IsDocumentsPath(ins.known[i].path)) by {
      assert forall i :: 0 <= i < |ins.known| ==> ins.known[i] in ins.known;
    }
  }
}
