/** `dryRun` (dry-run.js) in its own form, and what its plan promises for every input. */
module DryRun {
  import opened Text
  import opened SourcePlan

  method WalkDocs(o: Orders, docs: map<string, Doc>, prefixes: seq<string>) returns (r: Option<map<DocPath, Candidate>>)
    requires Sound(o)
    ensures r == if forall path :: path in docs ==> IsDocumentsPath(path) then Some(LocalDocs(docs, prefixes)) else None
  {
    var files := o.paths(docs.Keys);
    assert Lists(files, docs.Keys);
    var byPath: map<DocPath, Candidate> := map[];
    for i := 0 to |files|
      invariant forall path :: path in files[..i] ==> IsDocumentsPath(path)
      invariant byPath == LocalDocs(map path | path in docs && path in files[..i] :: docs[path], prefixes)
    {
      var path := files[i];
      assert path in docs;
      assert files[..i + 1] == files[..i] + [path];
      if !IsDocumentsPath(path) {
        return None;
      }
      var doc := docs[path];
      if !IsRestrictedPath(path, prefixes) {
        byPath := byPath[path := Candidate(doc.size, Some(doc.sha))];
      }
    }
    assert files[..|files|] == files;
    assert docs == map path | path in docs && path in files :: docs[path];
    return Some(byPath);
  }

  method AddKnown(known: seq<Known>, prefixes: seq<string>, byPath: map<DocPath, Candidate>)
    returns (r: Option<(map<DocPath, Candidate>, set<DocPath>)>)
    ensures r == if forall k :: k in known ==> IsDocumentsPath(k.path)
      then Some((WithKnown(known, prefixes, byPath), KnownPaths(known, prefixes))) else None
  {
    var union, paths := byPath, {};
    for i := 0 to |known|
      invariant forall k :: k in known[..i] ==> IsDocumentsPath(k.path)
      invariant WithKnown(known[i..], prefixes, union) == WithKnown(known, prefixes, byPath)
      invariant paths == KnownPaths(known[..i], prefixes)
    {
      var k := known[i];
      KnownStep(known, i, prefixes);
      if !IsDocumentsPath(k.path) {
        return None;
      }
      if !IsRestrictedPath(k.path, prefixes) {
        paths := paths + {k.path};
        if k.path !in union {
          union := union[k.path := Candidate(k.size, None)];
        }
      }
    }
    assert known[|known|..] == [] && known[..|known|] == known;
    return Some((union, paths));
  }

  lemma KnownStep(known: seq<Known>, i: nat, prefixes: seq<string>)
    requires i < |known|
    ensures known[i..][0] == known[i] && known[i..][1..] == known[i + 1..]
    ensures KnownPaths(known[..i + 1], prefixes)
      == KnownPaths(known[..i], prefixes) + if IsRestrictedPath(known[i].path, prefixes) then {} else {known[i].path}
    ensures forall k :: k in known[..i + 1] <==> k in known[..i] || k == known[i]
  {
    assert known[..i + 1] == known[..i] + [known[i]];
  }

  datatype Classified = Classified(
    allowed: seq<Item>, denied: set<DocPath>, blocked: set<DocPath>, ignored: set<DocPath>, retained: set<DocPath>)

  ghost predicate IsClassified(c: Classified, ins: Inputs, union: map<DocPath, Candidate>, sources: Sources) {
    && Elements(c.allowed) == CurrentItems(ins, union)
    && c.denied == (set path | path in union && VerdictAt(ins, union, path).Denied?)
    && c.blocked == (set path | path in union && VerdictAt(ins, union, path).Blocked?)
    && c.ignored == (set path | path in union && VerdictAt(ins, union, path).Ignored?)
    && c.retained == RetainedPaths(ins, union, sources)
  }

  function Part(union: map<DocPath, Candidate>, names: seq<DocPath>): map<DocPath, Candidate> {
    map path | path in union && path in names :: union[path]
  }

  /** Where the verdict puts one document. */
  function Placed(c: Classified, path: DocPath, cand: Candidate, v: Verdict, sources: Sources): Classified {
    match v
    case Allowed(priority) => c.(allowed := c.allowed + [Item(path, cand.sha, None, priority)])
    case Denied => c.(denied := c.denied + {path})
    case Blocked => c.(blocked := c.blocked + {path})
    case Ignored => c.(
      ignored := c.ignored + {path},
      // A folder left unchecked still has its files: that is not a deletion.
      retained := if cand.sha.Some? && path in sources then c.retained + {path} else c.retained)
  }

  /** One more document leaves the verdicts of the others as they are. */
  lemma VerdictsKeep(ins: Inputs, part: map<DocPath, Candidate>, path: DocPath, cand: Candidate)
    requires path in part ==> part[path] == cand
    ensures VerdictAt(ins, part[path := cand], path) == ins.classify(path, cand.size)
    ensures forall p :: p in part ==> VerdictAt(ins, part[path := cand], p) == VerdictAt(ins, part, p)
  {
  }

  function AllowedItem(path: DocPath, cand: Candidate, v: Verdict): set<Item> {
    if v.Allowed? then {Item(path, cand.sha, None, v.priority)} else {}
  }

  lemma ItemsGrow(ins: Inputs, part: map<DocPath, Candidate>, path: DocPath, cand: Candidate)
    requires path in part ==> part[path] == cand
    ensures CurrentItems(ins, part[path := cand])
         == CurrentItems(ins, part) + AllowedItem(path, cand, ins.classify(path, cand.size))
  {
    var next, v := part[path := cand], ins.classify(path, cand.size);
    VerdictsKeep(ins, part, path, cand);
    if v.Allowed? {
      assert path in next && VerdictAt(ins, next, path).Allowed?;
    }
    var added := AllowedItem(path, cand, v);
    forall it ensures it in CurrentItems(ins, next) <==> it in CurrentItems(ins, part) + added {
      if it in CurrentItems(ins, part) {
        assert it.path in part && it.path in next;
        assert VerdictAt(ins, part, it.path) == VerdictAt(ins, next, it.path);
      }
      if it in CurrentItems(ins, next) && it.path != path {
        assert it.path in part && VerdictAt(ins, part, it.path) == VerdictAt(ins, next, it.path);
      }
    }
  }

  lemma RetainedGrow(ins: Inputs, part: map<DocPath, Candidate>, path: DocPath, cand: Candidate, sources: Sources)
    requires path in part ==> part[path] == cand
    ensures RetainedPaths(ins, part[path := cand], sources)
         == RetainedPaths(ins, part, sources)
            + if ins.classify(path, cand.size).Ignored? && cand.sha.Some? && path in sources then {path} else {}
  {
  }

  lemma PlacedKeeps(c: Classified, ins: Inputs, part: map<DocPath, Candidate>, path: DocPath, cand: Candidate, sources: Sources)
    requires path in part ==> part[path] == cand
    requires IsClassified(c, ins, part, sources)
    ensures IsClassified(Placed(c, path, cand, ins.classify(path, cand.size), sources), ins, part[path := cand], sources)
  {
    hide CurrentItems, RetainedPaths;
    VerdictsKeep(ins, part, path, cand);
    ItemsGrow(ins, part, path, cand);
    RetainedGrow(ins, part, path, cand, sources);
    hide VerdictAt;
    var c' := Placed(c, path, cand, ins.classify(path, cand.size), sources);
    assert Elements(c'.allowed) == Elements(c.allowed) + AllowedItem(path, cand, ins.classify(path, cand.size));
  }

  method Classify(o: Orders, ins: Inputs, union: map<DocPath, Candidate>, sources: Sources) returns (c: Classified)
    requires Sound(o)
    ensures IsClassified(c, ins, union, sources)
  {
    var names := o.paths(union.Keys);
    assert Lists(names, union.Keys);
    c := Classified([], {}, {}, {}, {});
    for i := 0 to |names|
      invariant IsClassified(c, ins, Part(union, names[..i]), sources)
    {
      assert names[i] in union;
      PartGrows(union, names, i);
      PlacedKeeps(c, ins, Part(union, names[..i]), names[i], union[names[i]], sources);
      c := Placed(c, names[i], union[names[i]], VerdictAt(ins, union, names[i]), sources);
    }
    assert names[..|names|] == names;
    assert Part(union, names) == union;
  }

  lemma PartGrows(union: map<DocPath, Candidate>, names: seq<DocPath>, i: nat)
    requires i < |names| && names[i] in union
    ensures Part(union, names[..i + 1]) == Part(union, names[..i])[names[i] := union[names[i]]]
  {
    assert names[..i + 1] == names[..i] + [names[i]];
  }

  method DryRun(o: Orders, ins: Inputs, sources: Sources) returns (r: Result<Plan, PlanError>)
    requires Sound(o)
    ensures r == DryRunResult(o, ins, sources)
  {
    if ins.acl.None? {
      return Err(AclUnknown);
    }
    if !ins.schemaOk {
      return Err(SchemaMissing);
    }
    var prefixes := DocumentPrefixes(ins.acl.value);
    var walked := WalkDocs(o, ins.docs, prefixes);
    if walked.None? {
      return Err(IllegalPath);
    }
    var listed := AddKnown(ins.known, prefixes, walked.value);
    if listed.None? {
      return Err(IllegalPath);
    }
    var (union, knownPaths) := listed.value;
    var c := Classify(o, ins, union, sources);
    var queues := Reconcile(o, c.allowed, sources, c.retained + knownPaths);
    return Ok(Plan(
      o.gone(RestrictedSources(sources, prefixes)), queues.add, queues.update,
      Unrestricted(queues.delete, prefixes), queues.same, queues.wouldFetch,
      c.denied, c.blocked, c.ignored));
  }
}
