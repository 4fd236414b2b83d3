/**
 * The plan of a maintenance run (dry-run.js, reconcile.js, acl-preflight.js, paths.js): which
 * documents are added, updated, removed, fetched or left alone.
 */
module SourcePlan {
  import opened Text

  type DocPath = string
  type Hash = string

  const DOCUMENTS: string := "documents/"

  // ---------------------------------------------------------------- recorded sources

  datatype Action = Restrict | Add | Update | Delete

  datatype Pending = Pending(action: Action, sha: Option<Hash>, beforeCommit: nat)

  /** One entry of `state.sources`; `imported` is `status === "imported"`. */
  datatype Entry = Entry(
    sha: Option<Hash>, cacheKey: Option<string>, pages: Option<seq<string>>, imported: bool,
    commit: Option<nat>, pending: Option<Pending>)

  type Sources = map<DocPath, Entry>

  /** A document that passed the whitelist; it has no hash while it is not downloaded. */
  datatype Item = Item(path: DocPath, sha: Option<Hash>, cacheKey: Option<string>, priority: int)

  datatype Gone = Gone(path: DocPath, sha: Option<Hash>)

  // ---------------------------------------------------------------- restricted folders

  /** The folder a restricted prefix names. */
  function Folder(prefix: string): string {
    if EndsWith(prefix, "/") then prefix else prefix + "/"
  }

  predicate IsRestrictedPath(path: DocPath, prefixes: seq<string>) {
    exists prefix :: prefix in prefixes && (path == prefix || StartsWith(path, Folder(prefix)))
  }

  /** Restriction covers whole folders: what is under a restricted path is restricted. */
  lemma RestrictedSubtree(path: DocPath, name: string, prefixes: seq<string>)
    requires IsRestrictedPath(path, prefixes)
    ensures IsRestrictedPath(path + "/" + name, prefixes)
  {
    var prefix :| prefix in prefixes && (path == prefix || StartsWith(path, Folder(prefix)));
    assert StartsWith(path + "/" + name, Folder(prefix)) by {
      if path == prefix && EndsWith(prefix, "/") {
        assert path + "/" + name == Folder(prefix) + ("/" + name);
      } else if path == prefix {
        assert path + "/" + name == Folder(prefix) + name;
      } else {
        assert (path + "/" + name)[..|Folder(prefix)|] == path[..|Folder(prefix)|];
      }
    }
  }

  function DocumentPrefixes(acl: seq<string>): (r: seq<string>)
    ensures forall prefix :: prefix in r <==> prefix in acl && StartsWith(prefix, DOCUMENTS)
  {
    if acl == [] then []
    else (if StartsWith(acl[0], DOCUMENTS) then [acl[0]] else []) + DocumentPrefixes(acl[1..])
  }

  /** `normalizeDocumentsPath` accepts the path; it then returns it unchanged. */
  predicate IsDocumentsPath(path: string) {
    && path != "" && '\\' !in path && '\0' !in path && path[0] != '/'
    && path != "documents" && path != DOCUMENTS && StartsWith(path, DOCUMENTS)
    && forall part :: part in Split(path, '/') ==> part != "" && part != "." && part != ".."
  }

  // ---------------------------------------------------------------- reconcile

  datatype Queue = ToFetch | ToAdd | ToUpdate | Unchanged

  predicate ExtractorChanged(item: Item, prior: Entry) {
    item.cacheKey.Some? && prior.cacheKey.Some? && item.cacheKey != prior.cacheKey
  }

  /** The queue `reconcile` pushes an allowed document to. */
  function QueueOf(item: Item, previous: Sources): Queue {
    if item.sha.None? then ToFetch
    else if item.path !in previous then ToAdd
    else
      var prior := previous[item.path];
      if prior.sha != item.sha || ExtractorChanged(item, prior) then ToUpdate
      else if prior.pages.None? || prior.pages.value == [] then ToUpdate
      else Unchanged
  }

  datatype Queues = Queues(
    add: seq<Item>, update: seq<Item>, delete: seq<Gone>, same: seq<Item>, wouldFetch: seq<Item>)

  /** The collation and `compareItems` orders; each lists every element of a set once. */
  datatype Orders = Orders(
    paths: set<DocPath> -> seq<DocPath>, items: set<Item> -> seq<Item>, gone: set<Gone> -> seq<Gone>)

  ghost predicate Sound(o: Orders) {
    && (forall s {:trigger o.paths(s)} :: Lists(o.paths(s), s))
    && (forall s {:trigger o.items(s)} :: Lists(o.items(s), s))
    && (forall s {:trigger o.gone(s)} :: Lists(o.gone(s), s))
  }

  function InQueue(current: set<Item>, previous: Sources, q: Queue): set<Item> {
    set item | item in current && QueueOf(item, previous) == q
  }

  /** Recorded paths that are neither current nor retained. */
  function Removed(current: set<Item>, previous: Sources, retain: set<DocPath>): set<Gone> {
    var seen := set item | item in current :: item.path;
    set path | path in previous && path !in seen && path !in retain :: Gone(path, previous[path].sha)
  }

  function Reconciled(o: Orders, current: set<Item>, previous: Sources, retain: set<DocPath>): Queues {
    Queues(
      o.items(InQueue(current, previous, ToAdd)),
      o.items(InQueue(current, previous, ToUpdate)),
      o.gone(Removed(current, previous, retain)),
      o.items(InQueue(current, previous, Unchanged)),
      o.items(InQueue(current, previous, ToFetch)))
  }

  lemma QueuesGrow(current: seq<Item>, previous: Sources, i: nat)
    requires i < |current|
    ensures forall q ::
              InQueue(Elements(current[..i + 1]), previous, q)
              == InQueue(Elements(current[..i]), previous, q)
                 + if QueueOf(current[i], previous) == q then {current[i]} else {}
    ensures (set item | item in current[..i + 1] :: item.path) == (set item | item in current[..i] :: item.path) + {current[i].path}
  {
    hide QueueOf;
    assert current[..i + 1] == current[..i] + [current[i]];
  }

  /** The first loop of `reconcile`: every allowed document is pushed to its queue. */
  method SortIntoQueues(current: seq<Item>, previous: Sources)
    returns (add: set<Item>, update: set<Item>, same: set<Item>, fetch: set<Item>, seen: set<DocPath>)
    ensures add == InQueue(Elements(current), previous, ToAdd) && update == InQueue(Elements(current), previous, ToUpdate)
    ensures same == InQueue(Elements(current), previous, Unchanged) && fetch == InQueue(Elements(current), previous, ToFetch)
    ensures seen == set item | item in current :: item.path
  {
    hide InQueue;
    add, update, same, fetch, seen := {}, {}, {}, {}, {};
    NothingQueued(previous);
    assert current[..0] == [];
    for i := 0 to |current|
      invariant seen == set item | item in current[..i] :: item.path
      invariant add == InQueue(Elements(current[..i]), previous, ToAdd)
      invariant update == InQueue(Elements(current[..i]), previous, ToUpdate)
      invariant same == InQueue(Elements(current[..i]), previous, Unchanged)
      invariant fetch == InQueue(Elements(current[..i]), previous, ToFetch)
    {
      var item := current[i];
      QueuesGrow(current, previous, i);
      seen := seen + {item.path};
      if item.sha.None? {
        fetch := fetch + {item};
      } else if item.path !in previous {
        add := add + {item};
      } else {
        var prior := previous[item.path];
        if prior.sha != item.sha || ExtractorChanged(item, prior) {
          update := update + {item};
        } else if prior.pages.None? || prior.pages.value == [] {
          update := update + {item};
        } else {
          same := same + {item};
        }
      }
    }
    assert current[..|current|] == current;
  }

  lemma NothingQueued(previous: Sources)
    ensures forall q :: InQueue(Elements([]), previous, q) == {}
  {
  }

  /** The second loop: recorded paths that are gone. */
  method CollectRemoved(names: seq<DocPath>, previous: Sources, seen: set<DocPath>, retain: set<DocPath>) returns (gone: set<Gone>)
    requires forall path :: path in names ==> path in previous
    ensures gone == set path | path in names && path !in seen && path !in retain :: Gone(path, previous[path].sha)
  {
    gone := {};
    for i := 0 to |names|
      invariant gone == set path | path in names[..i] && path !in seen && path !in retain :: Gone(path, previous[path].sha)
    {
      assert names[..i + 1] == names[..i] + [names[i]];
      if names[i] !in seen && names[i] !in retain {
        gone := gone + {Gone(names[i], previous[names[i]].sha)};
      }
    }
    assert names[..|names|] == names;
  }

  method Reconcile(o: Orders, current: seq<Item>, previous: Sources, retain: set<DocPath>) returns (queues: Queues)
    requires Sound(o)
    ensures queues == Reconciled(o, Elements(current), previous, retain)
  {
    hide InQueue;
    var add, update, same, fetch, seen := SortIntoQueues(current, previous);
    var names := o.paths(previous.Keys);
    assert Lists(names, previous.Keys);
    var gone := CollectRemoved(names, previous, seen, retain);
    assert gone == Removed(Elements(current), previous, retain);
    queues := Queues(o.items(add), o.items(update), o.gone(gone), o.items(same), o.items(fetch));
  }

  // ---------------------------------------------------------------- the dry run

  datatype Doc = Doc(size: nat, sha: Hash)

  datatype Known = Known(path: string, size: nat)

  datatype Verdict = Allowed(priority: int) | Denied | Blocked | Ignored

  /** The documents on disk, the team's list, the ACL and the whitelist. */
  datatype Inputs = Inputs(
    docs: map<string, Doc>, known: seq<Known>, acl: Option<seq<string>>, schemaOk: bool,
    classify: (DocPath, nat) -> Verdict)

  datatype Candidate = Candidate(size: nat, sha: Option<Hash>)

  datatype Plan = Plan(
    restrict: seq<Gone>, add: seq<Item>, update: seq<Item>, delete: seq<Gone>,
    same: seq<Item>, wouldFetch: seq<Item>,
    denied: set<DocPath>, blocked: set<DocPath>, ignored: set<DocPath>)

  datatype PlanError = AclUnknown | SchemaMissing | IllegalPath

  function LocalDocs(docs: map<string, Doc>, prefixes: seq<string>): map<DocPath, Candidate> {
    map path | path in docs && !IsRestrictedPath(path, prefixes) :: Candidate(docs[path].size, Some(docs[path].sha))
  }

  /** A known document that is not on disk counts once, with its first size. */
  function WithKnown(known: seq<Known>, prefixes: seq<string>, union: map<DocPath, Candidate>): map<DocPath, Candidate>
    decreases |known|
  {
    if known == [] then union
    else
      var k := known[0];
      var next := if IsRestrictedPath(k.path, prefixes) || k.path in union then union
        else union[k.path := Candidate(k.size, None)];
      WithKnown(known[1..], prefixes, next)
  }

  function KnownPaths(known: seq<Known>, prefixes: seq<string>): set<DocPath> {
    set k | k in known && !IsRestrictedPath(k.path, prefixes) :: k.path
  }

  function VerdictAt(ins: Inputs, union: map<DocPath, Candidate>, path: DocPath): Verdict
    requires path in union
  {
    ins.classify(path, union[path].size)
  }

  /** The documents the whitelist allows, as items; `dryRun` gives them no cache key. */
  function CurrentItems(ins: Inputs, union: map<DocPath, Candidate>): set<Item> {
    set path | path in union && VerdictAt(ins, union, path).Allowed? ::
      Item(path, union[path].sha, None, VerdictAt(ins, union, path).priority)
  }

  /** Imported documents of an unchecked folder that are still on disk. */
  function RetainedPaths(ins: Inputs, union: map<DocPath, Candidate>, sources: Sources): set<DocPath> {
    set path | path in union && VerdictAt(ins, union, path).Ignored? && union[path].sha.Some? && path in sources
  }

  function RestrictedSources(sources: Sources, prefixes: seq<string>): set<Gone> {
    set path | path in sources && IsRestrictedPath(path, prefixes) :: Gone(path, sources[path].sha)
  }

  function Unrestricted(gone: seq<Gone>, prefixes: seq<string>): (r: seq<Gone>)
    ensures forall g :: g in r <==> g in gone && !IsRestrictedPath(g.path, prefixes)
  {
    if gone == [] then []
    else (if IsRestrictedPath(gone[0].path, prefixes) then [] else [gone[0]]) + Unrestricted(gone[1..], prefixes)
  }

  predicate LegalInputs(ins: Inputs) {
    && (forall path :: path in ins.docs ==> IsDocumentsPath(path))
    && (forall k :: k in ins.known ==> IsDocumentsPath(k.path))
  }

  function UnionOf(ins: Inputs, prefixes: seq<string>): map<DocPath, Candidate> {
    WithKnown(ins.known, prefixes, LocalDocs(ins.docs, prefixes))
  }

  function PlanOf(o: Orders, ins: Inputs, prefixes: seq<string>, sources: Sources): Plan {
    var union := UnionOf(ins, prefixes);
    var queues := Reconciled(o, CurrentItems(ins, union), sources,
      RetainedPaths(ins, union, sources) + KnownPaths(ins.known, prefixes));
    Plan(
      o.gone(RestrictedSources(sources, prefixes)), queues.add, queues.update,
      Unrestricted(queues.delete, prefixes), queues.same, queues.wouldFetch,
      set path | path in union && VerdictAt(ins, union, path).Denied?,
      set path | path in union && VerdictAt(ins, union, path).Blocked?,
      set path | path in union && VerdictAt(ins, union, path).Ignored?)
  }

  function DryRunResult(o: Orders, ins: Inputs, sources: Sources): Result<Plan, PlanError> {
    if ins.acl.None? then Err(AclUnknown)
    else if !ins.schemaOk then Err(SchemaMissing)
    else if !LegalInputs(ins) then Err(IllegalPath)
    else Ok(PlanOf(o, ins, DocumentPrefixes(ins.acl.value), sources))
  }
}
