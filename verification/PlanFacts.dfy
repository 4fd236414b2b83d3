/** What the plan of a dry run promises for every set of documents and every recorded state. */
module PlanFacts {
  import opened Text
  import opened SourcePlan

  /** The folded union: documents on disk keep their hash, known ones that are not have none. */
  lemma {:induction false} UnionMeans(known: seq<Known>, prefixes: seq<string>, union: map<DocPath, Candidate>, path: DocPath)
    ensures var u := WithKnown(known, prefixes, union);
      && (path in u <==> path in union || path in KnownPaths(known, prefixes))
      && (path in union ==> u[path] == union[path])
      && (path in u && path !in union ==> u[path].sha == None)
    decreases |known|
  {
    if known != [] {
      var k := known[0];
      var next := if IsRestrictedPath(k.path, prefixes) || k.path in union then union
        else union[k.path := Candidate(k.size, None)];
      UnionMeans(known[1..], prefixes, next, path);
      assert path in KnownPaths(known, prefixes) <==>
        path in KnownPaths(known[1..], prefixes) || (path == k.path && !IsRestrictedPath(path, prefixes)) by {
        assert forall k' :: k' in known <==> k' == k || k' in known[1..];
      }
    }
  }

  /** The whitelist never sees a restricted path. */
  lemma UnionUnrestricted(ins: Inputs, prefixes: seq<string>, path: DocPath)
    requires path in UnionOf(ins, prefixes)
    ensures !IsRestrictedPath(path, prefixes)
  {
    UnionMeans(ins.known, prefixes, LocalDocs(ins.docs, prefixes), path);
  }

  ghost function Current(ins: Inputs, prefixes: seq<string>): set<Item> {
    CurrentItems(ins, UnionOf(ins, prefixes))
  }

  ghost function Retain(ins: Inputs, prefixes: seq<string>, sources: Sources): set<DocPath> {
    RetainedPaths(ins, UnionOf(ins, prefixes), sources) + KnownPaths(ins.known, prefixes)
  }

  /** Two current items with one path are the same item, and none is restricted. */
  lemma CurrentIsByPath(ins: Inputs, prefixes: seq<string>, a: Item, b: Item)
    requires a in Current(ins, prefixes) && b in Current(ins, prefixes) && a.path == b.path
    ensures a == b && !IsRestrictedPath(a.path, prefixes) && a.cacheKey == None
  {
    UnionUnrestricted(ins, prefixes, a.path);
  }

  ghost function Paths(items: seq<Item>): set<DocPath> {
    set item | item in items :: item.path
  }

  ghost function GonePaths(gone: seq<Gone>): set<DocPath> {
    set g | g in gone :: g.path
  }

  /** Membership in every list of the plan. */
  lemma PlanMembers(o: Orders, ins: Inputs, prefixes: seq<string>, sources: Sources)
    requires Sound(o)
    ensures var plan, current := PlanOf(o, ins, prefixes, sources), Current(ins, prefixes);
      && (forall item :: item in plan.add <==> item in current && QueueOf(item, sources) == ToAdd)
      && (forall item :: item in plan.update <==> item in current && QueueOf(item, sources) == ToUpdate)
      && (forall item :: item in plan.same <==> item in current && QueueOf(item, sources) == Unchanged)
      && (forall item :: item in plan.wouldFetch <==> item in current && QueueOf(item, sources) == ToFetch)
      && (forall g :: g in plan.restrict <==> g in RestrictedSources(sources, prefixes))
      && (forall g :: g in plan.delete <==>
            g in Removed(current, sources, Retain(ins, prefixes, sources)) && !IsRestrictedPath(g.path, prefixes))
  {
    var current := Current(ins, prefixes);
    assert forall q :: Lists(o.items(InQueue(current, sources, q)), InQueue(current, sources, q));
    var removed := Removed(current, sources, Retain(ins, prefixes, sources));
    assert Lists(o.gone(removed), removed);
    assert Lists(o.gone(RestrictedSources(sources, prefixes)), RestrictedSources(sources, prefixes));
  }

  /** The queues of the plan by name. */
  lemma PlanLists(o: Orders, ins: Inputs, prefixes: seq<string>, sources: Sources)
    ensures var plan, current := PlanOf(o, ins, prefixes, sources), Current(ins, prefixes);
      && plan.add == o.items(InQueue(current, sources, ToAdd))
      && plan.update == o.items(InQueue(current, sources, ToUpdate))
      && plan.same == o.items(InQueue(current, sources, Unchanged))
      && plan.wouldFetch == o.items(InQueue(current, sources, ToFetch))
  {
  }

  /** The six places an imported source can be in. */
  datatype Place = Restricted | Same | Updated | Fetched | Deleted | Retained

  ghost predicate At(o: Orders, ins: Inputs, prefixes: seq<string>, sources: Sources, path: DocPath, place: Place) {
    var plan := PlanOf(o, ins, prefixes, sources);
    match place
    case Restricted => path in GonePaths(plan.restrict)
    case Same => path in Paths(plan.same)
    case Updated => path in Paths(plan.update)
    case Fetched => path in Paths(plan.wouldFetch)
    case Deleted => path in GonePaths(plan.delete)
    case Retained =>
      path !in (set item | item in Current(ins, prefixes) :: item.path) && path in Retain(ins, prefixes, sources)
  }

  ghost function ItemsAt(ins: Inputs, prefixes: seq<string>, path: DocPath): set<Item> {
    set item | item in Current(ins, prefixes) && item.path == path
  }

  /** Where the rules put an imported source. */
  ghost function PlaceOf(ins: Inputs, prefixes: seq<string>, sources: Sources, path: DocPath): Place
    requires path in sources
  {
    if IsRestrictedPath(path, prefixes) then Restricted
    else if ItemsAt(ins, prefixes, path) != {} then
      var item :| item in ItemsAt(ins, prefixes, path);
      match QueueOf(item, sources)
      case ToFetch => Fetched
      case Unchanged => Same
      case _ => Updated
    else if path in Retain(ins, prefixes, sources) then Retained
    else Deleted
  }

  lemma ItemsAtIsOne(ins: Inputs, prefixes: seq<string>, path: DocPath, a: Item, b: Item)
    requires a in ItemsAt(ins, prefixes, path) && b in ItemsAt(ins, prefixes, path)
    ensures a == b && !IsRestrictedPath(path, prefixes)
  {
    CurrentIsByPath(ins, prefixes, a, b);
  }

  lemma RetainUnrestricted(ins: Inputs, prefixes: seq<string>, sources: Sources, path: DocPath)
    requires path in Retain(ins, prefixes, sources)
    ensures !IsRestrictedPath(path, prefixes)
  {
    UnionMeans(ins.known, prefixes, LocalDocs(ins.docs, prefixes), path);
  }

  /** A queue of the plan names a path exactly when the path's one item belongs there. */
  lemma QueueNames(o: Orders, ins: Inputs, prefixes: seq<string>, sources: Sources, path: DocPath, q: Queue)
    requires Sound(o)
    ensures var items := o.items(InQueue(Current(ins, prefixes), sources, q));
      path in Paths(items) <==> exists item :: item in ItemsAt(ins, prefixes, path) && QueueOf(item, sources) == q
  {
    var wanted := InQueue(Current(ins, prefixes), sources, q);
    assert Lists(o.items(wanted), wanted);
    if item :| item in ItemsAt(ins, prefixes, path) && QueueOf(item, sources) == q {
      assert item in o.items(wanted);
    }
  }

  lemma RestrictNames(o: Orders, ins: Inputs, prefixes: seq<string>, sources: Sources, path: DocPath)
    requires Sound(o)
    ensures path in GonePaths(PlanOf(o, ins, prefixes, sources).restrict) <==> path in sources && IsRestrictedPath(path, prefixes)
  {
    PlanMembers(o, ins, prefixes, sources);
    if path in sources && IsRestrictedPath(path, prefixes) {
      assert Gone(path, sources[path].sha) in PlanOf(o, ins, prefixes, sources).restrict;
    }
  }

  function PlaceFor(q: Queue): Place {
    match q
    case ToFetch => Fetched
    case Unchanged => Same
    case _ => Updated
  }

  lemma PlaceOfItem(ins: Inputs, prefixes: seq<string>, sources: Sources, path: DocPath, item: Item)
    requires path in sources && item in ItemsAt(ins, prefixes, path)
    ensures PlaceOf(ins, prefixes, sources, path) == PlaceFor(QueueOf(item, sources))
    ensures !IsRestrictedPath(path, prefixes) && forall other :: other in ItemsAt(ins, prefixes, path) ==> other == item
  {
    hide IsRestrictedPath, QueueOf, ItemsAt, Retain;
    forall other | other in ItemsAt(ins, prefixes, path) ensures other == item && !IsRestrictedPath(path, prefixes) {
      ItemsAtIsOne(ins, prefixes, path, item, other);
    }
    ItemsAtIsOne(ins, prefixes, path, item, item);
  }

  lemma PartitionWithItem(o: Orders, ins: Inputs, prefixes: seq<string>, sources: Sources, path: DocPath, item: Item, place: Place)
    requires Sound(o) && path in sources && item in ItemsAt(ins, prefixes, path)
    ensures At(o, ins, prefixes, sources, path, place) <==> place == PlaceOf(ins, prefixes, sources, path)
  {
    RestrictNames(o, ins, prefixes, sources, path);
    DeletedIff(o, ins, prefixes, sources, path);
    NamedAt(ins, prefixes, path);
    RecordedIsNotAdded(ins, prefixes, sources, path);
    PlanLists(o, ins, prefixes, sources);
    PlaceOfItem(ins, prefixes, sources, path, item);
    hide PlanOf, PlaceOf, Current, Retain, ItemsAt, InQueue, GonePaths, Paths, IsRestrictedPath, QueueOf;
    QueueNames(o, ins, prefixes, sources, path, ToUpdate);
    QueueNames(o, ins, prefixes, sources, path, ToFetch);
    QueueNames(o, ins, prefixes, sources, path, Unchanged);
  }

  lemma PartitionWithout(o: Orders, ins: Inputs, prefixes: seq<string>, sources: Sources, path: DocPath, place: Place)
    requires Sound(o) && path in sources && ItemsAt(ins, prefixes, path) == {}
    ensures At(o, ins, prefixes, sources, path, place) <==> place == PlaceOf(ins, prefixes, sources, path)
  {
    RestrictNames(o, ins, prefixes, sources, path);
    DeletedIff(o, ins, prefixes, sources, path);
    NamedAt(ins, prefixes, path);
    PlanLists(o, ins, prefixes, sources);
    hide PlanOf, Current, Retain, ItemsAt, InQueue, GonePaths, Paths, IsRestrictedPath, QueueOf;
    QueueNames(o, ins, prefixes, sources, path, ToUpdate);
    QueueNames(o, ins, prefixes, sources, path, ToFetch);
    QueueNames(o, ins, prefixes, sources, path, Unchanged);
    if path in Retain(ins, prefixes, sources) {
      RetainUnrestricted(ins, prefixes, sources, path);
    }
  }

  /** Each imported source is in exactly one place of the plan, and never among the additions. */
  lemma ImportedPartition(o: Orders, ins: Inputs, prefixes: seq<string>, sources: Sources, path: DocPath)
    requires Sound(o) && path in sources
    ensures forall place :: At(o, ins, prefixes, sources, path, place) <==> place == PlaceOf(ins, prefixes, sources, path)
    ensures path !in Paths(PlanOf(o, ins, prefixes, sources).add)
  {
    PlanLists(o, ins, prefixes, sources);
    RecordedIsNotAdded(ins, prefixes, sources, path);
    QueueNames(o, ins, prefixes, sources, path, ToAdd);
    hide At, PlanOf, PlaceOf, Current, ItemsAt, InQueue, Paths, QueueOf;
    forall place
      ensures At(o, ins, prefixes, sources, path, place) <==> place == PlaceOf(ins, prefixes, sources, path)
    {
      if item :| item in ItemsAt(ins, prefixes, path) {
        PartitionWithItem(o, ins, prefixes, sources, path, item, place);
      } else {
        PartitionWithout(o, ins, prefixes, sources, path, place);
      }
    }
  }

  lemma RecordedIsNotAdded(ins: Inputs, prefixes: seq<string>, sources: Sources, path: DocPath)
    requires path in sources
    ensures forall item :: item in ItemsAt(ins, prefixes, path) ==> QueueOf(item, sources) != ToAdd
  {
    hide Current;
  }

  lemma NamedAt(ins: Inputs, prefixes: seq<string>, path: DocPath)
    ensures path in (set item | item in Current(ins, prefixes) :: item.path) <==> ItemsAt(ins, prefixes, path) != {}
  {
    hide Current;
    if item :| item in Current(ins, prefixes) && item.path == path {
      assert item in ItemsAt(ins, prefixes, path);
    }
  }

  /** What a source that is neither current, retained nor restricted comes to. */
  lemma DeletedIff(o: Orders, ins: Inputs, prefixes: seq<string>, sources: Sources, path: DocPath)
    requires Sound(o)
    ensures path in GonePaths(PlanOf(o, ins, prefixes, sources).delete) <==>
      && path in sources && !IsRestrictedPath(path, prefixes)
      && ItemsAt(ins, prefixes, path) == {} && path !in Retain(ins, prefixes, sources)
  {
    PlanMembers(o, ins, prefixes, sources);
    if path in sources && !IsRestrictedPath(path, prefixes) && ItemsAt(ins, prefixes, path) == {}
      && path !in Retain(ins, prefixes, sources)
    {
      assert forall item :: item in Current(ins, prefixes) ==> item.path != path || item in ItemsAt(ins, prefixes, path);
      assert Gone(path, sources[path].sha) in Removed(Current(ins, prefixes), sources, Retain(ins, prefixes, sources));
    }
  }
}
