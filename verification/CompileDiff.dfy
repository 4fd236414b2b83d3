/**
 * `limitCompileDiff` (repair.js): what is kept of a compile that touched more than it should have. `cites` says
 * whether a page's text cites the compiled source.
 */
module CompileDiff {
  import opened Text
  import opened WikiPath

  datatype Entry = Entry(text: string, symlink: bool)

  type Work = map<Path, Entry>

  function At(t: Work, rel: Path): Option<Entry> {
    if rel in t then Some(t[rel]) else None
  }

  predicate Differs(before: Work, now: Work, rel: Path) {
    At(before, rel) != At(now, rel)
  }

  /** `changedRelPaths`. */
  function Changed(before: Work, now: Work): (r: set<Path>)
    ensures forall rel :: rel in r <==> Differs(before, now, rel)
  {
    set rel | rel in before.Keys + now.Keys && Differs(before, now, rel)
  }

  predicate IsPage(rel: Path) {
    StartsWith(rel, PAGES)
  }

  function ChangedPages(before: Work, now: Work): (r: set<Path>)
    ensures forall rel :: rel in r <==> Differs(before, now, rel) && IsPage(rel)
  {
    set rel | rel in Changed(before, now) && IsPage(rel)
  }

  /** `restorePath`: the committed version, or nothing where there was none. */
  function Restored(before: Work, now: Work, rel: Path): Work {
    if rel in before then now[rel := before[rel]] else now - {rel}
  }

  /** Which file each name of the worktree stands for, and the files that have a name outside it too. */
  datatype Names = Names(ids: map<Path, nat>, outside: set<nat>)

  /** Two names of one file. */
  predicate Namesakes(links: Names, rel: Path, other: Path) {
    rel in links.ids && other in links.ids && other != rel && links.ids[other] == links.ids[rel]
  }

  /** `stat.nlink > 1`. */
  predicate Shared(links: Names, rel: Path) {
    rel in links.ids && (links.ids[rel] in links.outside || exists other :: other in links.ids && Namesakes(links, rel, other))
  }

  /** `rel` stands before `other` in the list, or `other` is not listed. */
  predicate Outlives(q: seq<Path>, rel: Path, other: Path) {
    other !in q || exists i, j :: 0 <= i < j < |q| && q[i] == rel && q[j] == other
  }

  /**
   * A path the compile should not have touched or turned into a link. The link count is read anew for every path:
   * of a file whose names are all listed, only the last one listed is no link any more when its turn comes.
   */
  predicate Wandered(now: Work, links: Names, q: seq<Path>, rel: Path) {
    || !IsAllowedWikiPath(rel)
    || (rel in now && now[rel].symlink)
    || (rel in links.ids && links.ids[rel] in links.outside)
    || exists other :: other in links.ids && Namesakes(links, rel, other) && Outlives(q, rel, other)
  }

  /** The order in which changed pages are given up, highest first. */
  function Rank(before: Work, now: Work, cites: string -> bool, rel: Path): nat {
    if rel !in now then 3
    else if cites(now[rel].text) then 0
    else if rel !in before then 1
    else 2
  }

  ghost predicate RanksRise(q: seq<Path>, before: Work, now: Work, cites: string -> bool) {
    forall i, j :: 0 <= i < j < |q| ==> Rank(before, now, cites, q[i]) <= Rank(before, now, cites, q[j])
  }

  /** `now` with the paths of `gone` put back. */
  ghost predicate PutBack(before: Work, now: Work, gone: set<Path>, r: Work) {
    forall rel :: At(r, rel) == At(if rel in gone then before else now, rel)
  }

  lemma PutBackOne(before: Work, now: Work, gone: set<Path>, r: Work, rel: Path)
    requires PutBack(before, now, gone, r)
    ensures PutBack(before, now, gone + {rel}, Restored(before, r, rel))
  {
  }

  /** The listing and the ranked sort that the code calls. */
  datatype Orders = Orders(list: set<Path> -> seq<Path>, rank: (Work, Work, set<Path>) -> seq<Path>)

  ghost predicate Sound(o: Orders, cites: string -> bool) {
    && (forall s :: Lists(o.list(s), s))
    && (forall before, now, s :: Lists(o.rank(before, now, s), s) && RanksRise(o.rank(before, now, s), before, now, cites))
  }

  method RestoreAll(before: Work, now: Work, q: seq<Path>) returns (r: Work)
    ensures PutBack(before, now, Elements(q), r)
  {
    r := now;
    for i := 0 to |q|
      invariant PutBack(before, now, Elements(q[..i]), r)
    {
      PutBackOne(before, now, Elements(q[..i]), r, q[i]);
      r := Restored(before, r, q[i]);
      assert Elements(q[..i + 1]) == Elements(q[..i]) + {q[i]};
    }
    assert q[..|q|] == q;
  }

  /** The changes of a compile that are inside the wiki and no links. */
  function Proper(before: Work, now: Work, links: Names, o: Orders): (r: set<Path>)
    ensures forall rel :: rel in r <==> Differs(before, now, rel) && !Wandered(now, links, o.list(Changed(before, now)), rel)
  {
    set rel | rel in Changed(before, now) && !Wandered(now, links, o.list(Changed(before, now)), rel)
  }

  function WanderedIn(done: seq<Path>, now: Work, links: Names, q: seq<Path>): set<Path> {
    set rel | rel in done && Wandered(now, links, q, rel)
  }

  /** The names that are left once the wandered ones of `done` are put back. */
  function Left(done: seq<Path>, now: Work, links: Names, q: seq<Path>): Names {
    links.(ids := links.ids - WanderedIn(done, now, links, q))
  }

  /** When its turn comes, a path is put back exactly if it wandered. */
  lemma TurnDecides(now: Work, links: Names, q: seq<Path>, i: nat)
    requires i < |q| && forall a, b :: 0 <= a < b < |q| ==> q[a] != q[b]
    requires links.ids.Keys <= now.Keys
    ensures Shared(Left(q[..i], now, links, q), q[i]) ==> q[i] in now
    ensures Wandered(now, links, q, q[i]) <==>
            !IsAllowedWikiPath(q[i]) || (q[i] in now && now[q[i]].symlink) || Shared(Left(q[..i], now, links, q), q[i])
  {
    hide IsAllowedWikiPath;
    var rel, left := q[i], Left(q[..i], now, links, q);
    assert rel !in q[..i];
    forall other | other in links.ids && Namesakes(links, rel, other)
      ensures other in left.ids <==> Outlives(q, rel, other)
    {
      if a :| 0 <= a < |q| && q[a] == other {
        if a < i {
          assert Namesakes(links, other, rel) && Outlives(q, other, rel);
          assert q[..i][a] == other;
        } else {
          assert other !in q[..i];
          assert q[i] == rel && q[a] == other && i < a;
        }
      }
    }
    assert forall other :: other in left.ids && Namesakes(left, rel, other) ==> Namesakes(links, rel, other);
    assert forall other :: other in left.ids && Namesakes(links, rel, other) ==> Namesakes(left, rel, other);
  }

  /** `rel` is listed after `other`. */
  predicate ListedAfter(q: seq<Path>, rel: Path, other: Path) {
    exists i, j :: 0 <= i < j < |q| && q[i] == other && q[j] == rel
  }

  /** Of the names of one file, a changed page in the wiki stays exactly if every other name is listed before it. */
  lemma GroupKeepsLast(before: Work, now: Work, links: Names, o: Orders, cites: string -> bool, rel: Path)
    requires Sound(o, cites) && Differs(before, now, rel) && rel in links.ids && links.ids[rel] !in links.outside
    requires IsAllowedWikiPath(rel) && (rel in now ==> !now[rel].symlink)
    ensures rel in Proper(before, now, links, o) <==>
            forall other :: other in links.ids && Namesakes(links, rel, other) ==>
              ListedAfter(o.list(Changed(before, now)), rel, other)
  {
    hide IsAllowedWikiPath;
    var q := o.list(Changed(before, now));
    forall a, b | 0 <= a < b < |q| ensures q[a] != q[b] { ListsOnce(q, Changed(before, now), a, b); }
    assert rel in q;
    forall other | other in links.ids && Namesakes(links, rel, other)
      ensures Outlives(q, rel, other) <==> !ListedAfter(q, rel, other)
    {
      OrderOf(q, rel, other);
    }
  }

  lemma OrderOf(q: seq<Path>, rel: Path, other: Path)
    requires rel in q && rel != other && forall a, b :: 0 <= a < b < |q| ==> q[a] != q[b]
    ensures Outlives(q, rel, other) <==> !ListedAfter(q, rel, other)
  {
    if other in q {
      var i :| 0 <= i < |q| && q[i] == rel;
      var j :| 0 <= j < |q| && q[j] == other;
      if i < j {
        assert Outlives(q, rel, other);
      } else {
        assert ListedAfter(q, rel, other);
      }
    }
  }

  /** The first loop: links and paths outside the wiki are put back, and the link counts fall as it goes. */
  method RestoreWandered(before: Work, now: Work, links: Names, o: Orders, cites: string -> bool) returns (r: Work)
    requires Sound(o, cites) && links.ids.Keys <= now.Keys
    ensures PutBack(before, now, Changed(before, now) - Proper(before, now, links, o), r)
  {
    hide IsAllowedWikiPath, Wandered, Shared, Left, WanderedIn;
    r := now;
    var q, names := o.list(Changed(before, now)), links;
    forall a, b | 0 <= a < b < |q| ensures q[a] != q[b] { ListsOnce(q, Changed(before, now), a, b); }
    NoTurnYet(now, links, q);
    assert q[..0] == [];
    for i := 0 to |q|
      invariant PutBack(before, now, WanderedIn(q[..i], now, links, q), r)
      invariant names == Left(q[..i], now, links, q)
    {
      var rel := q[i];
      TurnDecides(now, links, q, i);
      TurnAdds(now, links, q, i);
      assert At(r, rel) == At(now, rel);
      if (rel in r && (r[rel].symlink || Shared(names, rel))) || !IsAllowedWikiPath(rel) {
        PutBackOne(before, now, WanderedIn(q[..i], now, links, q), r, rel);
        r := Restored(before, r, rel);
        names := names.(ids := names.ids - {rel});
      }
    }
    assert q[..|q|] == q;
    AllTurns(before, now, links, o, cites);
  }

  lemma NoTurnYet(now: Work, links: Names, q: seq<Path>)
    ensures WanderedIn([], now, links, q) == {} && Left([], now, links, q) == links
  {
    hide Wandered;
    assert links.ids - {} == links.ids;
  }

  lemma TurnAdds(now: Work, links: Names, q: seq<Path>, i: nat)
    requires i < |q| && forall a, b :: 0 <= a < b < |q| ==> q[a] != q[b]
    ensures q[i] !in WanderedIn(q[..i], now, links, q)
    ensures Wandered(now, links, q, q[i]) ==>
              && WanderedIn(q[..i + 1], now, links, q) == WanderedIn(q[..i], now, links, q) + {q[i]}
              && Left(q[..i + 1], now, links, q)
                 == var left := Left(q[..i], now, links, q); left.(ids := left.ids - {q[i]})
    ensures !Wandered(now, links, q, q[i]) ==>
              && WanderedIn(q[..i + 1], now, links, q) == WanderedIn(q[..i], now, links, q)
              && Left(q[..i + 1], now, links, q) == Left(q[..i], now, links, q)
  {
    hide Wandered;
    assert q[..i + 1] == q[..i] + [q[i]];
    assert q[i] !in q[..i];
  }

  lemma AllTurns(before: Work, now: Work, links: Names, o: Orders, cites: string -> bool)
    requires Sound(o, cites)
    ensures var q := o.list(Changed(before, now));
            WanderedIn(q, now, links, q) == Changed(before, now) - Proper(before, now, links, o)
  {
    hide Wandered;
    assert Lists(o.list(Changed(before, now)), Changed(before, now));
  }

  function ProperPages(before: Work, now: Work, links: Names, o: Orders): (r: set<Path>)
    ensures forall rel :: rel in r <==> Differs(before, now, rel) && !Wandered(now, links, o.list(Changed(before, now)), rel) && IsPage(rel)
  {
    set rel | rel in Proper(before, now, links, o) && IsPage(rel)
  }

  /** The kept changes: proper ones, `kept` of the pages and everything that is no page. */
  ghost predicate Limited(before: Work, now: Work, links: Names, o: Orders, kept: set<Path>, r: Work) {
    forall rel ::
      At(r, rel) == At(if rel in Proper(before, now, links, o) && (IsPage(rel) ==> rel in kept) then now else before, rel)
  }

  /** `limitCompileDiff`; no cap stands for the Infinity a deletion passes. */
  method LimitCompileDiff(before: Work, now: Work, links: Names, o: Orders, cites: string -> bool, cap: Option<nat>)
    returns (r: Work)
    requires Sound(o, cites) && links.ids.Keys <= now.Keys
    ensures Limited(before, now, links, o, ChangedPages(before, r), r)
    ensures ChangedPages(before, r) <= ProperPages(before, now, links, o)
    ensures cap.None? || |ProperPages(before, now, links, o)| <= cap.value ==>
              ChangedPages(before, r) == ProperPages(before, now, links, o)
    ensures cap.Some? && |ProperPages(before, now, links, o)| > cap.value ==>
              |ChangedPages(before, r)| == cap.value && KeptFirst(before, now, links, o, cites, ChangedPages(before, r))
  {
    hide Wandered, Differs, Rank, PutBack, RanksRise, Limited, IsPage;
    r := RestoreWandered(before, now, links, o, cites);
    ProperPart(before, now, links, o, r);
    var pages := ChangedPages(before, r);
    if cap.None? || |pages| <= cap.value {
      NothingGivenUp(before, now, links, o, r);
      return;
    }
    var proper, ranked := r, o.rank(before, r, pages);
    r := RestoreAll(before, proper, ranked[cap.value..]);
    ghost var kept := Elements(ranked[..cap.value]);
    KeepsTheFirst(ranked, pages, cap.value);
    assert pages - (pages - kept) == kept;
    SomeGivenUp(before, now, links, o, proper, Elements(ranked[cap.value..]), r);
    KeptAreChanged(before, now, links, o, kept, r);
    FirstRankLower(before, now, links, o, proper, ranked, cap.value, cites);
  }

  /** No page that is kept ranks after one that is given up. */
  ghost predicate KeptFirst(before: Work, now: Work, links: Names, o: Orders, cites: string -> bool, kept: set<Path>) {
    forall k, g :: k in kept && g in ProperPages(before, now, links, o) - kept ==>
      Rank(before, now, cites, k) <= Rank(before, now, cites, g)
  }

  lemma KeptAreChanged(before: Work, now: Work, links: Names, o: Orders, kept: set<Path>, r: Work)
    requires kept <= ProperPages(before, now, links, o) && Limited(before, now, links, o, kept, r)
    ensures ChangedPages(before, r) == kept
  {
    hide Wandered;
  }

  lemma ProperPart(before: Work, now: Work, links: Names, o: Orders, proper: Work)
    requires PutBack(before, now, Changed(before, now) - Proper(before, now, links, o), proper)
    ensures ChangedPages(before, proper) == ProperPages(before, now, links, o)
  {
    hide Wandered;
  }

  lemma NothingGivenUp(before: Work, now: Work, links: Names, o: Orders, proper: Work)
    requires PutBack(before, now, Changed(before, now) - Proper(before, now, links, o), proper)
    ensures Limited(before, now, links, o, ProperPages(before, now, links, o), proper)
  {
    hide Wandered;
  }

  lemma SomeGivenUp(before: Work, now: Work, links: Names, o: Orders, proper: Work, gone: set<Path>, r: Work)
    requires PutBack(before, now, Changed(before, now) - Proper(before, now, links, o), proper)
    requires gone <= ProperPages(before, now, links, o) && PutBack(before, proper, gone, r)
    ensures Limited(before, now, links, o, ProperPages(before, now, links, o) - gone, r)
  {
    hide Wandered;
  }

  lemma FirstRankLower(before: Work, now: Work, links: Names, o: Orders, proper: Work, q: seq<Path>, n: nat, cites: string -> bool)
    requires PutBack(before, now, Changed(before, now) - Proper(before, now, links, o), proper)
    requires Lists(q, ProperPages(before, now, links, o)) && RanksRise(q, before, proper, cites) && n <= |q|
    ensures forall k, g :: k in Elements(q[..n]) && g in Elements(q[n..]) ==>
              Rank(before, now, cites, k) <= Rank(before, now, cites, g)
  {
    hide Wandered, Differs, RanksRise;
    forall k, g | k in Elements(q[..n]) && g in Elements(q[n..])
      ensures Rank(before, now, cites, k) <= Rank(before, now, cites, g)
    {
      var i :| 0 <= i < n && q[i] == k;
      var j :| n <= j < |q| && q[j] == g;
      Rises(q, before, proper, cites, i, j);
      assert At(proper, k) == At(now, k) && At(proper, g) == At(now, g);
    }
  }

  lemma Rises(q: seq<Path>, before: Work, now: Work, cites: string -> bool, i: nat, j: nat)
    requires RanksRise(q, before, now, cites) && i < j < |q|
    ensures Rank(before, now, cites, q[i]) <= Rank(before, now, cites, q[j])
  {
  }

  lemma KeepsTheFirst(q: seq<Path>, s: set<Path>, n: nat)
    requires Lists(q, s) && n <= |q|
    ensures |Elements(q[..n])| == n && Elements(q[..n]) <= s && Elements(q[n..]) == s - Elements(q[..n])
  {
    forall i, j | 0 <= i < j < |q| ensures q[i] != q[j] { ListsOnce(q, s, i, j); }
    CountFirst(q, n);
    assert forall i, j :: 0 <= i < n <= j < |q| ==> q[i] != q[j];
    forall x | x in s - Elements(q[..n]) ensures x in q[n..] {
      assert q == q[..n] + q[n..];
    }
  }

  lemma {:induction false} CountFirst(q: seq<Path>, n: nat)
    requires n <= |q| && forall i, j :: 0 <= i < j < |q| ==> q[i] != q[j]
    ensures |Elements(q[..n])| == n
  {
    if n > 0 {
      CountFirst(q, n - 1);
      assert Elements(q[..n]) == Elements(q[..n - 1]) + {q[n - 1]};
    }
  }

  /** What the limit guarantees about the changes it leaves, and that a page citing the source goes last. */
  lemma LimitMeans(before: Work, now: Work, links: Names, o: Orders, r: Work, cites: string -> bool, g: Path)
    requires Sound(o, cites) && links.ids.Keys <= now.Keys
    requires var kept := ChangedPages(before, r);
             && kept <= ProperPages(before, now, links, o) && Limited(before, now, links, o, kept, r)
             && KeptFirst(before, now, links, o, cites, kept)
    ensures forall rel :: Differs(before, r, rel) ==>
              && IsAllowedWikiPath(rel) && At(r, rel) == At(now, rel)
              && (rel in r ==> !r[rel].symlink)
              && (rel in links.ids ==> links.ids[rel] !in links.outside)
              && forall other :: Namesakes(links, rel, other) ==> Differs(before, now, other) && !Differs(before, r, other)
    ensures g in ProperPages(before, now, links, o) && !Differs(before, r, g) && g in now && cites(now[g].text) ==>
              forall kept :: kept in ChangedPages(before, r) ==> kept in now && cites(now[kept].text)
  {
    hide IsAllowedWikiPath;
    forall rel | Differs(before, r, rel) ensures At(r, rel) == At(now, rel) && !Wandered(now, links, o.list(Changed(before, now)), rel) {
    }
    var kept := ChangedPages(before, r);
    if g in ProperPages(before, now, links, o) && !Differs(before, r, g) && g in now && cites(now[g].text) {
      assert g in ProperPages(before, now, links, o) - kept;
      forall page | page in kept ensures page in now && cites(now[page].text) {
        assert Rank(before, now, cites, page) <= Rank(before, now, cites, g);
      }
    }
  }
}
