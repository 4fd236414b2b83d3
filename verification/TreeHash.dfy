/**
 * `hashEntries` (publish.js): one digest for a whole file map. Two maps get the same digest
 * exactly when they are the same map.
 */
module TreeHash {
  import opened Text
  import opened WikiPath

  /** SHA-256 and the collation order of names, as the code uses them. */
  datatype Hasher = Hasher(sha: string -> string, order: set<Path> -> seq<Path>)

  /** The digest has no collision and its text is hexadecimal; the order lists every name once. */
  ghost predicate Sound(h: Hasher) {
    && (forall a, b {:trigger h.sha(a), h.sha(b)} :: h.sha(a) == h.sha(b) ==> a == b)
    && (forall a {:trigger h.sha(a)} :: '\n' !in h.sha(a))
    && (forall s {:trigger h.order(s)} :: Lists(h.order(s), s))
  }

  /** One line of the hashed text. */
  function EntryLine(rel: Path, hash: string): string {
    rel + "\0" + hash
  }

  function EntryLines(h: Hasher, rels: seq<Path>, t: Tree): (lines: seq<string>)
    requires forall rel :: rel in rels ==> rel in t
  {
    if rels == [] then []
    else [EntryLine(rels[0], h.sha(t[rels[0]]))] + EntryLines(h, rels[1..], t)
  }

  function HashEntries(h: Hasher, t: Tree): string
    requires Sound(h)
  {
    assert Lists(h.order(t.Keys), t.Keys);
    h.sha(Join(EntryLines(h, h.order(t.Keys), t), "\n"))
  }

  /** Where `c` first is in `s`, or the length of `s`. */
  function Find(s: string, c: char): nat {
    if s == "" || s[0] == c then 0 else 1 + Find(s[1..], c)
  }

  lemma {:induction false} FindSkips(a: string, x: string, c: char)
    requires c !in a
    requires x == "" || x[0] == c
    ensures Find(a + x, c) == |a|
  {
    if a == "" {
      assert a + x == x;
    } else {
      assert (a + x)[1..] == a[1..] + x;
      FindSkips(a[1..], x, c);
    }
  }

  /** A text has one way to be cut at its first `c`. */
  lemma CutOnce(a: string, x: string, b: string, y: string, c: char)
    requires c !in a && c !in b
    requires x == "" || x[0] == c
    requires y == "" || y[0] == c
    requires a + x == b + y
    ensures a == b && x == y
  {
    FindSkips(a, x, c);
    FindSkips(b, y, c);
    assert a == (a + x)[..|a|] && b == (b + y)[..|b|];
    assert x == (a + x)[|a|..] && y == (b + y)[|b|..];
  }

  /** What follows the name of the first entry. */
  function Tail(h: Hasher, r: seq<Path>, t: Tree): string
    requires r != []
    requires forall rel :: rel in r ==> rel in t
  {
    if |r| == 1 then "" else "\n" + Join(EntryLines(h, r[1..], t), "\n")
  }

  lemma EntryHead(h: Hasher, r: seq<Path>, t: Tree)
    requires forall rel :: rel in r ==> rel in t
    requires r != []
    ensures Join(EntryLines(h, r, t), "\n") == r[0] + ("\0" + (h.sha(t[r[0]]) + Tail(h, r, t)))
  {
    var lines, head, rest := EntryLines(h, r, t), EntryLine(r[0], h.sha(t[r[0]])), EntryLines(h, r[1..], t);
    assert lines == [head] + rest && (rest == [] <==> |r| == 1);
    hide EntryLines, Join;
    JoinHead(head, rest);
    RegroupText(r[0], "\0", h.sha(t[r[0]]), Tail(h, r, t));
  }

  lemma RegroupText(a: string, b: string, c: string, d: string)
    ensures a + b + c + d == a + (b + (c + d))
  {
  }

  lemma JoinHead(head: string, rest: seq<string>)
    ensures Join([head] + rest, "\n") == head + if rest == [] then "" else "\n" + Join(rest, "\n")
  {
    assert ([head] + rest)[1..] == rest;
    assert head + "\n" + Join(rest, "\n") == head + ("\n" + Join(rest, "\n"));
    if rest == [] {
      assert [head] + rest == [head];
    }
  }

  /** The hashed text determines the names and the contents, even if a name holds a line feed. */
  lemma {:induction false} LinesDetermineEntries(h: Hasher, r: seq<Path>, t: Tree, r': seq<Path>, t': Tree)
    requires Sound(h)
    requires forall rel :: rel in r ==> rel in t && '\0' !in rel
    requires forall rel :: rel in r' ==> rel in t' && '\0' !in rel
    requires Join(EntryLines(h, r, t), "\n") == Join(EntryLines(h, r', t'), "\n")
    ensures r == r' && forall rel :: rel in r ==> t[rel] == t'[rel]
    decreases |r|
  {
    if r != [] {
      EntryHead(h, r, t);
    }
    if r' != [] {
      EntryHead(h, r', t');
    }
    if r != [] && r' != [] {
      var d, d' := h.sha(t[r[0]]), h.sha(t'[r'[0]]);
      CutOnce(r[0], "\0" + (d + Tail(h, r, t)), r'[0], "\0" + (d' + Tail(h, r', t')), '\0');
      assert ("\0" + (d + Tail(h, r, t)))[1..] == d + Tail(h, r, t);
      assert ("\0" + (d' + Tail(h, r', t')))[1..] == d' + Tail(h, r', t');
      CutOnce(d, Tail(h, r, t), d', Tail(h, r', t'), '\n');
      if |r| > 1 {
        assert Tail(h, r, t)[1..] == Join(EntryLines(h, r[1..], t), "\n");
        assert Tail(h, r', t')[1..] == Join(EntryLines(h, r'[1..], t'), "\n");
        LinesDetermineEntries(h, r[1..], t, r'[1..], t');
      }
      assert r == [r[0]] + r[1..] && r' == [r'[0]] + r'[1..];
    }
  }

  /** The digest of a file map identifies the map. */
  lemma HashEntriesInjective(h: Hasher, t: Tree, t': Tree)
    requires Sound(h)
    requires forall rel :: rel in t ==> '\0' !in rel
    requires forall rel :: rel in t' ==> '\0' !in rel
    ensures HashEntries(h, t) == HashEntries(h, t') <==> t == t'
  {
    if HashEntries(h, t) == HashEntries(h, t') {
      var r, r' := h.order(t.Keys), h.order(t'.Keys);
      assert Lists(r, t.Keys) && Lists(r', t'.Keys);
      LinesDetermineEntries(h, r, t, r', t');
      assert t.Keys == t'.Keys;
    }
  }
}
