/** String helpers shared by the models, with the few facts about them that the proofs need. */
module Text {

  datatype Option<+T> = None | Some(value: T)

  datatype Result<+T, +E> = Ok(value: T) | Err(error: E)

  function Elements<T(==)>(q: seq<T>): set<T> {
    set x | x in q
  }

  /** `q` names every element of `s`, each once. */
  ghost predicate Lists<T(!new)>(q: seq<T>, s: set<T>) {
    && (forall x :: x in q <==> x in s)
    && |q| == |s|
  }

  /** A listing has no repetition. */
  lemma {:induction false} ListsOnce<T(!new)>(q: seq<T>, s: set<T>, i: nat, j: nat)
    requires Lists(q, s) && i < j < |q|
    ensures q[i] != q[j]
  {
    assert s == set x | x in q;
    if q[i] == q[j] {
      FewerValues(q, j);
    }
  }

  lemma SetIsSmall<T(!new)>(q: seq<T>)
    ensures |set x | x in q| <= |q|
  {
    if q != [] {
      var rest := q[..|q| - 1];
      SetIsSmall(rest);
      assert (set x | x in q) == (set x | x in rest) + {q[|q| - 1]};
    }
  }

  lemma FewerValues<T(!new)>(q: seq<T>, j: nat)
    requires j < |q| && q[j] in q[..j]
    ensures |set x | x in q| < |q|
  {
    var rest := q[..j] + q[j + 1..];
    SetIsSmall(rest);
    assert (set x | x in q) == (set x | x in rest);
  }

  predicate StartsWith(s: string, prefix: string) {
    prefix <= s
  }

  predicate EndsWith(s: string, suffix: string) {
    |suffix| <= |s| && s[|s| - |suffix|..] == suffix
  }

  /** The elements of `lines`, with `sep` between every two of them. */
  function Join(lines: seq<string>, sep: string): string {
    if lines == [] then ""
    else if |lines| == 1 then lines[0]
    else lines[0] + sep + Join(lines[1..], sep)
  }

  /** The pieces of `s` between occurrences of `c`; there is always at least one. */
  function Split(s: string, c: char): (r: seq<string>)
    ensures |r| >= 1
    ensures forall piece :: piece in r ==> c !in piece
  {
    if s == "" then [""]
    else
      var rest := Split(s[1..], c);
      if s[0] == c then [""] + rest else [[s[0]] + rest[0]] + rest[1..]
  }

  /** Splitting at `c` undoes joining with `c`, when no line has `c` in it. */
  lemma {:induction false} SplitJoin(lines: seq<string>, c: char)
    requires lines != []
    requires forall line :: line in lines ==> c !in line
    ensures Split(Join(lines, [c]), c) == lines
  {
    if |lines| == 1 {
      SplitPlain(lines[0], c);
    } else {
      SplitJoin(lines[1..], c);
      SplitHead(lines[0], Join(lines[1..], [c]), c);
      assert Join(lines, [c]) == lines[0] + [c] + Join(lines[1..], [c]);
      assert [lines[0]] + lines[1..] == lines;
    }
  }

  lemma {:induction false} SplitPlain(s: string, c: char)
    requires c !in s
    ensures Split(s, c) == [s]
  {
    if s != "" {
      SplitPlain(s[1..], c);
      assert [s[0]] + s[1..] == s;
    }
  }

  lemma {:induction false} SplitHead(s: string, rest: string, c: char)
    requires c !in s
    ensures Split(s + [c] + rest, c) == [s] + Split(rest, c)
  {
    if s == "" {
      assert (s + [c] + rest)[1..] == rest;
    } else {
      SplitHead(s[1..], rest, c);
      assert (s + [c] + rest)[1..] == s[1..] + [c] + rest;
      assert [s[0]] + s[1..] == s;
    }
  }

  /** Joining undoes splitting, for every text. */
  lemma {:induction false} JoinSplit(s: string, c: char)
    ensures Join(Split(s, c), [c]) == s
  {
    if s != "" {
      JoinSplit(s[1..], c);
      var rest := Split(s[1..], c);
      if s[0] == c {
        assert Split(s, c) == [""] + rest && ([""] + rest)[1..] == rest;
        assert "" + [c] + Join(rest, [c]) == [c] + s[1..] == s;
      } else {
        var pieces := [[s[0]] + rest[0]] + rest[1..];
        assert pieces[1..] == rest[1..];
        if |rest| > 1 {
          assert [s[0]] + rest[0] + [c] + Join(rest[1..], [c]) == [s[0]] + (rest[0] + [c] + Join(rest[1..], [c]));
        }
        assert Join(pieces, [c]) == [s[0]] + Join(rest, [c]) == s;
      }
    }
  }
}
