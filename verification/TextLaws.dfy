/**
 * What the readers of links, headings and index lines match, told from the characters: each regular expression
 * as the pieces a text must be made of, and what replacing or collecting the matches then gives.
 */
module TextLaws {
  import opened Text
  import opened Whitespace
  import opened Links
  import opened Headings
  import opened WikiIndex

  // ---------------------------------------------------------------- white space and lines

  /** The white space of ECMA-262, section 22.1.3.32, character by character. */
  lemma SpaceIff(c: char)
    ensures IsSpace(c) <==>
            || c in "\t\n\U{B}\U{C}\r \U{A0}\U{1680}\U{2028}\U{2029}\U{202F}\U{205F}\U{3000}\U{FEFF}"
            || c in "\U{2000}\U{2001}\U{2002}\U{2003}\U{2004}\U{2005}\U{2006}\U{2007}\U{2008}\U{2009}\U{200A}"
    ensures IsLineTerminator(c) <==> c in "\n\r\U{2028}\U{2029}"
  {
  }

  predicate Blanks(s: string) {
    forall c :: c in s ==> IsSpace(c)
  }

  lemma {:induction false} LeftBlanks(s: string)
    ensures |TrimLeft(s)| <= |s| && Blanks(s[..|s| - |TrimLeft(s)|])
  {
    TrimLeftSuffix(s);
    if s != "" && IsSpace(s[0]) {
      LeftBlanks(s[1..]);
      TrimLeftSuffix(s[1..]);
      assert s[..|s| - |TrimLeft(s)|] == [s[0]] + s[1..][..|s[1..]| - |TrimLeft(s[1..])|];
    }
  }

  lemma {:induction false} LeftOfBlanks(a: string, s: string)
    requires Blanks(a)
    ensures TrimLeft(a + s) == TrimLeft(s)
  {
    if a == "" {
      assert a + s == s;
    } else {
      assert (a + s)[1..] == a[1..] + s;
      LeftOfBlanks(a[1..], s);
    }
  }

  lemma {:induction false} RightBlanks(s: string)
    ensures |TrimRight(s)| <= |s| && Blanks(s[|TrimRight(s)|..])
  {
    TrimRightPrefix(s);
    if s != "" && IsSpace(s[|s| - 1]) {
      RightBlanks(s[..|s| - 1]);
      TrimRightPrefix(s[..|s| - 1]);
      assert s[|TrimRight(s)|..] == s[..|s| - 1][|TrimRight(s)|..] + [s[|s| - 1]];
    }
  }

  lemma {:induction false} RightOfBlanks(s: string, b: string)
    requires Blanks(b)
    ensures TrimRight(s + b) == TrimRight(s)
  {
    if b == "" {
      assert s + b == s;
    } else {
      assert (s + b)[..|s + b| - 1] == s + b[..|b| - 1];
      RightOfBlanks(s, b[..|b| - 1]);
    }
  }

  lemma TrimLeaves(s: string) returns (a: string, b: string)
    ensures Blanks(a) && Blanks(b) && s == a + Trim(s) + b
  {
    var left := TrimLeft(s);
    LeftBlanks(s);
    TrimLeftSuffix(s);
    RightBlanks(left);
    TrimRightPrefix(left);
    hide TrimLeft, TrimRight, Blanks;
    a, b := s[..|s| - |left|], left[|TrimRight(left)|..];
  }

  lemma TrimOf(a: string, t: string, b: string)
    requires Blanks(a) && Blanks(b) && IsTrimmed(t)
    ensures Trim(a + t + b) == t
  {
    assert a + t + b == a + (t + b);
    LeftOfBlanks(a, t + b);
    if t == "" {
      assert t + b == b && b == b + "";
      LeftOfBlanks(b, "");
    } else {
      RightOfBlanks(t, b);
    }
  }

  /** Trimming takes white space off both ends, all of it and nothing else. */
  lemma TrimIff(s: string, t: string)
    ensures Trim(s) == t <==> IsTrimmed(t) && exists a, b :: Blanks(a) && Blanks(b) && s == a + t + b
  {
    hide Blanks, TrimLeft, TrimRight, IsTrimmed;
    TrimTrims(s);
    var a, b := TrimLeaves(s);
    forall a, b | Blanks(a) && Blanks(b) && s == a + t + b && IsTrimmed(t) ensures Trim(s) == t {
      TrimOf(a, t, b);
    }
  }

  // ---------------------------------------------------------------- links

  predicate Without(s: string, stops: string) {
    forall c :: c in s ==> c !in stops
  }

  ghost predicate Optional(s: string, mark: char, stops: string) {
    s == "" || (|s| > 1 && s[0] == mark && Without(s[1..], stops))
  }

  /** The text starts with a link: a target, a hash and a label, the last two if they are there. */
  ghost predicate IsLink(text: string, link: Link, hash: string, alias: string) {
    && text == "[[" + (link.target + (hash + (alias + ("]]" + link.rest))))
    && link.target != "" && Without(link.target, "]|#")
    && Optional(hash, '#', "]|") && Optional(alias, '|', "]")
    && link.alias == if alias == "" then None else Some(alias[1..])
  }

  lemma {:induction false} SpanIs(s: string, stops: string, part: string)
    requires part <= s && Without(part, stops) && (part == s || s[|part|] in stops)
    ensures Links.Span(s, stops) == part
  {
    if part != "" {
      SpanIs(s[1..], stops, part[1..]);
      assert part == [s[0]] + part[1..];
    }
  }

  lemma {:induction false} SpanFits(s: string, stops: string)
    ensures var part := Links.Span(s, stops); part <= s && Without(part, stops) && (part == s || s[|part|] in stops)
  {
    if s != "" && s[0] !in stops {
      SpanFits(s[1..], stops);
      var part, rest := Links.Span(s, stops), Links.Span(s[1..], stops);
      assert part == [s[0]] + rest;
      if rest != s[1..] {
        assert s[|part|] == s[1..][|rest|];
      }
    }
  }

  lemma PartFits(s: string, mark: char, stops: string)
    ensures var part := Links.Part(s, mark, stops); part <= s && Optional(part, mark, stops)
  {
    if s != "" && s[0] == mark {
      SpanFits(s[1..], stops);
      var inner := Links.Span(s[1..], stops);
      hide Without, Links.Span;
      assert s == [mark] + s[1..];
      assert ([mark] + inner)[1..] == inner;
    }
  }

  lemma PartIs(s: string, mark: char, stops: string, part: string)
    requires part <= s && Optional(part, mark, stops) && |part| < |s| && s[|part|] in stops
    requires part == "" ==> s[0] != mark
    ensures Links.Part(s, mark, stops) == part
  {
    if part != "" {
      SpanIs(s[1..], stops, part[1..]);
      assert part == [mark] + part[1..];
    }
  }

  lemma MatchParts(text: string) returns (target: string, hash: string, alias: string, closing: string)
    requires MatchLink(text).Some?
    ensures "[[" <= text && target == Links.Span(text[2..], "]|#") && target != "" && |target| <= |text| - 2
    ensures hash == Links.Part(text[2..][|target|..], '#', "]|") && |hash| <= |text| - 2 - |target|
    ensures alias == Links.Part(text[2..][|target|..][|hash|..], '|', "]") && |alias| <= |text| - 2 - |target| - |hash|
    ensures closing == text[2..][|target|..][|hash|..][|alias|..] && "]]" <= closing
    ensures MatchLink(text) == Some(Link(target, if alias == "" then None else Some(alias[1..]), closing[2..]))
  {
    hide Links.Part, Links.Span;
    target := Links.Span(text[2..], "]|#");
    assert text[2 + |target|..] == text[2..][|target|..];
    hash := Links.Part(text[2..][|target|..], '#', "]|");
    alias := Links.Part(text[2..][|target|..][|hash|..], '|', "]");
    closing := text[2..][|target|..][|hash|..][|alias|..];
  }

  lemma MatchIsLink(text: string)
    requires MatchLink(text).Some?
    ensures exists hash, alias :: IsLink(text, MatchLink(text).value, hash, alias)
  {
    hide MatchLink, Links.Part, Links.Span, Without, Optional;
    var target, hash, alias, closing := MatchParts(text);
    var hashed := text[2..][|target|..];
    var piped := hashed[|hash|..];
    SpanFits(text[2..], "]|#");
    PartFits(hashed, '#', "]|");
    PartFits(piped, '|', "]");
    Prefixed(text, "[[", text[2..]);
    Prefixed(text[2..], target, hashed);
    Prefixed(hashed, hash, piped);
    Prefixed(piped, alias, closing);
    Prefixed(closing, "]]", closing[2..]);
    assert IsLink(text, MatchLink(text).value, hash, alias);
  }

  lemma Prefixed(s: string, a: string, b: string)
    requires a <= s && b == s[|a|..]
    ensures s == a + b
  {
  }

  lemma LinkMatches(text: string, link: Link, hash: string, alias: string)
    requires IsLink(text, link, hash, alias)
    ensures MatchLink(text) == Some(link)
  {
    hide Links.Part, Links.Span, Without, Optional, MatchLink;
    var closing := "]]" + link.rest;
    var piped := alias + closing;
    var hashed := hash + piped;
    FirstOf(hash, alias, link.rest);
    Cut("[[", link.target + hashed, text);
    Cut(link.target, hashed, text[2..]);
    SpanIs(text[2..], "]|#", link.target);
    Cut(hash, piped, hashed);
    PartIs(hashed, '#', "]|", hash);
    Cut(alias, closing, piped);
    PartIs(piped, '|', "]", alias);
    Cut("]]", link.rest, closing);
    Assembled(text, link, hash, alias);
  }

  lemma Assembled(text: string, link: Link, hash: string, alias: string)
    requires "[[" <= text && link.target != "" && link.alias == if alias == "" then None else Some(alias[1..])
    requires Links.Span(text[2..], "]|#") == link.target
    requires Links.Part(text[2..][|link.target|..], '#', "]|") == hash
    requires Links.Part(text[2..][|link.target|..][|hash|..], '|', "]") == alias
    requires var closing := text[2..][|link.target|..][|hash|..][|alias|..]; "]]" <= closing && link.rest == closing[2..]
    ensures MatchLink(text) == Some(link)
  {
    hide Links.Part, Links.Span;
    assert text[2 + |link.target|..] == text[2..][|link.target|..];
  }

  lemma Cut(a: string, b: string, s: string)
    requires s == a + b
    ensures a <= s && s[|a|..] == b && (b != "" ==> |a| < |s| && s[|a|] == b[0])
  {
  }

  lemma FirstOf(hash: string, alias: string, rest: string)
    requires Optional(hash, '#', "]|") && Optional(alias, '|', "]")
    ensures var closing := "]]" + rest; var piped := alias + closing; var hashed := hash + piped;
            && (hashed[0] == ']' || hashed[0] == '|' || hashed[0] == '#')
            && (piped[0] == ']' || piped[0] == '|') && (hash == "" ==> hashed[0] != '#')
            && closing[0] == ']' && (alias == "" ==> piped[0] != '|')
  {
    hide Without;
  }

  /** A link is matched exactly when the text is made of its pieces. */
  lemma LinkIff(text: string, link: Link)
    ensures MatchLink(text) == Some(link) <==> exists hash, alias :: IsLink(text, link, hash, alias)
  {
    hide MatchLink, IsLink;
    if MatchLink(text).Some? { MatchIsLink(text); }
    forall hash, alias | IsLink(text, link, hash, alias) ensures MatchLink(text) == Some(link) {
      LinkMatches(text, link, hash, alias);
    }
  }

  /** No link starts before position `n`. */
  ghost predicate NoLinkBefore(text: string, n: nat) {
    forall i, link, hash, alias :: 0 <= i < n && i <= |text| ==> !IsLink(text[i..], link, hash, alias)
  }

  lemma {:induction false} DropSkips(text: string, n: nat, resolves: string -> bool)
    requires n <= |text| && NoLinkBefore(text, n)
    ensures DropDead(text, resolves) == text[..n] + DropDead(text[n..], resolves)
    ensures HasDead(text, resolves) == HasDead(text[n..], resolves)
  {
    hide MatchLink, IsLink, DropDead, HasDead;
    assert text[0..] == text;
    if n > 0 {
      assert MatchLink(text).None? by {
        if MatchLink(text).Some? { LinkIff(text, MatchLink(text).value); }
      }
      DropOne(text, resolves);
      forall i, link, hash, alias | 0 <= i < n - 1 ensures !IsLink(text[1..][i..], link, hash, alias) {
        assert text[1..][i..] == text[i + 1..];
      }
      DropSkips(text[1..], n - 1, resolves);
      assert text[1..][n - 1..] == text[n..] && [text[0]] + text[1..][..n - 1] == text[..n];
    }
  }

  /** Dropping the links of a text without one leaves it as it is. */
  lemma NothingToDrop(text: string, resolves: string -> bool)
    requires NoLinkBefore(text, |text|)
    ensures DropDead(text, resolves) == text && !HasDead(text, resolves)
  {
    DropSkips(text, |text|, resolves);
    assert text[|text|..] == "" && text[..|text|] == text;
  }

  /** What becomes of a link: it stays as `written`, or its label or else its target is left, trimmed. */
  function Remains(written: string, link: Link, alias: string, resolves: string -> bool): string {
    if resolves(link.target) then written
    else if alias == "" then Trim(link.target)
    else Trim(alias[1..])
  }

  /**
   * The first link of a text stays, if it leads somewhere, and otherwise becomes its label, or without one its
   * target, trimmed; what is before it stays, and what is after it is treated alike.
   */
  lemma FirstLinkDrops(text: string, n: nat, link: Link, hash: string, alias: string, resolves: string -> bool)
    requires n <= |text| && NoLinkBefore(text, n) && IsLink(text[n..], link, hash, alias)
    ensures |link.rest| <= |text| - n
    ensures var written := text[n..][..|text| - n - |link.rest|];
            DropDead(text, resolves) == text[..n] + (Remains(written, link, alias, resolves) + DropDead(link.rest, resolves))
    ensures HasDead(text, resolves) <==> !resolves(link.target) || HasDead(link.rest, resolves)
  {
    hide *;
    LinkMatches(text[n..], link, hash, alias);
    LinkShape(text[n..], link, hash, alias);
    DropSkips(text, n, resolves);
    DropFirst(text[n..], link, alias, resolves);
  }

  lemma Joined(a: string, b: string, c: string)
    ensures a + (b + c) == a + b + c
  {
  }

  lemma LinkShape(text: string, link: Link, hash: string, alias: string)
    requires IsLink(text, link, hash, alias)
    ensures |link.rest| < |text| && link.alias == if alias == "" then None else Some(alias[1..])
  {
  }

  lemma DropFirst(text: string, link: Link, alias: string, resolves: string -> bool)
    requires text != "" && MatchLink(text) == Some(link) && |link.rest| <= |text|
    requires link.alias == if alias == "" then None else Some(alias[1..])
    ensures DropDead(text, resolves)
         == Remains(text[..|text| - |link.rest|], link, alias, resolves) + DropDead(link.rest, resolves)
    ensures HasDead(text, resolves) <==> !resolves(link.target) || HasDead(link.rest, resolves)
  {
    hide MatchLink, Trim;
  }

  // ---------------------------------------------------------------- headings

  const HASHES: string := "######"

  ghost predicate EndsLine(rest: string) {
    rest == "" || rest[0] in "\n\r\U{2028}\U{2029}"
  }

  /** The text starts with one to six hashes, white space and a line. */
  ghost predicate IsHeading(s: string, n: nat, blanks: string, line: string, rest: string) {
    && 1 <= n <= 6 && s == HASHES[..n] + (blanks + (line + rest))
    && blanks != "" && Blanks(blanks)
    && line != "" && OneLine(line) && EndsLine(rest)
  }

  lemma {:induction false} HashesAre(s: string, n: nat)
    requires n <= |s| && (forall i :: 0 <= i < n ==> s[i] == '#') && (n < |s| ==> s[n] != '#')
    ensures Hashes(s) == n
  {
    if n > 0 {
      HashesAre(s[1..], n - 1);
    }
  }

  lemma {:induction false} HashesFit(s: string)
    ensures forall i :: 0 <= i < Hashes(s) ==> s[i] == '#'
    ensures Hashes(s) < |s| ==> s[Hashes(s)] != '#'
  {
    if s != "" && s[0] == '#' {
      HashesFit(s[1..]);
    }
  }

  lemma {:induction false} FirstLineFits(s: string)
    ensures var line := FirstLine(s); line <= s && OneLine(line) && EndsLine(s[|line|..])
    ensures s != "" && !IsLineTerminator(s[0]) ==> FirstLine(s) != ""
  {
    if s != "" && !IsLineTerminator(s[0]) {
      FirstLineFits(s[1..]);
      var line, rest := FirstLine(s), FirstLine(s[1..]);
      assert line == [s[0]] + rest;
      assert s[|line|..] == s[1..][|rest|..];
    }
  }

  lemma {:induction false} FirstLineIs(line: string, rest: string)
    requires OneLine(line) && EndsLine(rest)
    ensures FirstLine(line + rest) == line
  {
    if line == "" {
      assert line + rest == rest;
    } else {
      assert (line + rest)[1..] == line[1..] + rest && (line + rest)[0] == line[0];
      assert line[0] in line;
      FirstLineIs(line[1..], rest);
      assert line == [line[0]] + line[1..];
    }
  }

  lemma HeadingHashes(s: string, n: nat, blanks: string, line: string, rest: string)
    requires IsHeading(s, n, blanks, line, rest)
    ensures Hashes(s) == n && s[n..] == blanks + (line + rest)
  {
    assert blanks[0] in blanks;
    var more := blanks + (line + rest);
    assert s[n..] == more && s[n] == more[0] == blanks[0];
    assert forall i :: 0 <= i < n ==> s[i] == HASHES[..n][i];
    HashesAre(s, n);
  }

  lemma {:induction false} LeftKeeps(a: string, b: string)
    ensures TrimLeft(a) != "" ==> TrimLeft(a + b) == TrimLeft(a) + b
    ensures TrimLeft(a) == "" ==> TrimLeft(a + b) == TrimLeft(b)
  {
    if a == "" {
      assert a + b == b;
    } else if IsSpace(a[0]) {
      assert (a + b)[1..] == a[1..] + b;
      LeftKeeps(a[1..], b);
    }
  }

  lemma LeftTwice(s: string)
    ensures TrimLeft(TrimLeft(s)) == TrimLeft(s) && (TrimLeft(s) == "" ==> Trim(s) == "")
  {
    TrimLeftSuffix(s);
  }

  lemma HeadingReads(s: string, n: nat, blanks: string, line: string, rest: string)
    requires IsHeading(s, n, blanks, line, rest)
    ensures HeadingAt(s).Some?
    ensures Trim(line) != "" ==> HeadingAt(s) == Some(Trim(line))
  {
    HeadingHashes(s, n, blanks, line, rest);
    LeftOfBlanks(blanks, line + rest);
    assert blanks[0] in blanks && s[n..][0] == blanks[0];
    TrimLeftSuffix(s[n..]);
    LeftKeeps(line, rest);
    LeftTwice(line);
    if Trim(line) != "" {
      TrimLeftSuffix(line);
      assert forall c :: c in TrimLeft(line) ==> c in line;
      FirstLineIs(TrimLeft(line), rest);
    } else {
      assert s[n..][|blanks|] == line[0] && line[0] in line;
      assert BlankLine(s[n..]);
    }
  }

  lemma HeadingParts(s: string) returns (n: nat, blanks: string, line: string, rest: string)
    requires HeadingAt(s).Some?
    ensures IsHeading(s, n, blanks, line, rest)
    ensures HeadingAt(s).value != "" ==> HeadingAt(s) == Some(Trim(line))
  {
    n := Hashes(s);
    HashesFit(s);
    var after := s[n..];
    var text := TrimLeft(after);
    TrimLeftSuffix(after);
    LeftBlanks(after);
    assert s[..n] == HASHES[..n];
    var at: nat := |after| - |text|;
    if text != "" {
      assert !IsLineTerminator(text[0]);
    } else {
      var i :| 1 <= i < |after| && !IsLineTerminator(after[i]);
      assert after[..|after|] == after;
      at := i;
    }
    blanks, line := after[..at], FirstLine(after[at..]);
    FirstLineFits(after[at..]);
    rest := after[at..][|line|..];
    Prefixed(after[at..], line, rest);
    Prefixed(after, blanks, after[at..]);
    Prefixed(s, HASHES[..n], after);
  }

  /** What is a heading at the start of a line, and that it reads as its trimmed text wherever it has one. */
  lemma HeadingIff(s: string)
    ensures HeadingAt(s).Some? <==> exists n, blanks, line, rest :: IsHeading(s, n, blanks, line, rest)
    ensures forall h :: h != "" ==>
              (HeadingAt(s) == Some(h)
               <==> exists n, blanks, line, rest :: IsHeading(s, n, blanks, line, rest) && Trim(line) == h)
  {
    hide *;
    if HeadingAt(s).Some? {
      var n, blanks, line, rest := HeadingParts(s);
    }
    forall n, blanks, line, rest | IsHeading(s, n, blanks, line, rest)
      ensures HeadingAt(s).Some? && (Trim(line) != "" ==> HeadingAt(s) == Some(Trim(line)))
    {
      HeadingReads(s, n, blanks, line, rest);
    }
  }

  ghost predicate StartsLine(body: string, i: nat) {
    i <= |body| && (i == 0 || IsLineTerminator(body[i - 1]))
  }

  /** No line that starts before position `n` is a heading. */
  ghost predicate NoHeadingBefore(body: string, n: nat) {
    forall i, k, blanks, line, rest :: 0 <= i < n && StartsLine(body, i) ==> !IsHeading(body[i..], k, blanks, line, rest)
  }

  lemma {:induction false} HeadingSkips(body: string, from: nat, n: nat)
    requires from <= n <= |body| && NoHeadingBefore(body, n)
    ensures HeadingFrom(body[from..], from == 0 || IsLineTerminator(body[from - 1]))
         == HeadingFrom(body[n..], n == 0 || IsLineTerminator(body[n - 1]))
    decreases n - from
  {
    hide HeadingAt, IsHeading;
    if from < n {
      HeadingIff(body[from..]);
      assert body[from..][1..] == body[from + 1..];
      HeadingSkips(body, from + 1, n);
    }
  }

  /** The heading of a body is the one of its first line that is a heading. */
  lemma FirstHeading(body: string, i: nat, n: nat, blanks: string, line: string, rest: string)
    requires StartsLine(body, i) && NoHeadingBefore(body, i) && IsHeading(body[i..], n, blanks, line, rest)
    ensures Heading(body).Some? && (Trim(line) != "" ==> Heading(body) == Some(Trim(line)))
  {
    hide HeadingAt, IsHeading, Trim;
    HeadingReads(body[i..], n, blanks, line, rest);
    HeadingSkips(body, 0, i);
    assert body[0..] == body;
    NoHeadingHere();
  }

  lemma NoHeading(body: string)
    requires NoHeadingBefore(body, |body|)
    ensures Heading(body).None?
  {
    HeadingSkips(body, 0, |body|);
    assert body[0..] == body && body[|body|..] == "";
  }

  // ---------------------------------------------------------------- index lines

  /** The line is an item: a slug, a title if it is there, and a summary. */
  ghost predicate IsItem(line: string, slug: string, title: string, summary: string) {
    && line == "- [[pages/" + (slug + (title + ("]] \U{2014} " + summary)))
    && slug != "" && Without(slug, "]|") && Optional(title, '|', "]")
    && summary != "" && OneLine(summary)
  }

  lemma ItemReads(line: string, slug: string, title: string, summary: string)
    requires IsItem(line, slug, title, summary)
    ensures ParseItem(line) == Some(IndexItem(slug, if title == "" then slug else title[1..], summary))
  {
    var tail := title + (CLOSE + summary);
    assert CLOSE[0] == ']';
    SpanStops(slug, tail, true);
    AfterReads(ITEM, slug + tail);
    Cut(slug, tail, slug + tail);
    Cut(CLOSE, summary, CLOSE + summary);
    SummaryReads(summary);
    if title == "" {
      assert tail == CLOSE + summary;
    } else {
      var rest := title[1..] + (CLOSE + summary);
      assert tail[1..] == rest;
      SpanStops(title[1..], CLOSE + summary, false);
      Cut(title[1..], CLOSE + summary, rest);
      assert rest[..|title| - 1] == title[1..];
    }
    assert (slug + tail)[..|slug|] == slug;
    hide ParseSummary, WikiIndex.Span, OneLine;
  }

  lemma SummaryParts(closing: string)
    requires ParseSummary(closing).Some?
    ensures var summary := ParseSummary(closing).value;
            closing == "]] \U{2014} " + summary && summary != "" && OneLine(summary)
  {
    Prefixed(closing, CLOSE, closing[|CLOSE|..]);
  }

  lemma TailParts(slug: string, tail: string) returns (title: string, summary: string)
    requires ParseTail(slug, tail).Some?
    ensures tail == title + ("]] \U{2014} " + summary) && summary != "" && OneLine(summary) && Optional(title, '|', "]")
    ensures ParseTail(slug, tail) == Some(IndexItem(slug, if title == "" then slug else title[1..], summary))
  {
    if tail != "" && tail[0] == '|' {
      var m := WikiIndex.Span(tail[1..], false);
      title := tail[..m + 1];
      assert title[1..] == tail[1..][..m];
      SummaryParts(tail[1..][m..]);
      summary := ParseSummary(tail[1..][m..]).value;
      Prefixed(tail, title, tail[1..][m..]);
    } else {
      title := "";
      SummaryParts(tail);
      summary := ParseSummary(tail).value;
      assert tail == "" + tail;
    }
  }

  lemma ItemParts(line: string) returns (slug: string, title: string, summary: string)
    requires ParseItem(line).Some?
    ensures IsItem(line, slug, title, summary)
    ensures ParseItem(line) == Some(IndexItem(slug, if title == "" then slug else title[1..], summary))
  {
    hide ParseTail, ParseSummary;
    var s := line[|ITEM|..];
    var n := WikiIndex.Span(s, true);
    slug := s[..n];
    title, summary := TailParts(slug, s[n..]);
    Prefixed(line, ITEM, s);
    Prefixed(s, slug, s[n..]);
  }

  /** The entry an item line gives: a line without a title has the slug for it. */
  ghost predicate Gives(line: string, item: IndexItem) {
    exists title :: IsItem(line, item.slug, title, item.summary) && item.title == if title == "" then item.slug else title[1..]
  }

  /** A trimmed line is read as an item exactly when it is made of the pieces of one. */
  lemma ItemIff(line: string, item: IndexItem)
    ensures ParseItem(line) == Some(item) <==> Gives(line, item)
  {
    hide ParseItem, IsItem;
    if ParseItem(line).Some? {
      var slug, title, summary := ItemParts(line);
    }
    forall title | IsItem(line, item.slug, title, item.summary)
      ensures ParseItem(line) == Some(IndexItem(item.slug, if title == "" then item.slug else title[1..], item.summary))
    {
      ItemReads(line, item.slug, title, item.summary);
    }
  }

  /** The entries of an index are the items of its lines, trimmed, in their order. */
  lemma LineEntries(line: string, item: IndexItem)
    requires '\n' !in line
    ensures Gives(Trim(line), item) ==> IndexEntries(line) == [item]
    ensures (forall i :: !Gives(Trim(line), i)) ==> IndexEntries(line) == []
  {
    hide Gives, ParseItem, Trim;
    SplitPlain(line, '\n');
    ItemsOfOne(line);
    ItemIff(Trim(line), item);
    if ParseItem(Trim(line)).Some? {
      ItemIff(Trim(line), ParseItem(Trim(line)).value);
    }
  }

  lemma EntriesAppend(line: string, rest: string)
    requires '\n' !in line
    ensures IndexEntries(line + "\n" + rest) == IndexEntries(line) + IndexEntries(rest)
  {
    hide ItemsOf;
    SplitPlain(line, '\n');
    SplitHead(line, rest, '\n');
    ItemsOfAppend([line], Split(rest, '\n'));
  }

  // ---------------------------------------------------------------- the text of the index

  /** Every line with its line feed. */
  function Ended(lines: seq<string>): string {
    if lines == [] then "" else lines[0] + ("\n" + Ended(lines[1..]))
  }

  lemma {:induction false} JoinEnded(lines: seq<string>)
    ensures Join(lines + [""], "\n") == Ended(lines)
  {
    if lines == [] {
      assert lines + [""] == [""];
    } else {
      var all := lines + [""];
      JoinEnded(lines[1..]);
      assert all[1..] == lines[1..] + [""];
      Joined(lines[0], "\n", Ended(lines[1..]));
    }
  }

  lemma {:induction false} EndedAppend(a: seq<string>, b: seq<string>)
    ensures Ended(a + b) == Ended(a) + Ended(b)
  {
    if a == [] {
      assert a + b == b;
      Joined("", "", Ended(b));
    } else {
      assert (a + b)[1..] == a[1..] + b && (a + b)[0] == a[0];
      EndedAppend(a[1..], b);
      Joined("\n", Ended(a[1..]), Ended(b));
      Joined(a[0], "\n" + Ended(a[1..]), Ended(b));
    }
  }

  lemma EndedOne(a: string)
    ensures Ended([a]) == a + "\n"
  {
    assert [a][1..] == [];
  }

  /** The item lines of the pages of one section. */
  function ItemsText(slugs: seq<string>, rows: map<string, Row>): string
    requires forall slug :: slug in slugs ==> slug in rows
  {
    if slugs == [] then ""
    else
      var slug, row := slugs[0], rows[slugs[0]];
      "- [[pages/" + slug + "|" + row.title + "]] \U{2014} " + row.summary + "\n" + ItemsText(slugs[1..], rows)
  }

  /** The sections, each with a heading, its pages in order and an empty line. */
  function SectionsText(order: Order, sections: seq<string>, rows: map<string, Row>): string
    requires Sorts(order)
  {
    if sections == [] then ""
    else
      var slugs := set slug | slug in rows && rows[slug].section == sections[0];
      assert Lists(order(slugs), slugs);
      "## " + sections[0] + "\n" + ItemsText(order(slugs), rows) + "\n" + SectionsText(order, sections[1..], rows)
  }

  lemma {:induction false} ItemsEnded(slugs: seq<string>, rows: map<string, Row>)
    requires forall slug :: slug in slugs ==> slug in rows
    ensures Ended(ItemLines(slugs, rows)) == ItemsText(slugs, rows)
  {
    if slugs != [] {
      var slug, row := slugs[0], rows[slugs[0]];
      ItemsEnded(slugs[1..], rows);
      assert ItemLines(slugs, rows)[1..] == ItemLines(slugs[1..], rows);
      hide Ended, ItemsText;
      var line := RowLine(slug, row);
      EndedFirst(line, ItemLines(slugs[1..], rows));
      ItemText(slug, row);
      Joined(line, "\n", ItemsText(slugs[1..], rows));
      ItemsTextFirst(slugs, rows);
    }
  }

  lemma EndedFirst(line: string, lines: seq<string>)
    ensures Ended([line] + lines) == line + ("\n" + Ended(lines))
  {
    assert ([line] + lines)[1..] == lines;
  }

  lemma ItemsTextFirst(slugs: seq<string>, rows: map<string, Row>)
    requires slugs != [] && forall slug :: slug in slugs ==> slug in rows
    ensures var slug, row := slugs[0], rows[slugs[0]];
            ItemsText(slugs, rows)
            == "- [[pages/" + slug + "|" + row.title + "]] \U{2014} " + row.summary + "\n" + ItemsText(slugs[1..], rows)
  {
  }

  lemma ItemText(slug: string, row: Row)
    ensures RowLine(slug, row) == "- [[pages/" + slug + "|" + row.title + "]] \U{2014} " + row.summary
  {
  }

  lemma {:induction false} SectionsEnded(order: Order, sections: seq<string>, rows: map<string, Row>)
    requires Sorts(order)
    ensures Ended(SectionLines(order, sections, rows)) == SectionsText(order, sections, rows)
  {
    if sections != [] {
      var slugs := SlugsIn(sections[0], rows);
      assert slugs == set slug | slug in rows && rows[slug].section == sections[0];
      assert Lists(order(slugs), slugs);
      SectionsEnded(order, sections[1..], rows);
      var head, items, rest := "## " + sections[0], ItemLines(order(slugs), rows), SectionLines(order, sections[1..], rows);
      ItemsEnded(order(slugs), rows);
      assert SectionLines(order, sections, rows) == [head] + items + [""] + rest;
      EndedAppend([head] + items + [""], rest);
      EndedAppend([head] + items, [""]);
      EndedAppend([head], items);
      EndedOne(head);
      EndedOne("");
      assert "" + "\n" == "\n";
    }
  }

  lemma {:induction false} JoinIsEnded(lines: seq<string>)
    requires lines != []
    ensures Ended(lines) == Join(lines, "\n") + "\n"
  {
    if |lines| == 1 {
      EndedOne(lines[0]);
      assert lines == [lines[0]];
    } else {
      JoinIsEnded(lines[1..]);
      Joined(lines[0] + "\n", Join(lines[1..], "\n"), "\n");
      Joined(lines[0], "\n", Join(lines[1..], "\n") + "\n");
    }
  }

  /** The text of a rebuilt index: a title and its sections, without white space at the end but a line feed. */
  lemma IndexIs(order: Order, rows: map<string, Row>)
    requires Sorts(order)
    ensures IndexText(order, rows)
         == Trim("# LLM Wiki\n\n" + SectionsText(order, order(set slug | slug in rows :: rows[slug].section), rows)) + "\n"
  {
    hide Trim, SectionLines, SectionsText;
    var sections := order(Sections(rows));
    var lines := ["# LLM Wiki", ""] + SectionLines(order, sections, rows);
    SectionsEnded(order, sections, rows);
    EndedAppend(["# LLM Wiki", ""], SectionLines(order, sections, rows));
    EndedAppend(["# LLM Wiki"], [""]);
    EndedOne("# LLM Wiki");
    EndedOne("");
    assert ["# LLM Wiki"] + [""] == ["# LLM Wiki", ""];
    hide Ended, Join;
    JoinIsEnded(lines);
    TrimIgnoresTrailing(Join(lines, "\n"), '\n');
    assert "# LLM Wiki" + "\n" + ("" + "\n") == "# LLM Wiki\n\n";
  }
}
