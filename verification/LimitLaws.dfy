/**
 * What the limits on a compile keep (frontmatter.js, repair.js), told from bytes, paragraphs and links: the clip as
 * the bytes of the text, the paragraphs as what stands between blank lines, and the order of giving up in words.
 */
module LimitLaws {
  import opened Text
  import opened Whitespace
  import opened WikiPath
  import opened TextLaws
  import opened PageFit
  import opened CompileDiff

  // ---------------------------------------------------------------- UTF-8

  /** A character in UTF-8 (RFC 3629, section 3). */
  function Utf8(c: char): (r: seq<int>)
    ensures r != [] && 0 <= r[0] < 0x100 && !Continues(r[0])
    ensures forall i :: 1 <= i < |r| ==> Continues(r[i])
  {
    var n := c as int;
    if n < 0x80 then [n]
    else if n < 0x800 then [0xC0 + n / 0x40, 0x80 + n % 0x40]
    else if n < 0x1_0000 then [0xE0 + n / 0x1000, 0x80 + n / 0x40 % 0x40, 0x80 + n % 0x40]
    else [0xF0 + n / 0x4_0000, 0x80 + n / 0x1000 % 0x40, 0x80 + n / 0x40 % 0x40, 0x80 + n % 0x40]
  }

  /** `(b & 0xc0) === 0x80`. */
  predicate Continues(b: int) {
    0x80 <= b < 0xC0
  }

  function Encoded(text: string): seq<int> {
    if text == "" then [] else Utf8(text[0]) + Encoded(text[1..])
  }

  /** The size of a text is the number of its bytes. */
  lemma {:induction false} SizeCounts(text: string)
    ensures Size(text) == |Encoded(text)|
  {
    if text != "" {
      SizeCounts(text[1..]);
    }
  }

  /** Where the loop of `clipUtf8` stops. */
  function BackedUp(bytes: seq<int>, end: nat): (r: nat)
    requires end <= |bytes|
    ensures r <= end
  {
    if 0 < end < |bytes| && Continues(bytes[end]) then BackedUp(bytes, end - 1) else end
  }

  lemma {:induction false} BackToStart(c: char, rest: seq<int>, end: nat)
    requires end < |Utf8(c)|
    ensures BackedUp(Utf8(c) + rest, end) == 0
  {
    hide Utf8;
    if end > 0 {
      assert (Utf8(c) + rest)[end] == Utf8(c)[end];
      BackToStart(c, rest, end - 1);
    }
  }

  lemma {:induction false} BackInRest(first: seq<int>, rest: seq<int>, end: nat)
    requires first != [] && end <= |rest| && (rest == [] || !Continues(rest[0]))
    ensures BackedUp(first + rest, |first| + end) == |first| + BackedUp(rest, end)
  {
    if 0 < end < |rest| {
      assert (first + rest)[|first| + end] == rest[end];
      BackInRest(first, rest, end - 1);
    } else if end == 0 && rest != [] {
      assert (first + rest)[|first|] == rest[0];
    }
  }

  lemma EncodedStarts(text: string)
    ensures Encoded(text) == [] || !Continues(Encoded(text)[0])
  {
    hide Utf8;
  }

  /** Backing up over continuation bytes cuts the text where the clip does. */
  lemma {:induction false} ClipIsBackedUp(text: string, room: nat)
    ensures room <= |Encoded(text)| ==> Encoded(text)[..BackedUp(Encoded(text), room)] == Encoded(Clip(text, room))
    ensures room >= |Encoded(text)| ==> Clip(text, room) == text
    decreases |text|
  {
    if text != "" {
      var c, rest := text[0], text[1..];
      WidthCounts(c);
      hide Utf8, Continues, Width;
      if Width(c) > room {
        BackToStart(c, Encoded(rest), room);
      } else {
        ClipIsBackedUp(rest, room - Width(c));
        assert Clip(text, room) == [c] + Clip(rest, room - Width(c));
        EncodedFirst(c, Clip(rest, room - Width(c)));
        if room <= |Encoded(text)| {
          EncodedStarts(rest);
          BackInRest(Utf8(c), Encoded(rest), room - Width(c));
        }
      }
    }
  }

  lemma WidthCounts(c: char)
    ensures |Utf8(c)| == Width(c)
  {
  }

  lemma EncodedFirst(c: char, rest: string)
    ensures Encoded([c] + rest) == Utf8(c) + Encoded(rest)
  {
    hide Utf8;
    assert ([c] + rest)[1..] == rest;
  }

  // ---------------------------------------------------------------- paragraphs

  /** No two line feeds stand together. */
  predicate NoBlankLine(s: string) {
    forall i :: 0 <= i < |s| - 1 ==> !(s[i] == '\n' && s[i + 1] == '\n')
  }

  predicate Feeds(s: string) {
    forall i :: 0 <= i < |s| ==> s[i] == '\n'
  }

  lemma {:induction false} FeedsDrop(feeds: string, b: string)
    requires Feeds(feeds) && (b == "" || b[0] != '\n')
    ensures DropFeeds(feeds + b) == b
  {
    if feeds == "" {
      assert feeds + b == b;
    } else {
      assert (feeds + b)[0] == feeds[0] && (feeds + b)[1..] == feeds[1..] + b;
      FeedsDrop(feeds[1..], b);
    }
  }

  lemma TwoFeeds(s: string)
    ensures "\n\n" <= s <==> |s| >= 2 && s[0] == '\n' && s[1] == '\n'
  {
  }

  lemma {:induction false} OnePiece(s: string)
    requires NoBlankLine(s)
    ensures Pieces(s) == [s]
  {
    if s != "" {
      TwoFeeds(s);
      OnePiece(s[1..]);
      assert [s[0]] + s[1..] == s;
    }
  }

  /** A text up to its first blank line is a piece, whatever the number of line feeds there. */
  lemma {:induction false} FirstPiece(a: string, feeds: string, b: string)
    requires NoBlankLine(a) && (a == "" || a[|a| - 1] != '\n')
    requires |feeds| >= 2 && Feeds(feeds) && (b == "" || b[0] != '\n')
    ensures Pieces(a + (feeds + b)) == [a] + Pieces(b)
  {
    var text := a + (feeds + b);
    TwoFeeds(text);
    if a == "" {
      assert text == feeds + b;
      assert text[2..] == feeds[2..] + b;
      FeedsDrop(feeds[2..], b);
    } else {
      assert text[1..] == a[1..] + (feeds + b) && text[0] == a[0];
      assert |a| > 1 ==> text[1] == a[1];
      FirstPiece(a[1..], feeds, b);
      LongerPiece(text, a, Pieces(b));
    }
  }

  lemma LongerPiece(text: string, a: string, more: seq<string>)
    requires text != "" && a != "" && text[0] == a[0] && !("\n\n" <= text)
    requires Pieces(text[1..]) == [a[1..]] + more
    ensures Pieces(text) == [a] + more
  {
    assert [a[0]] + a[1..] == a;
    assert ([a[1..]] + more)[1..] == more;
  }

  /** The paragraphs of a body: what stands between blank lines and is not blank itself, in order. */
  lemma ParagraphsMean(a: string, feeds: string, b: string)
    requires NoBlankLine(a) && (a == "" || a[|a| - 1] != '\n')
    requires |feeds| >= 2 && Feeds(feeds) && (b == "" || b[0] != '\n')
    ensures Paragraphs(a + (feeds + b)) == (if Blanks(a) then [] else [a]) + Paragraphs(b)
  {
    hide Pieces;
    FirstPiece(a, feeds, b);
    assert ([a] + Pieces(b))[1..] == Pieces(b);
    BlankIff(a);
  }

  lemma OneParagraph(a: string)
    requires NoBlankLine(a)
    ensures Paragraphs(a) == if Blanks(a) then [] else [a]
  {
    hide Pieces;
    OnePiece(a);
    BlankIff(a);
    hide Trim, Blanks;
    assert [a][1..] == [] && NotBlank([]) == [];
  }

  lemma BlankIff(s: string)
    ensures Trim(s) == "" <==> Blanks(s)
  {
    TrimTrims(s);
    if Blanks(s) {
      TrimOf(s, "", "");
      assert s + "" + "" == s;
    }
  }

  lemma {:induction false} JoinSnoc(lines: seq<string>, line: string, sep: string)
    requires lines != []
    ensures Join(lines + [line], sep) == Join(lines, sep) + sep + line
  {
    var all := lines + [line];
    if |lines| == 1 {
      assert all[1..] == [line] && all[0] == lines[0];
    } else {
      assert all[1..] == lines[1..] + [line];
      JoinSnoc(lines[1..], line, sep);
      Joined(lines[0] + sep, Join(lines[1..], sep) + sep, line);
      Joined(lines[0] + sep, Join(lines[1..], sep), sep);
    }
  }

  /** The body of a cut page: its paragraphs with a blank line between every two, or a line feed without any. */
  lemma BodyMeans(paragraphs: seq<string>, n: nat)
    requires n < |paragraphs|
    ensures BodyOf(paragraphs, 0) == "\n" && BodyOf(paragraphs, 1) == paragraphs[0] + "\n"
    ensures n > 0 ==> BodyOf(paragraphs, n + 1) == BodyOf(paragraphs, n) + "\n" + paragraphs[n] + "\n"
  {
    assert paragraphs[..1] == [paragraphs[0]];
    if n > 0 {
      assert paragraphs[..n + 1] == paragraphs[..n] + [paragraphs[n]];
      JoinSnoc(paragraphs[..n], paragraphs[n], "\n\n");
      assert "\n\n" == "\n" + "\n";
      Joined(Join(paragraphs[..n], "\n\n"), "\n", "\n");
    }
  }

  // ---------------------------------------------------------------- the compile limit

  /** Pages that cite the source stay longest; then new ones, then those that were there; deletions go first. */
  predicate StaysBefore(before: Work, now: Work, cites: string -> bool, k: Path, g: Path) {
    || g !in now
    || (k in now && cites(now[k].text))
    || (k in now && !cites(now[g].text) && (k !in before || g in before))
  }

  lemma RankIff(before: Work, now: Work, cites: string -> bool, k: Path, g: Path)
    ensures Rank(before, now, cites, k) <= Rank(before, now, cites, g) <==> StaysBefore(before, now, cites, k, g)
  {
  }

  /** Every page that the cap leaves stays before every page that it gives up. */
  lemma KeptStayBefore(before: Work, now: Work, links: Names, o: Orders, cites: string -> bool, kept: set<Path>)
    ensures KeptFirst(before, now, links, o, cites, kept) <==>
            forall k, g :: k in kept && g in ProperPages(before, now, links, o) && g !in kept ==>
              StaysBefore(before, now, cites, k, g)
  {
    hide Rank, StaysBefore, ProperPages;
    forall k, g ensures Rank(before, now, cites, k) <= Rank(before, now, cites, g) <==> StaysBefore(before, now, cites, k, g) {
      RankIff(before, now, cites, k, g);
    }
  }

  /** The names of the file that `rel` is a name of. */
  function NamesOf(links: Names, rel: Path): set<Path>
    requires rel in links.ids
  {
    set other | other in links.ids && links.ids[other] == links.ids[rel]
  }

  /** The link count is above one exactly when the file has a name outside, or two names in the worktree. */
  lemma SharedIff(links: Names, rel: Path)
    ensures Shared(links, rel) <==>
            rel in links.ids && (links.ids[rel] in links.outside || |NamesOf(links, rel)| > 1)
  {
    if rel in links.ids {
      var names := NamesOf(links, rel);
      if Shared(links, rel) && links.ids[rel] !in links.outside {
        var other :| other in links.ids && Namesakes(links, rel, other);
        assert {rel, other} <= names;
        SubsetSize({rel, other}, names);
      }
      if |names| > 1 {
        var rest := names - {rel};
        assert rel in names && |rest| == |names| - 1;
        var other :| other in rest;
        assert Namesakes(links, rel, other);
      }
    }
  }

  lemma {:induction false} SubsetSize(a: set<Path>, b: set<Path>)
    requires a <= b
    ensures |a| <= |b|
  {
    assert b == a + (b - a);
  }
}
