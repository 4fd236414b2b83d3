/** `fitPage` (frontmatter.js): a page cut down to a size in UTF-8 bytes. */
module PageFit {
  import opened Text
  import opened Whitespace
  import opened Frontmatter

  // ---------------------------------------------------------------- sizes

  function Width(c: char): nat {
    if c < '\U{80}' then 1 else if c < '\U{800}' then 2 else if c < '\U{10000}' then 3 else 4
  }

  /** `Buffer.byteLength`. */
  function Size(text: string): nat {
    if text == "" then 0 else Width(text[0]) + Size(text[1..])
  }

  lemma {:induction false} SizeJoin(a: string, b: string)
    ensures Size(a + b) == Size(a) + Size(b)
  {
    if a == "" {
      assert a + b == b;
    } else {
      SizeJoin(a[1..], b);
      assert (a + b)[1..] == a[1..] + b;
    }
  }

  /** `clipUtf8`: backing up to a character boundary leaves the longest beginning that fits. */
  function Clip(text: string, room: nat): string {
    if text == "" || Width(text[0]) > room then "" else [text[0]] + Clip(text[1..], room - Width(text[0]))
  }

  lemma {:induction false} ClipFits(text: string, room: nat)
    ensures Clip(text, room) <= text && Size(Clip(text, room)) <= room
    ensures forall n :: |Clip(text, room)| < n <= |text| ==> Size(text[..n]) > room
  {
    if text != "" && Width(text[0]) <= room {
      var rest := text[1..];
      ClipFits(rest, room - Width(text[0]));
      assert text == [text[0]] + rest;
      assert Clip(text, room)[1..] == Clip(rest, room - Width(text[0]));
      forall n | |Clip(text, room)| < n <= |text| ensures Size(text[..n]) > room {
        assert text[..n][1..] == rest[..n - 1];
      }
    } else if text != "" {
      forall n | 0 < n <= |text| ensures Size(text[..n]) > room {
        assert text[..n][0] == text[0];
      }
    }
  }

  // ---------------------------------------------------------------- paragraphs

  function DropFeeds(text: string): (r: string)
    ensures |r| <= |text|
  {
    if text != "" && text[0] == '\n' then DropFeeds(text[1..]) else text
  }

  /** The pieces between runs of two or more line feeds. */
  function Pieces(text: string): (r: seq<string>)
    ensures r != []
    decreases |text|
  {
    if text == "" then [""]
    else if "\n\n" <= text then [""] + Pieces(DropFeeds(text[2..]))
    else
      var rest := Pieces(text[1..]);
      [[text[0]] + rest[0]] + rest[1..]
  }

  function NotBlank(pieces: seq<string>): seq<string> {
    if pieces == [] then []
    else (if Trim(pieces[0]) != "" then [pieces[0]] else []) + NotBlank(pieces[1..])
  }

  function Paragraphs(body: string): seq<string> {
    NotBlank(Pieces(body))
  }

  /** The body made of the first `n` paragraphs; none at all leave a line feed. */
  function BodyOf(paragraphs: seq<string>, n: nat): string
    requires n <= |paragraphs|
  {
    if n == 0 then "\n" else Join(paragraphs[..n], "\n\n") + "\n"
  }

  function PageOf(f: Front, paragraphs: seq<string>, n: nat): string
    requires n <= |paragraphs|
  {
    Serialized(f, BodyOf(paragraphs, n))
  }

  /** The loop keeps the first `n` paragraphs: each longer beginning up to there fits, and one more does not. */
  ghost predicate Keeps(f: Front, paragraphs: seq<string>, n: nat, max: nat) {
    && n <= |paragraphs|
    && (forall k: nat :: 0 < k <= n ==> Size(PageOf(f, paragraphs, k)) <= max)
    && (n < |paragraphs| ==> Size(PageOf(f, paragraphs, n + 1)) > max)
  }

  /** The page with nothing but a line feed for a body. */
  function Bare(f: Front): string {
    Serialized(f, "\n")
  }

  /** What is left of a page: all of it if it fits, else the paragraphs the loop kept. */
  ghost predicate Fitted(f: Front, body: string, max: nat, page: string) {
    var paragraphs := Paragraphs(Terminated(body));
    if Size(Serialized(f, Terminated(body))) <= max then page == Serialized(f, Terminated(body))
    else exists n: nat :: Keeps(f, paragraphs, n, max) && page == PageOf(f, paragraphs, n)
  }

  lemma ClipLeavesNothing(body: string)
    ensures Trim(Clip(Trim(body), 0)) + "\n" == "\n"
  {
    assert Clip(Trim(body), 0) == "" && Trim("") == "";
  }

  /**
   * `fitPage`. The last branch clips the body to the room the header leaves; it is reached only when the header
   * alone is too large, and so it never keeps a byte of the body.
   */
  method FitPage(f: Front, body: string, max: nat) returns (page: string)
    ensures Fitted(f, body, max, page)
  {
    hide Serialized, Paragraphs, Clip, Trim, Size, Join;
    var normalized := Terminated(body);
    TerminatedTwice(body);
    page := Serialized(f, normalized);
    if Size(page) <= max {
      return;
    }
    var paragraphs := Paragraphs(normalized);
    var kept: nat := 0;
    while kept < |paragraphs|
      invariant kept <= |paragraphs|
      invariant forall k: nat :: 0 < k <= kept ==> Size(PageOf(f, paragraphs, k)) <= max
    {
      var trial := Serialized(f, Join(paragraphs[..kept] + [paragraphs[kept]], "\n\n") + "\n");
      assert paragraphs[..kept] + [paragraphs[kept]] == paragraphs[..kept + 1];
      assert trial == PageOf(f, paragraphs, kept + 1);
      if Size(trial) > max {
        break;
      }
      kept := kept + 1;
    }
    assert Keeps(f, paragraphs, kept, max);
    var next := if kept > 0 then Join(paragraphs[..kept], "\n\n") + "\n" else "\n";
    page := Serialized(f, next);
    assert page == PageOf(f, paragraphs, kept);
    if Size(page) > max {
      assert kept == 0;
      var bare := Size(Serialized(f, "\n"));
      var room := if max > bare then max - bare else 0;
      ClipLeavesNothing(normalized);
      next := Trim(Clip(Trim(normalized), room)) + "\n";
      page := Serialized(f, next);
    }
  }

  lemma TerminatedTwice(body: string)
    ensures Terminated(Terminated(body)) == Terminated(body)
  {
  }

  lemma SerializedSize(f: Front, body: string)
    requires EndsWith(body, "\n")
    ensures Size(Serialized(f, body)) == Size(Bare(f)) - 1 + Size(body)
  {
    var head := Join([FENCE] + HeaderLines(f) + [FENCE, ""], "\n");
    SizeJoin(head, body);
    SizeJoin(head, "\n");
    assert Size("\n") == 1 by { assert "\n"[1..] == ""; }
  }

  lemma SizePositive(body: string)
    requires body != ""
    ensures Size(body) >= 1
  {
  }

  /** The cut page fits exactly when its header and a line feed do. */
  lemma FitsIffHeaderFits(f: Front, body: string, max: nat, page: string)
    requires Fitted(f, body, max, page)
    ensures Size(page) <= max <==> Size(Bare(f)) <= max
  {
    hide Serialized, Paragraphs, Size, Join;
    var whole := Terminated(body);
    SerializedSize(f, whole);
    SizePositive(whole);
    if page != Serialized(f, whole) || Size(page) > max {
      var paragraphs := Paragraphs(whole);
      var n: nat :| Keeps(f, paragraphs, n, max) && page == PageOf(f, paragraphs, n);
      if n > 0 {
        SerializedSize(f, BodyOf(paragraphs, n));
        SizePositive(BodyOf(paragraphs, n));
      }
    }
  }

  lemma FirstFits(f: Front, paragraphs: seq<string>, n: nat, max: nat)
    requires Keeps(f, paragraphs, n, max) && n > 0
    ensures paragraphs != [] && Size(PageOf(f, paragraphs, 1)) <= max
  {
  }

  lemma {:induction false} NotBlankIsNotEmpty(pieces: seq<string>)
    ensures forall p :: p in NotBlank(pieces) ==> p != ""
  {
    if pieces != [] {
      NotBlankIsNotEmpty(pieces[1..]);
      assert Trim("") == "";
    }
  }

  lemma ParagraphsAreNotEmpty(body: string)
    ensures forall p :: p in Paragraphs(body) ==> p != ""
  {
    NotBlankIsNotEmpty(Pieces(body));
  }

  lemma BodyIsLonger(f: Front, paragraphs: seq<string>, n: nat)
    requires 0 < n <= |paragraphs| && paragraphs[0] != ""
    ensures PageOf(f, paragraphs, n) != Bare(f)
  {
    hide Serialized;
    var body := BodyOf(paragraphs, n);
    var joined := Join(paragraphs[..n], "\n\n");
    assert joined != "" by {
      assert paragraphs[..n][0] == paragraphs[0];
    }
    SerializedSize(f, body);
    SizeJoin(joined, "\n");
    SizePositive(joined);
    SizePositive("\n");
  }

  /** A page that has to be cut loses its whole body exactly when its first paragraph does not fit. */
  lemma LongFirstParagraph(f: Front, body: string, max: nat, page: string)
    requires Fitted(f, body, max, page)
    requires Size(Serialized(f, Terminated(body))) > max
    ensures page == Bare(f) <==>
            var p := Paragraphs(Terminated(body)); p == [] || Size(PageOf(f, p, 1)) > max
  {
    hide Serialized, Size, Join, BodyOf, Paragraphs;
    var paragraphs := Paragraphs(Terminated(body));
    ParagraphsAreNotEmpty(Terminated(body));
    var n: nat :| Keeps(f, paragraphs, n, max) && page == PageOf(f, paragraphs, n);
    if n > 0 {
      FirstFits(f, paragraphs, n, max);
      assert paragraphs[0] in paragraphs;
      BodyIsLonger(f, paragraphs, n);
    } else {
      BareIsNone(f, paragraphs);
    }
  }

  lemma BareIsNone(f: Front, paragraphs: seq<string>)
    ensures PageOf(f, paragraphs, 0) == Bare(f)
  {
  }
}
