/** The first heading of a page's body (`pageDisplay`, validator.js): one to six hashes, white space, and a line. */
module Headings {
  import opened Text
  import opened Whitespace

  function Hashes(s: string): (n: nat)
    ensures n <= |s|
  {
    if s != "" && s[0] == '#' then 1 + Hashes(s[1..]) else 0
  }

  /** The text up to the end of its first line. */
  function FirstLine(s: string): string {
    if s == "" || IsLineTerminator(s[0]) then "" else [s[0]] + FirstLine(s[1..])
  }

  /** Nothing but white space follows: the expression gives some of it back, if that is not the end of a line. */
  predicate BlankLine(blanks: string) {
    exists i :: 1 <= i < |blanks| && !IsLineTerminator(blanks[i])
  }

  /** A heading at the start of a line, trimmed. */
  function HeadingAt(s: string): Option<string> {
    var n := Hashes(s);
    if n == 0 || n > 6 then None
    else
      var rest := s[n..];
      var text := TrimLeft(rest);
      if text == rest then None
      else if text != "" then Some(Trim(FirstLine(text)))
      else if BlankLine(rest) then Some("")
      else None
  }

  function HeadingFrom(s: string, lineStart: bool): Option<string>
    decreases |s|
  {
    if s == "" then None
    else if lineStart && HeadingAt(s).Some? then HeadingAt(s)
    else HeadingFrom(s[1..], IsLineTerminator(s[0]))
  }

  function Heading(body: string): Option<string> {
    HeadingFrom(body, true)
  }

  // ---------------------------------------------------------------- what a heading is

  lemma {:induction false} FirstLineIsOne(s: string)
    ensures OneLine(FirstLine(s))
  {
    if s != "" && !IsLineTerminator(s[0]) {
      FirstLineIsOne(s[1..]);
    }
  }

  lemma HeadingAtIsTrimmed(s: string)
    ensures HeadingAt(s).Some? ==> IsTrimmed(HeadingAt(s).value) && OneLine(HeadingAt(s).value)
  {
    hide Hashes, TrimLeft, FirstLine, BlankLine;
    var text := TrimLeft(s[Hashes(s)..]);
    FirstLineIsOne(text);
    TrimTrims(FirstLine(text));
  }

  /** A heading is trimmed and stands on one line. */
  lemma {:induction false} HeadingIsTrimmed(s: string, lineStart: bool)
    ensures var h := HeadingFrom(s, lineStart); h.Some? ==> IsTrimmed(h.value) && OneLine(h.value)
    decreases |s|
  {
    hide HeadingAt;
    if s != "" {
      HeadingAtIsTrimmed(s);
      HeadingIsTrimmed(s[1..], IsLineTerminator(s[0]));
    }
  }

  // ---------------------------------------------------------------- a line feed at the end

  lemma {:induction false} HashesFed(s: string)
    ensures Hashes(s + "\n") == Hashes(s)
  {
    if s != "" {
      HashesFed(s[1..]);
      assert (s + "\n")[1..] == s[1..] + "\n";
    }
  }

  lemma {:induction false} FirstLineFed(s: string)
    ensures FirstLine(s + "\n") == FirstLine(s)
  {
    if s != "" {
      FirstLineFed(s[1..]);
      assert (s + "\n")[1..] == s[1..] + "\n";
    }
  }

  lemma BlankLineFed(blanks: string)
    ensures BlankLine(blanks + "\n") <==> BlankLine(blanks)
  {
    if i :| 1 <= i < |blanks| && !IsLineTerminator(blanks[i]) {
      assert (blanks + "\n")[i] == blanks[i];
    }
  }

  lemma HeadingAtFed(s: string)
    ensures HeadingAt(s + "\n") == HeadingAt(s)
  {
    hide Hashes, TrimLeft, FirstLine, BlankLine, Trim;
    HashesFed(s);
    var n := Hashes(s);
    var rest := s[n..];
    assert (s + "\n")[n..] == rest + "\n";
    TrimLeftAppend(rest, '\n');
    FirstLineFed(TrimLeft(rest));
    BlankLineFed(rest);
    NothingToTrim();
    if TrimLeft(rest) + "\n" == rest + "\n" {
      assert TrimLeft(rest) == (TrimLeft(rest) + "\n")[..|rest|] == (rest + "\n")[..|rest|] == rest;
    }
  }

  lemma NothingToTrim()
    ensures TrimLeft("") == "" && !BlankLine("")
  {
  }

  /** A line feed at the end of the body makes no other heading. */
  lemma {:induction false} HeadingFed(s: string, lineStart: bool)
    ensures HeadingFrom(s + "\n", lineStart) == HeadingFrom(s, lineStart)
    decreases |s|
  {
    hide HeadingAt;
    HeadingAtFed(s);
    if s == "" {
      NoHeadingHere();
      assert "" + "\n" == "\n" && "\n"[1..] == "";
    } else {
      HeadingFed(s[1..], IsLineTerminator(s[0]));
      assert (s + "\n")[1..] == s[1..] + "\n" && (s + "\n")[0] == s[0];
    }
  }

  lemma NoHeadingHere()
    ensures HeadingAt("").None?
  {
  }
}
