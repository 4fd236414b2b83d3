/** Wiki links in a text (validator.js): the regular expression, and dropping the links that lead nowhere. */
module Links {
  import opened Text
  import opened Whitespace

  /** The longest beginning of `s` without any of the characters of `stops`. */
  function Span(s: string, stops: string): (r: string)
    ensures r <= s
  {
    if s == "" || s[0] in stops then "" else [s[0]] + Span(s[1..], stops)
  }

  /** An optional part with the mark it starts with; "" if there is none. */
  function Part(s: string, mark: char, stops: string): (r: string)
    ensures r <= s
  {
    if s != "" && s[0] == mark && Span(s[1..], stops) != "" then [mark] + Span(s[1..], stops) else ""
  }

  /** One match: what the link names, its label if it has one, and the text after it. */
  datatype Link = Link(target: string, alias: Option<string>, rest: string)

  /** A link at the start of the text. No part of the expression can match in two ways, so nothing is retried. */
  function MatchLink(text: string): (r: Option<Link>)
    ensures r.Some? ==> |r.value.target| + 4 <= |text| - |r.value.rest|
    ensures r.Some? && r.value.alias.Some? ==> |r.value.alias.value| + 4 <= |text| - |r.value.rest|
    ensures r.Some? ==> r.value.rest == text[|text| - |r.value.rest|..]
  {
    if !("[[" <= text) then None
    else
      var target := Span(text[2..], "]|#");
      var hashed := text[2 + |target|..];
      var hash := Part(hashed, '#', "]|");
      var piped := hashed[|hash|..];
      var alias := Part(piped, '|', "]");
      var closing := piped[|alias|..];
      if target != "" && "]]" <= closing
      then Some(Link(target, if alias == "" then None else Some(alias[1..]), closing[2..]))
      else None
  }

  function Label(link: Link): string {
    if link.alias.Some? then link.alias.value else link.target
  }

  /** `dropDeadWikiLinksInText`: a link that leads nowhere becomes its label. */
  function DropDead(text: string, resolves: string -> bool): string
    decreases |text|
  {
    if text == "" then ""
    else
      match MatchLink(text)
      case None => [text[0]] + DropDead(text[1..], resolves)
      case Some(link) =>
        (if resolves(link.target) then text[..|text| - |link.rest|] else Trim(Label(link)))
        + DropDead(link.rest, resolves)
  }

  /** The text holds a link that leads nowhere. */
  predicate HasDead(text: string, resolves: string -> bool)
    decreases |text|
  {
    text != "" &&
    match MatchLink(text)
    case None => HasDead(text[1..], resolves)
    case Some(link) => !resolves(link.target) || HasDead(link.rest, resolves)
  }

  /** A link that leads nowhere starts before position `n`. */
  predicate DeadBefore(text: string, n: nat, resolves: string -> bool)
    decreases |text|
  {
    text != "" && n > 0 &&
    match MatchLink(text)
    case None => DeadBefore(text[1..], n - 1, resolves)
    case Some(link) =>
      var size := |text| - |link.rest|;
      !resolves(link.target) || (size < n && DeadBefore(link.rest, n - size, resolves))
  }

  /** The text before the first link that leads nowhere stays as it is. */
  lemma {:induction false} DropKeepsBefore(text: string, n: nat, resolves: string -> bool)
    requires n <= |text| && !DeadBefore(text, n, resolves)
    ensures text[..n] <= DropDead(text, resolves)
    decreases |text|
  {
    hide MatchLink;
    if n > 0 {
      match MatchLink(text)
      case None =>
        DropKeepsBefore(text[1..], n - 1, resolves);
        assert [text[0]] + text[1..][..n - 1] == text[..n];
      case Some(link) =>
        var size := |text| - |link.rest|;
        if size < n {
          DropKeepsBefore(link.rest, n - size, resolves);
          assert text[..size] + link.rest[..n - size] == text[..n];
        } else {
          assert text[..size][..n] == text[..n];
        }
    }
  }

  lemma {:induction false} DropShortens(text: string, resolves: string -> bool)
    ensures |DropDead(text, resolves)| <= |text|
    ensures HasDead(text, resolves) ==> |DropDead(text, resolves)| < |text|
    ensures !HasDead(text, resolves) ==> DropDead(text, resolves) == text
    decreases |text|
  {
    hide MatchLink;
    if text != "" {
      match MatchLink(text)
      case None =>
        DropShortens(text[1..], resolves);
        assert [text[0]] + text[1..] == text;
      case Some(link) =>
        DropShortens(link.rest, resolves);
        TrimShortens(Label(link));
        assert text[..|text| - |link.rest|] + link.rest == text;
    }
  }

  lemma TrimShortens(s: string)
    ensures |Trim(s)| <= |s|
  {
    TrimLeftSuffix(s);
    TrimRightPrefix(TrimLeft(s));
  }

  /** Dropping dead links changes a text exactly when it holds one. */
  lemma DropChangesIff(text: string, resolves: string -> bool)
    ensures DropDead(text, resolves) != text <==> HasDead(text, resolves)
  {
    DropShortens(text, resolves);
  }

  lemma NoLinkHere(text: string)
    requires text != "" && text[0] != '['
    ensures MatchLink(text).None?
  {
  }

  lemma DropOne(text: string, resolves: string -> bool)
    requires text != "" && MatchLink(text).None?
    ensures DropDead(text, resolves) == [text[0]] + DropDead(text[1..], resolves)
    ensures HasDead(text, resolves) == HasDead(text[1..], resolves)
  {
    hide MatchLink;
  }

  lemma {:induction false} DropPlain(plain: string, rest: string, resolves: string -> bool)
    requires '[' !in plain
    ensures DropDead(plain + rest, resolves) == plain + DropDead(rest, resolves)
    ensures HasDead(plain + rest, resolves) <==> HasDead(rest, resolves)
  {
    hide MatchLink, DropDead, HasDead;
    if plain == "" {
      assert plain + rest == rest;
    } else {
      DropPlain(plain[1..], rest, resolves);
      NoLinkHere(plain + rest);
      DropOne(plain + rest, resolves);
      assert (plain + rest)[0] == plain[0] && (plain + rest)[1..] == plain[1..] + rest;
      var tail := DropDead(rest, resolves);
      assert [plain[0]] + (plain[1..] + tail) == plain + tail;
    }
  }
}
