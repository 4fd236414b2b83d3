/**
 * The index file (validator.js, lint.js): `rebuildIndex` prints one line per page, and
 * `parseIndexEntries` reads the lines back.
 */
module WikiIndex {
  import opened Text
  import opened Whitespace

  const ITEM: string := "- [[pages/"
  const CLOSE: string := "]] \U{2014} "
  const BARE: string := "]] \U{2014}"

  datatype IndexItem = IndexItem(slug: string, title: string, summary: string)

  /** The longest prefix of `s` without `]`, nor `|` when `bar` is set. */
  function Span(s: string, bar: bool): (n: nat)
    ensures n <= |s|
    ensures forall k :: 0 <= k < n ==> s[k] != ']' && (bar ==> s[k] != '|')
    ensures n < |s| ==> s[n] == ']' || (bar && s[n] == '|')
  {
    if s == "" || s[0] == ']' || (bar && s[0] == '|') then 0 else 1 + Span(s[1..], bar)
  }

  function After(prefix: string, s: string): Option<string> {
    if prefix <= s then Some(s[|prefix|..]) else None
  }

  /** What follows the title of an item line. */
  function ParseSummary(s: string): Option<string> {
    match After(CLOSE, s)
    case Some(summary) => if summary != "" && OneLine(summary) then Some(summary) else None
    case None => None
  }

  /** What follows the slug: an optional title, then the summary. */
  function ParseTail(slug: string, s: string): Option<IndexItem> {
    if s != "" && s[0] == '|' then
      var m := Span(s[1..], false);
      match ParseSummary(s[1..][m..])
      case Some(summary) => if m == 0 then None else Some(IndexItem(slug, s[1..][..m], summary))
      case None => None
    else
      match ParseSummary(s)
      case Some(summary) => Some(IndexItem(slug, slug, summary))
      case None => None
  }

  /** The regular expression of an index line, applied to a trimmed line. */
  function ParseItem(line: string): Option<IndexItem> {
    match After(ITEM, line)
    case None => None
    case Some(s) =>
      var n := Span(s, true);
      if n == 0 then None else ParseTail(s[..n], s[n..])
  }

  function ItemsOf(lines: seq<string>): seq<IndexItem> {
    if lines == [] then []
    else
      var rest := ItemsOf(lines[1..]);
      match ParseItem(Trim(lines[0]))
      case None => rest
      case Some(item) => [item] + rest
  }

  /** `parseIndexEntries` as a function of the text. */
  function IndexEntries(text: string): seq<IndexItem> {
    ItemsOf(Split(text, '\n'))
  }

  method ParseIndexEntries(text: string) returns (entries: seq<IndexItem>)
    ensures entries == IndexEntries(text)
  {
    var lines := Split(text, '\n');
    entries := [];
    for i := 0 to |lines|
      invariant entries + ItemsOf(lines[i..]) == ItemsOf(lines)
    {
      assert lines[i..][0] == lines[i] && lines[i..][1..] == lines[i + 1..];
      var item := ParseItem(Trim(lines[i]));
      if item.Some? {
        entries := entries + [item.value];
      }
    }
    assert lines[|lines|..] == [];
  }

  // ---------------------------------------------------------------- one line

  function ItemLine(item: IndexItem): string {
    ITEM + item.slug + "|" + item.title + CLOSE + item.summary
  }

  /** The part of a slug the index line can carry. */
  predicate SlugFits(slug: string) {
    slug != "" && ']' !in slug && '|' !in slug && '\n' !in slug
  }

  predicate TitleFits(title: string) {
    title != "" && ']' !in title && '\n' !in title
  }

  lemma {:induction false} SpanStops(a: string, rest: string, bar: bool)
    requires ']' !in a && (bar ==> '|' !in a)
    requires rest == "" || rest[0] == ']' || (bar && rest[0] == '|')
    ensures Span(a + rest, bar) == |a|
  {
    if a == "" {
      assert a + rest == rest;
    } else {
      assert (a + rest)[1..] == a[1..] + rest;
      SpanStops(a[1..], rest, bar);
    }
  }

  lemma AfterReads(prefix: string, rest: string)
    ensures After(prefix, prefix + rest) == Some(rest)
  {
    assert (prefix + rest)[|prefix|..] == rest;
  }

  lemma SummaryReads(summary: string)
    requires summary != ""
    ensures ParseSummary(CLOSE + summary) == if OneLine(summary) then Some(summary) else None
  {
    AfterReads(CLOSE, summary);
  }

  lemma TailReads(slug: string, title: string, summary: string)
    requires TitleFits(title) && summary != ""
    ensures ParseTail(slug, "|" + (title + (CLOSE + summary)))
         == if OneLine(summary) then Some(IndexItem(slug, title, summary)) else None
  {
    var t := title + (CLOSE + summary);
    assert ("|" + t)[1..] == t;
    SpanStops(title, CLOSE + summary, false);
    assert t[|title|..] == CLOSE + summary && t[..|title|] == title;
    SummaryReads(summary);
  }

  /** A line that breaks off before the summary is no item. */
  lemma TailWithout(slug: string, title: string)
    requires TitleFits(title)
    ensures ParseTail(slug, "|" + (title + BARE)) == None
  {
    var t := title + BARE;
    assert ("|" + t)[1..] == t;
    SpanStops(title, BARE, false);
    assert t[|title|..] == BARE;
  }

  lemma SlugReads(slug: string, tail: string)
    requires SlugFits(slug) && tail != "" && tail[0] == '|'
    ensures ParseItem(ITEM + (slug + tail)) == ParseTail(slug, tail)
  {
    AfterReads(ITEM, slug + tail);
    SpanStops(slug, tail, true);
    assert (slug + tail)[|slug|..] == tail && (slug + tail)[..|slug|] == slug;
  }

  lemma {:induction false} TrimRightAppend(head: string, s: string)
    ensures TrimRight(s) != "" ==> TrimRight(head + s) == head + TrimRight(s)
    ensures TrimRight(s) == "" ==> TrimRight(head + s) == TrimRight(head)
  {
    if s == "" {
      assert head + s == head;
    } else if IsSpace(s[|s| - 1]) {
      TrimRightAppend(head, s[..|s| - 1]);
      assert (head + s)[..|head + s| - 1] == head + s[..|s| - 1];
    }
  }

  /** The summary leaves something on its line, and that is one line. */
  predicate SummaryShows(summary: string) {
    TrimRight(summary) != "" && OneLine(TrimRight(summary))
  }

  lemma ItemLineTrimmed(item: IndexItem)
    ensures Trim(ItemLine(item))
         == ITEM + (item.slug + ("|" + (item.title
              + (if TrimRight(item.summary) == "" then BARE else CLOSE + TrimRight(item.summary)))))
  {
    hide TrimRight;
    var head := ITEM + item.slug + "|" + item.title + CLOSE;
    var bare := ITEM + item.slug + "|" + item.title + BARE;
    assert ItemLine(item)[0] == '-';
    TrimRightAppend(head, item.summary);
    assert head == bare + " ";
    BlankEnd(bare);
  }

  lemma BlankEnd(bare: string)
    requires bare != "" && !IsSpace(bare[|bare| - 1])
    ensures TrimRight(bare + " ") == bare
  {
    assert (bare + " ")[..|bare|] == bare;
  }

  /** An index line reads back as its item exactly when its summary shows; otherwise it is no item at all. */
  lemma ItemRoundTrip(item: IndexItem)
    requires SlugFits(item.slug) && TitleFits(item.title)
    ensures ParseItem(Trim(ItemLine(item)))
         == if SummaryShows(item.summary) then Some(item.(summary := TrimRight(item.summary))) else None
  {
    hide TrimRight, OneLine;
    ItemLineTrimmed(item);
    if TrimRight(item.summary) == "" {
      TailWithout(item.slug, item.title);
      SlugReads(item.slug, "|" + (item.title + BARE));
    } else {
      TailReads(item.slug, item.title, TrimRight(item.summary));
      SlugReads(item.slug, "|" + (item.title + (CLOSE + TrimRight(item.summary))));
    }
  }

  /** Whatever the text, an entry read from it has a slug the index can carry. */
  lemma {:induction false} EntriesFit(lines: seq<string>)
    requires forall line :: line in lines ==> '\n' !in line
    ensures forall item :: item in ItemsOf(lines) ==> SlugFits(item.slug)
  {
    if lines != [] {
      EntriesFit(lines[1..]);
      TrimTrims(lines[0]);
      var line := Trim(lines[0]);
      if ParseItem(line).Some? {
        var s := After(ITEM, line).value;
        assert forall c :: c in s[..Span(s, true)] ==> c in s && c in line;
      }
    }
  }

  // ---------------------------------------------------------------- the whole file

  /** What the index says of a page. */
  datatype Row = Row(section: string, title: string, summary: string)

  function RowItem(slug: string, row: Row): IndexItem {
    IndexItem(slug, row.title, TrimRight(row.summary))
  }

  function RowLine(slug: string, row: Row): string {
    ItemLine(IndexItem(slug, row.title, row.summary))
  }

  function ItemLines(slugs: seq<string>, rows: map<string, Row>): seq<string>
    requires forall slug :: slug in slugs ==> slug in rows
  {
    if slugs == [] then [] else [RowLine(slugs[0], rows[slugs[0]])] + ItemLines(slugs[1..], rows)
  }

  function SlugsIn(section: string, rows: map<string, Row>): set<string> {
    set slug | slug in rows && rows[slug].section == section
  }

  type Order = set<string> -> seq<string>

  ghost predicate Sorts(order: Order) {
    forall s {:trigger order(s)} :: Lists(order(s), s)
  }

  function SectionLines(order: Order, sections: seq<string>, rows: map<string, Row>): seq<string>
    requires Sorts(order)
  {
    if sections == [] then []
    else
      var slugs := SlugsIn(sections[0], rows);
      assert Lists(order(slugs), slugs);
      ["## " + sections[0]] + ItemLines(order(slugs), rows) + [""] + SectionLines(order, sections[1..], rows)
  }

  function Sections(rows: map<string, Row>): set<string> {
    set slug | slug in rows :: rows[slug].section
  }

  function IndexLines(order: Order, rows: map<string, Row>): seq<string>
    requires Sorts(order)
  {
    ["# LLM Wiki", ""] + SectionLines(order, order(Sections(rows)), rows)
  }

  /** The text `rebuildIndex` writes. */
  function IndexText(order: Order, rows: map<string, Row>): string
    requires Sorts(order)
  {
    Trim(Join(IndexLines(order, rows), "\n")) + "\n"
  }

  // ---------------------------------------------------------------- the whole file reads back

  lemma {:induction false} ItemsOfAppend(a: seq<string>, b: seq<string>)
    ensures ItemsOf(a + b) == ItemsOf(a) + ItemsOf(b)
  {
    if a == [] {
      assert a + b == b;
    } else {
      assert (a + b)[1..] == a[1..] + b;
      ItemsOfAppend(a[1..], b);
    }
  }

  lemma ItemsOfOne(line: string)
    ensures ItemsOf([line]) == match ParseItem(Trim(line)) case None => [] case Some(item) => [item]
  {
    assert [line][1..] == [];
  }

  /** Splitting a text that gained a line feed at its end. */
  lemma {:induction false} SplitAppendBreak(s: string)
    ensures Split(s + ['\n'], '\n') == Split(s, '\n') + [""]
  {
    if s == "" {
      assert s + ['\n'] == ['\n'] && ['\n'][1..] == "";
    } else {
      assert (s + ['\n'])[1..] == s[1..] + ['\n'];
      SplitAppendBreak(s[1..]);
    }
  }

  /** Splitting a text that gained another character at its end. */
  lemma {:induction false} SplitAppendOther(s: string, c: char) returns (init: seq<string>, last: string)
    requires c != '\n'
    ensures Split(s, '\n') == init + [last]
    ensures Split(s + [c], '\n') == init + [last + [c]]
  {
    if s == "" {
      assert s + [c] == [c] && [c][1..] == "" && Split("", '\n') == [""];
      assert Split([c], '\n') == [[c] + ""] + [""][1..];
      assert [c] + "" == "" + [c];
      return [], "";
    }
    assert (s + [c])[1..] == s[1..] + [c];
    var init', last' := SplitAppendOther(s[1..], c);
    if s[0] == '\n' {
      assert [""] + init' + [last'] == [""] + (init' + [last']);
      assert [""] + init' + [last' + [c]] == [""] + (init' + [last' + [c]]);
      return [""] + init', last';
    }
    if init' == [] {
      assert [s[0]] + (last' + [c]) == [s[0]] + last' + [c];
      assert Split(s, '\n') == [[s[0]] + last'] + [last'][1..];
      assert Split(s + [c], '\n') == [[s[0]] + (last' + [c])] + [last' + [c]][1..];
      return [], [s[0]] + last';
    }
    assert (init' + [last'])[1..] == init'[1..] + [last'];
    assert (init' + [last' + [c]])[1..] == init'[1..] + [last' + [c]];
    return [[s[0]] + init'[0]] + init'[1..], last';
  }

  /** White space at the end of the file makes no difference to its entries. */
  lemma EntriesIgnoreTrailing(s: string, c: char)
    requires IsSpace(c)
    ensures IndexEntries(s + [c]) == IndexEntries(s)
  {
    if c == '\n' {
      SplitAppendBreak(s);
      ItemsOfAppend(Split(s, '\n'), [""]);
      ItemsOfOne("");
    } else {
      var init, last := SplitAppendOther(s, c);
      TrimIgnoresTrailing(last, c);
      ItemsOfAppend(init, [last + [c]]);
      ItemsOfAppend(init, [last]);
      ItemsOfOne(last);
      ItemsOfOne(last + [c]);
    }
  }

  lemma {:induction false} EntriesIgnoreTrim(s: string)
    ensures IndexEntries(TrimRight(s)) == IndexEntries(s)
  {
    if s != "" && IsSpace(s[|s| - 1]) {
      EntriesIgnoreTrim(s[..|s| - 1]);
      EntriesIgnoreTrailing(s[..|s| - 1], s[|s| - 1]);
      assert s == s[..|s| - 1] + [s[|s| - 1]];
    }
  }

  /** The line is no item: it does not start with a dash. */
  lemma NoItem(line: string)
    requires line == "" || (!IsSpace(line[0]) && line[0] != '-')
    ensures ItemsOf([line]) == []
  {
    ItemsOfOne(line);
    if line != "" {
      TrimLeftSuffix(line);
      TrimRightPrefix(line);
      TrimTrims(line);
      assert TrimLeft(line) == line;
      assert Trim(line) != "" ==> Trim(line)[0] == line[0];
      assert ITEM[0] == '-';
    }
  }

  predicate RowFits(row: Row) {
    '\n' !in row.section && TitleFits(row.title) && '\n' !in row.summary
  }

  ghost predicate RowsFit(rows: map<string, Row>) {
    forall slug :: slug in rows ==> RowFits(rows[slug])
  }

  ghost predicate SlugsFit(rows: map<string, Row>) {
    forall slug :: slug in rows ==> SlugFits(slug)
  }

  /** The pages of the list whose summary shows. */
  function Showing(slugs: set<string>, rows: map<string, Row>): set<string> {
    set slug | slug in slugs && slug in rows && SummaryShows(rows[slug].summary)
  }

  function RowItems(slugs: seq<string>, rows: map<string, Row>): (items: seq<IndexItem>)
    requires forall slug :: slug in slugs ==> slug in rows
  {
    if slugs == [] then []
    else
      (if SummaryShows(rows[slugs[0]].summary) then [RowItem(slugs[0], rows[slugs[0]])] else []) + RowItems(slugs[1..], rows)
  }

  lemma {:induction false} RowItemsAre(slugs: seq<string>, rows: map<string, Row>)
    requires forall slug :: slug in slugs ==> slug in rows
    requires forall i, j :: 0 <= i < j < |slugs| ==> slugs[i] != slugs[j]
    ensures var items := RowItems(slugs, rows);
      && |items| == |Showing(Elements(slugs), rows)|
      && forall item :: item in items <==> item.slug in Showing(Elements(slugs), rows) && item == RowItem(item.slug, rows[item.slug])
  {
    hide SummaryShows, TrimRight;
    if slugs != [] {
      RowItemsAre(slugs[1..], rows);
      ShowingOneMore(slugs, rows);
      hide Showing, Elements, RowItem;
    }
  }

  lemma ShowingOneMore(slugs: seq<string>, rows: map<string, Row>)
    requires slugs != [] && slugs[0] in rows
    requires forall i, j :: 0 <= i < j < |slugs| ==> slugs[i] != slugs[j]
    ensures var rest := Showing(Elements(slugs[1..]), rows);
      && slugs[0] !in rest
      && Showing(Elements(slugs), rows) == rest + if SummaryShows(rows[slugs[0]].summary) then {slugs[0]} else {}
  {
    hide SummaryShows;
    assert slugs[0] !in slugs[1..];
    assert Elements(slugs) == {slugs[0]} + Elements(slugs[1..]);
  }

  lemma RowLineIsOne(slug: string, row: Row)
    requires SlugFits(slug) && RowFits(row)
    ensures '\n' !in RowLine(slug, row)
  {
  }

  lemma {:induction false} ItemLinesRead(slugs: seq<string>, rows: map<string, Row>)
    requires RowsFit(rows) && forall slug :: slug in slugs ==> slug in rows && SlugFits(slug)
    ensures ItemsOf(ItemLines(slugs, rows)) == RowItems(slugs, rows)
    ensures forall line :: line in ItemLines(slugs, rows) ==> '\n' !in line
  {
    hide TrimRight, SummaryShows, ItemLine;
    if slugs != [] {
      ItemLinesRead(slugs[1..], rows);
      var row := rows[slugs[0]];
      ItemRoundTrip(IndexItem(slugs[0], row.title, row.summary));
      RowLineIsOne(slugs[0], row);
      var line, rest := RowLine(slugs[0], row), ItemLines(slugs[1..], rows);
      ItemsOfOne(line);
      ItemsOfAppend([line], rest);
    }
  }

  /** The entries the section list stands for. */
  function SectionItems(order: Order, sections: seq<string>, rows: map<string, Row>): seq<IndexItem>
    requires Sorts(order)
  {
    if sections == [] then []
    else
      var slugs := SlugsIn(sections[0], rows);
      assert Lists(order(slugs), slugs);
      RowItems(order(slugs), rows) + SectionItems(order, sections[1..], rows)
  }

  lemma {:induction false} SectionLinesRead(order: Order, sections: seq<string>, rows: map<string, Row>)
    requires Sorts(order) && RowsFit(rows) && SlugsFit(rows)
    requires forall section :: section in sections ==> '\n' !in section
    ensures ItemsOf(SectionLines(order, sections, rows)) == SectionItems(order, sections, rows)
    ensures forall line :: line in SectionLines(order, sections, rows) ==> '\n' !in line
  {
    if sections != [] {
      var slugs := SlugsIn(sections[0], rows);
      assert Lists(order(slugs), slugs);
      var head, lines := "## " + sections[0], ItemLines(order(slugs), rows);
      var rest := SectionLines(order, sections[1..], rows);
      SectionLinesRead(order, sections[1..], rows);
      ItemLinesRead(order(slugs), rows);
      NoItem(head);
      NoItem("");
      SectionRead(head, lines, rest);
    }
  }

  lemma SectionRead(head: string, lines: seq<string>, rest: seq<string>)
    requires ItemsOf([head]) == [] && ItemsOf([""]) == []
    ensures ItemsOf([head] + lines + [""] + rest) == ItemsOf(lines) + ItemsOf(rest)
  {
    hide ItemsOf;
    ItemsOfAppend([head], lines);
    ItemsOfAppend([head] + lines, [""]);
    ItemsOfAppend([head] + lines + [""], rest);
  }

  /** What the printed index reads back as: the items in printing order. */
  lemma IndexReads(order: Order, rows: map<string, Row>)
    requires Sorts(order) && RowsFit(rows) && SlugsFit(rows)
    ensures IndexEntries(IndexText(order, rows)) == SectionItems(order, order(Sections(rows)), rows)
  {
    hide TrimRight, SectionLines, SectionItems, Split;
    var sections := order(Sections(rows));
    var lines := IndexLines(order, rows);
    assert Lists(sections, Sections(rows));
    SectionLinesRead(order, sections, rows);
    NoItem("# LLM Wiki");
    NoItem("");
    SectionRead("# LLM Wiki", [], SectionLines(order, sections, rows));
    assert lines == ["# LLM Wiki"] + [] + [""] + SectionLines(order, sections, rows);
    var text := Join(lines, "\n");
    SplitJoin(lines, '\n');
    assert text[0] == '#';
    assert TrimLeft(text) == text;
    EntriesIgnoreTrim(text);
    EntriesIgnoreTrailing(Trim(text), '\n');
  }

  // ---------------------------------------------------------------- one entry per page

  ghost function InSections(sections: seq<string>, rows: map<string, Row>): set<string> {
    set slug | slug in rows && rows[slug].section in sections
  }

  /** The printed items are exactly the pages whose summary shows, each counted once. */
  lemma {:induction false} SectionItemsCount(order: Order, sections: seq<string>, rows: map<string, Row>)
    requires Sorts(order) && forall i, j :: 0 <= i < j < |sections| ==> sections[i] != sections[j]
    ensures var items, slugs := SectionItems(order, sections, rows), Showing(InSections(sections, rows), rows);
      && |items| == |slugs|
      && forall item :: item in items <==> item.slug in slugs && item == RowItem(item.slug, rows[item.slug])
  {
    hide SummaryShows, TrimRight, RowItems;
    if sections != [] {
      var first, rest := SlugsIn(sections[0], rows), InSections(sections[1..], rows);
      var names := order(first);
      assert Lists(names, first);
      forall i, j | 0 <= i < j < |names| ensures names[i] != names[j] { ListsOnce(names, first, i, j); }
      assert Elements(names) == first;
      RowItemsAre(names, rows);
      assert sections[0] !in sections[1..];
      SectionItemsCount(order, sections[1..], rows);
      assert InSections(sections, rows) == first + rest && first !! rest;
      assert Showing(first + rest, rows) == Showing(first, rows) + Showing(rest, rows);
    }
  }

  /**
   * The rebuilt index holds exactly one entry per page whose summary shows, with its title and its
   * summary, whatever order the sections and pages are printed in.
   */
  lemma IndexRoundTrip(order: Order, rows: map<string, Row>)
    requires Sorts(order) && RowsFit(rows) && SlugsFit(rows)
    ensures var entries := IndexEntries(IndexText(order, rows));
      && |entries| == |Showing(rows.Keys, rows)|
      && forall item :: item in entries <==> item.slug in Showing(rows.Keys, rows) && item == RowItem(item.slug, rows[item.slug])
  {
    hide SummaryShows, TrimRight;
    var sections := order(Sections(rows));
    assert Lists(sections, Sections(rows));
    forall i, j | 0 <= i < j < |sections|
      ensures sections[i] != sections[j]
    {
      ListsOnce(sections, Sections(rows), i, j);
    }
    IndexReads(order, rows);
    SectionItemsCount(order, sections, rows);
    assert InSections(sections, rows) == rows.Keys by {
      assert forall slug :: slug in rows ==> rows[slug].section in Sections(rows);
    }
  }

  lemma {:induction false} RowItemsSize(slugs: set<string>, rows: map<string, Row>)
    requires slugs <= rows.Keys
    ensures |set slug | slug in slugs :: RowItem(slug, rows[slug])| == |slugs|
  {
    hide TrimRight;
    if slugs != {} {
      var first :| first in slugs;
      RowItemsSize(slugs - {first}, rows);
      assert (set slug | slug in slugs :: RowItem(slug, rows[slug]))
        == (set slug | slug in slugs - {first} :: RowItem(slug, rows[slug])) + {RowItem(first, rows[first])};
    }
  }

  /** No two entries of the rebuilt index share a slug. */
  lemma IndexHasNoRepeats(order: Order, rows: map<string, Row>, i: nat, j: nat)
    requires Sorts(order) && RowsFit(rows) && SlugsFit(rows)
    requires i < j < |IndexEntries(IndexText(order, rows))|
    ensures var entries := IndexEntries(IndexText(order, rows));
      entries[i].slug != entries[j].slug
  {
    hide TrimRight, SummaryShows;
    var entries, shown := IndexEntries(IndexText(order, rows)), Showing(rows.Keys, rows);
    var items := set slug | slug in shown :: RowItem(slug, rows[slug]);
    IndexRoundTrip(order, rows);
    RowItemsSize(shown, rows);
    assert forall item :: item in entries <==> item in items;
    ListsOnce(entries, items, i, j);
    assert entries[i] in entries && entries[j] in entries;
  }

  /** A slug the index line cannot carry never comes back from any index text. */
  lemma UnfitSlugIsMissing(text: string, slug: string)
    requires !SlugFits(slug)
    ensures forall item :: item in IndexEntries(text) ==> item.slug != slug
  {
    EntriesFit(Split(text, '\n'));
  }
}
