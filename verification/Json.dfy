/**
 * JSON text of strings and of arrays of strings: what `JSON.stringify` prints and `JSON.parse` reads. Strings
 * are sequences of Unicode characters, so lone surrogates do not occur.
 */
module Json {
  import opened Text

  // ---------------------------------------------------------------- printing

  function HexDigit(n: nat): (c: char)
    requires n < 16
    ensures HexValue(c) == Some(n)
  {
    if n < 10 then '0' + n as char else 'a' + (n - 10) as char
  }

  function HexValue(c: char): (r: Option<nat>)
    ensures r.Some? ==> r.value < 16
  {
    if '0' <= c <= '9' then Some(c as int - '0' as int)
    else if 'a' <= c <= 'f' then Some(c as int - 'a' as int + 10)
    else if 'A' <= c <= 'F' then Some(c as int - 'A' as int + 10)
    else None
  }

  const BACKSPACE: char := 8 as char
  const FORM_FEED: char := 12 as char

  predicate Control(c: char) {
    c < ' '
  }

  function Escape(c: char): string {
    if c == '"' then "\\\""
    else if c == '\\' then "\\\\"
    else if c == BACKSPACE then "\\b"
    else if c == FORM_FEED then "\\f"
    else if c == '\n' then "\\n"
    else if c == '\r' then "\\r"
    else if c == '\t' then "\\t"
    else if Control(c) then "\\u00" + [HexDigit(c as int / 16), HexDigit(c as int % 16)]
    else [c]
  }

  function Escaped(s: string): string {
    if s == "" then "" else Escape(s[0]) + Escaped(s[1..])
  }

  /** `JSON.stringify` of a string. */
  function Quoted(s: string): string {
    "\"" + Escaped(s) + "\""
  }

  function QuotedList(items: seq<string>): string {
    if items == [] then ""
    else if |items| == 1 then Quoted(items[0])
    else Quoted(items[0]) + "," + QuotedList(items[1..])
  }

  /** `JSON.stringify` of an array of strings. */
  function ArrayText(items: seq<string>): string {
    "[" + QuotedList(items) + "]"
  }

  // ---------------------------------------------------------------- reading

  datatype Unit = Unit(c: char, rest: string)

  datatype Read = Read(value: string, rest: string)

  function Hex4(text: string): Option<nat> {
    if |text| < 4 then None
    else
      match (HexValue(text[0]), HexValue(text[1]), HexValue(text[2]), HexValue(text[3]))
      case (Some(a), Some(b), Some(c), Some(d)) => Some(((a * 16 + b) * 16 + c) * 16 + d)
      case _ => None
  }

  /** The character of a code unit and, for a leading surrogate, of the escape that has to follow. */
  function ReadUnicode(text: string): (r: Option<Unit>)
    ensures r.Some? ==> |r.value.rest| < |text|
  {
    match Hex4(text)
    case None => None
    case Some(n) =>
      if n < 0xD800 || 0xE000 <= n < 0x1_0000 then Some(Unit(n as char, text[4..]))
      else if 0xD800 <= n < 0xDC00 && |text| >= 10 && text[4..6] == "\\u" then
        match Hex4(text[6..])
        case Some(m) =>
          if 0xDC00 <= m < 0xE000 then
            Some(Unit((0x1_0000 + (n - 0xD800) * 0x400 + (m - 0xDC00)) as char, text[10..]))
          else None
        case None => None
      else None
  }

  function Named(c: char): Option<char> {
    match c
    case '"' => Some('"')
    case '\\' => Some('\\')
    case '/' => Some('/')
    case 'b' => Some(BACKSPACE)
    case 'f' => Some(FORM_FEED)
    case 'n' => Some('\n')
    case 'r' => Some('\r')
    case 't' => Some('\t')
    case _ => None
  }

  /** One character of a string literal, escaped or not. */
  function ReadUnit(text: string): (r: Option<Unit>)
    requires text != ""
    ensures r.Some? ==> |r.value.rest| < |text|
  {
    if text[0] != '\\' then (if Control(text[0]) then None else Some(Unit(text[0], text[1..])))
    else if |text| == 1 then None
    else if text[1] == 'u' then ReadUnicode(text[2..])
    else
      match Named(text[1])
      case Some(c) => Some(Unit(c, text[2..]))
      case None => None
  }

  /** The rest of a string literal whose opening quote has been read. */
  function ReadString(text: string): (r: Option<Read>)
    ensures r.Some? ==> |r.value.rest| + |r.value.value| < |text|
    decreases |text|
  {
    if text == "" then None
    else if text[0] == '"' then Some(Read("", text[1..]))
    else
      match ReadUnit(text)
      case None => None
      case Some(u) =>
        match ReadString(u.rest)
        case None => None
        case Some(r) => Some(Read([u.c] + r.value, r.rest))
  }

  predicate Blank(c: char) {
    c == ' ' || c == '\t' || c == '\n' || c == '\r'
  }

  function SkipBlanks(text: string): (r: string)
    ensures |r| <= |text|
  {
    if text != "" && Blank(text[0]) then SkipBlanks(text[1..]) else text
  }

  /** The elements of an array of strings, up to the end of the text. */
  function ReadItems(text: string): Option<seq<string>>
    decreases |text|
  {
    if text == "" || text[0] != '"' then None
    else
      match ReadString(text[1..])
      case None => None
      case Some(r) =>
        var rest := SkipBlanks(r.rest);
        if rest == "" then None
        else if rest[0] == ',' then
          (match ReadItems(SkipBlanks(rest[1..]))
           case None => None
           case Some(items) => Some([r.value] + items))
        else if rest[0] == ']' && SkipBlanks(rest[1..]) == "" then Some([r.value])
        else None
  }

  /** `JSON.parse`, where the text is an array of strings. */
  function ReadArray(text: string): Option<seq<string>> {
    if text == "" || text[0] != '[' then None
    else
      var rest := SkipBlanks(text[1..]);
      if rest != "" && rest[0] == ']' then (if SkipBlanks(rest[1..]) == "" then Some([]) else None)
      else ReadItems(rest)
  }

  /** `JSON.parse`, where the text is one string and nothing follows it. */
  function ReadQuoted(text: string): (r: Option<string>)
    ensures r.Some? ==> |r.value| + 2 <= |text|
  {
    if text == "" || text[0] != '"' then None
    else
      match ReadString(text[1..])
      case Some(r) => if r.rest == "" then Some(r.value) else None
      case None => None
  }

  // ---------------------------------------------------------------- the round trip

  lemma HexPair(n: nat, tail: string)
    requires n < 32
    ensures Hex4("00" + [HexDigit(n / 16), HexDigit(n % 16)] + tail) == Some(n)
  {
    var text := "00" + [HexDigit(n / 16), HexDigit(n % 16)] + tail;
    assert text[0] == '0' && text[1] == '0' && text[2] == HexDigit(n / 16) && text[3] == HexDigit(n % 16);
  }

  lemma ControlReads(c: char, tail: string)
    requires Control(c)
    ensures var text := "\\u00" + [HexDigit(c as int / 16), HexDigit(c as int % 16)] + tail;
            ReadUnit(text) == Some(Unit(c, tail))
  {
    var hex := [HexDigit(c as int / 16), HexDigit(c as int % 16)];
    var text := "\\u00" + hex + tail;
    HexPair(c as int, tail);
    assert text[2..] == "00" + hex + tail;
    assert text[2..][4..] == tail;
  }

  lemma EscapeReads(c: char, tail: string)
    ensures Escape(c) != "" && Escape(c)[0] != '"'
    ensures ReadUnit(Escape(c) + tail) == Some(Unit(c, tail))
  {
    hide ReadUnicode;
    var text := Escape(c) + tail;
    if Control(c) && |Escape(c)| == 6 {
      ControlReads(c, tail);
    } else if |Escape(c)| == 2 {
      assert text[2..] == tail && text[0] == '\\' && text[1] == Escape(c)[1];
    } else {
      assert text[1..] == tail;
    }
  }

  lemma {:induction false} StringReads(s: string, tail: string)
    ensures ReadString(Escaped(s) + "\"" + tail) == Some(Read(s, tail))
  {
    hide Escape, ReadUnit;
    if s == "" {
      assert Escaped(s) + "\"" + tail == "\"" + tail;
      assert ("\"" + tail)[1..] == tail;
    } else {
      var more := Escaped(s[1..]) + "\"" + tail;
      StringReads(s[1..], tail);
      EscapeReads(s[0], more);
      assert Escaped(s) + "\"" + tail == Escape(s[0]) + more;
      assert [s[0]] + s[1..] == s;
    }
  }

  /** Parsing undoes printing, for every string. */
  lemma QuotedReads(s: string)
    ensures ReadQuoted(Quoted(s)) == Some(s)
  {
    StringReads(s, "");
    assert Quoted(s)[1..] == Escaped(s) + "\"" + "";
  }

  lemma LastItemReads(s: string)
    ensures ReadItems(Quoted(s) + "]") == Some([s])
  {
    hide ReadString, Escaped;
    var text := Quoted(s) + "]";
    StringReads(s, "]");
    assert text[1..] == Escaped(s) + "\"" + "]";
    assert SkipBlanks("]") == "]";
    assert "]"[1..] == "";
    assert SkipBlanks("") == "";
  }

  lemma NextItemReads(s: string, more: string)
    requires more != "" && more[0] == '"' && ReadItems(more).Some?
    ensures ReadItems(Quoted(s) + "," + more) == Some([s] + ReadItems(more).value)
  {
    hide ReadString, Escaped;
    var text := Quoted(s) + "," + more;
    StringReads(s, "," + more);
    assert text[1..] == Escaped(s) + "\"" + ("," + more);
    var rest := "," + more;
    assert SkipBlanks(rest) == rest && rest[1..] == more;
    assert SkipBlanks(more) == more;
  }

  lemma {:induction false} ItemsRead(items: seq<string>)
    requires items != []
    ensures ReadItems(QuotedList(items) + "]") == Some(items)
    ensures QuotedList(items)[0] == '"'
  {
    hide ReadItems, Escaped;
    if |items| == 1 {
      LastItemReads(items[0]);
      assert [items[0]] == items;
    } else {
      var more := QuotedList(items[1..]) + "]";
      ItemsRead(items[1..]);
      NextItemReads(items[0], more);
      assert QuotedList(items) + "]" == Quoted(items[0]) + "," + more;
      assert [items[0]] + items[1..] == items;
    }
  }

  /** Parsing undoes printing, for every array of strings. */
  lemma ArrayReads(items: seq<string>)
    ensures ReadArray(ArrayText(items)) == Some(items)
  {
    hide ReadItems;
    var text := ArrayText(items);
    assert text[1..] == QuotedList(items) + "]";
    if items == [] {
      assert text[1..] == "]" && SkipBlanks("]") == "]" && SkipBlanks("") == "";
      assert "]"[1..] == "";
    } else {
      ItemsRead(items);
      assert text[1..][0] == '"';
    }
  }

  // ---------------------------------------------------------------- apostrophes

  /** The length of the printed character the text starts with; 0 for an apostrophe and for other escapes. */
  function UnitSize(text: string): (n: nat)
    requires text != ""
    ensures n <= |text|
  {
    if text[0] != '\\' then (if text[0] == '\'' then 0 else 1)
    else if |text| >= 2 && text[1] != 'u' then 2
    else if |text| >= 6 && text[1] == 'u' && text[2] == '0' && text[3] == '0' && (text[4] == '0' || text[4] == '1') then 6
    else 0
  }

  /** Printed text, possibly with more quotes: no character of it stands for an apostrophe. */
  ghost predicate Units(text: string)
    decreases |text|
  {
    text == "" || (UnitSize(text) > 0 && Units(text[UnitSize(text)..]))
  }

  lemma UnitSizeJoin(a: string, b: string)
    requires a != "" && UnitSize(a) > 0
    ensures UnitSize(a + b) == UnitSize(a) && (a + b)[UnitSize(a)..] == a[UnitSize(a)..] + b
  {
  }

  lemma {:induction false} UnitsJoin(a: string, b: string)
    requires Units(a) && Units(b)
    ensures Units(a + b)
    decreases |a|
  {
    hide UnitSize;
    if a == "" {
      assert a + b == b;
    } else {
      UnitSizeJoin(a, b);
      UnitsJoin(a[UnitSize(a)..], b);
    }
  }

  lemma HighUnicode(text: string)
    requires |text| >= 4 && text[..2] == "00" && (text[2] == '0' || text[2] == '1')
    ensures ReadUnicode(text).Some? ==> ReadUnicode(text).value.rest == text[4..] && ReadUnicode(text).value.c < ' '
  {
    assert text[0] == '0' && text[1] == '0';
  }

  lemma UnitOfUnits(text: string)
    requires text != "" && Units(text) && ReadUnit(text).Some?
    ensures Units(ReadUnit(text).value.rest) && ReadUnit(text).value.c != '\''
  {
    hide ReadUnicode;
    if text[0] == '\\' && text[1] == 'u' {
      assert text[2..][..2] == "00";
      HighUnicode(text[2..]);
      assert text[2..][4..] == text[6..];
    }
  }

  lemma {:induction false} StringOfUnits(text: string)
    requires Units(text) && ReadString(text).Some?
    ensures Units(ReadString(text).value.rest) && '\'' !in ReadString(text).value.value
    decreases |text|
  {
    hide ReadUnit;
    if text[0] != '"' {
      UnitOfUnits(text);
      StringOfUnits(ReadUnit(text).value.rest);
    }
  }

  lemma {:induction false} BlanksOfUnits(text: string)
    requires Units(text)
    ensures Units(SkipBlanks(text))
  {
    if text != "" && Blank(text[0]) {
      BlanksOfUnits(text[1..]);
    }
  }

  lemma {:induction false} ItemsOfUnits(text: string)
    requires Units(text) && ReadItems(text).Some?
    ensures forall item :: item in ReadItems(text).value ==> '\'' !in item
    decreases |text|
  {
    hide ReadString;
    StringOfUnits(text[1..]);
    var r := ReadString(text[1..]).value;
    BlanksOfUnits(r.rest);
    var rest := SkipBlanks(r.rest);
    if rest[0] == ',' {
      BlanksOfUnits(rest[1..]);
      ItemsOfUnits(SkipBlanks(rest[1..]));
    }
  }

  /** What is read from such text has no apostrophe in it. */
  lemma ArrayOfUnits(text: string)
    requires Units(text) && ReadArray(text).Some?
    ensures forall item :: item in ReadArray(text).value ==> '\'' !in item
  {
    BlanksOfUnits(text[1..]);
    var rest := SkipBlanks(text[1..]);
    if rest != "" && rest[0] != ']' {
      ItemsOfUnits(rest);
    }
  }

  /** Every apostrophe made a quote. */
  function Requoted(text: string): (r: string)
    ensures |r| == |text|
    ensures forall i :: 0 <= i < |r| ==> r[i] == if text[i] == '\'' then '"' else text[i]
  {
    seq(|text|, i requires 0 <= i < |text| => if text[i] == '\'' then '"' else text[i])
  }

  lemma RequotedJoin(a: string, b: string)
    ensures Requoted(a + b) == Requoted(a) + Requoted(b)
  {
  }

  lemma RequotedSame(text: string)
    requires '\'' !in text
    ensures Requoted(text) == text
  {
  }

  lemma EscapeUnits(c: char)
    ensures Units(Requoted(Escape(c)))
    ensures c != '\'' ==> '\'' !in Escape(c)
  {
    var text := Requoted(Escape(c));
    if |text| == 6 {
      var hi, lo := HexDigit(c as int / 16), HexDigit(c as int % 16);
      assert hi != '\'' && lo != '\'';
      assert text == "\\u00" + [hi, lo];
      assert text[6..] == "";
    } else if |text| == 2 {
      assert text[2..] == "";
    } else {
      assert text[1..] == "";
    }
  }

  lemma {:induction false} EscapedUnits(s: string)
    ensures Units(Requoted(Escaped(s)))
    ensures '\'' !in s ==> '\'' !in Escaped(s)
  {
    hide Escape, Units, Requoted;
    if s == "" {
      NoUnits();
    } else {
      EscapeUnits(s[0]);
      EscapedUnits(s[1..]);
      RequotedJoin(Escape(s[0]), Escaped(s[1..]));
      UnitsJoin(Requoted(Escape(s[0])), Requoted(Escaped(s[1..])));
    }
  }

  lemma NoUnits()
    ensures Units(Requoted("")) && Units("\"") && Units(",") && Units("[") && Units("]")
  {
    assert Requoted("") == "";
    assert "\""[1..] == "" && ","[1..] == "" && "["[1..] == "" && "]"[1..] == "";
  }

  lemma QuotedUnits(s: string)
    ensures Units(Requoted(Quoted(s)))
    ensures '\'' !in s ==> '\'' !in Quoted(s)
  {
    hide Units, Requoted;
    EscapedUnits(s);
    NoUnits();
    RequotedSame("\"");
    RequotedJoin("\"", Escaped(s));
    RequotedJoin("\"" + Escaped(s), "\"");
    UnitsJoin("\"", Requoted(Escaped(s)));
    UnitsJoin("\"" + Requoted(Escaped(s)), "\"");
  }

  lemma {:induction false} ListUnits(items: seq<string>)
    ensures Units(Requoted(QuotedList(items)))
    ensures (forall item :: item in items ==> '\'' !in item) ==> '\'' !in QuotedList(items)
  {
    hide Units, Requoted, Quoted;
    if items == [] {
      NoUnits();
    } else {
      QuotedUnits(items[0]);
      if |items| > 1 {
        ListUnits(items[1..]);
        NoUnits();
        RequotedSame(",");
        RequotedJoin(Quoted(items[0]), ",");
        RequotedJoin(Quoted(items[0]) + ",", QuotedList(items[1..]));
        UnitsJoin(Requoted(Quoted(items[0])), ",");
        UnitsJoin(Requoted(Quoted(items[0])) + ",", Requoted(QuotedList(items[1..])));
      }
    }
  }

  lemma ArrayTextUnits(items: seq<string>)
    ensures Units(Requoted(ArrayText(items)))
    ensures (forall item :: item in items ==> '\'' !in item) ==> '\'' !in ArrayText(items)
  {
    hide Units, Requoted, QuotedList;
    ListUnits(items);
    NoUnits();
    RequotedSame("[");
    RequotedSame("]");
    RequotedJoin("[", QuotedList(items));
    RequotedJoin("[" + QuotedList(items), "]");
    UnitsJoin("[", Requoted(QuotedList(items)));
    UnitsJoin("[" + Requoted(QuotedList(items)), "]");
  }

  /**
   * An array printed by `JSON.stringify` and read after its apostrophes were made quotes comes back exactly
   * when no string in it has an apostrophe.
   */
  lemma RequotedArrayIff(items: seq<string>)
    ensures ReadArray(Requoted(ArrayText(items))) == Some(items) <==> forall item :: item in items ==> '\'' !in item
  {
    hide ReadArray, Units, Requoted, ArrayText;
    ArrayTextUnits(items);
    if forall item :: item in items ==> '\'' !in item {
      RequotedSame(ArrayText(items));
      ArrayReads(items);
    } else if ReadArray(Requoted(ArrayText(items))).Some? {
      ArrayOfUnits(Requoted(ArrayText(items)));
    }
  }
}
