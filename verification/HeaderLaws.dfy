/**
 * What the header parser makes of lines that people write: values in every notation, any indentation, lists on
 * lines of their own; told from the characters of the lines (frontmatter.js).
 */
module HeaderLaws {
  import opened Text
  import opened Whitespace
  import opened TextLaws
  import opened WikiTree
  import opened PageFile
  import Json
  import F = Frontmatter
  import T = FrontmatterTheorems

  // ---------------------------------------------------------------- values

  /** The number that decimal digits spell. */
  function Decimal(digits: string): nat
    requires F.AllDigits(digits)
  {
    if digits == "" then 0
    else
      assert F.Digit(digits[0]);
      var low := digits[|digits| - 1];
      assert F.Digit(low);
      (low as int - 48) + 10 * Decimal(digits[..|digits| - 1])
  }

  predicate Digits(s: string) {
    s != "" && forall c :: c in s ==> c in "0123456789"
  }

  lemma {:induction false} NatIs(s: string)
    requires F.AllDigits(s)
    ensures F.NatOf(s) == Decimal(s)
  {
    if s != "" {
      NatIs(s[..|s| - 1]);
    }
  }

  /** White space around a value makes no difference. */
  lemma PaddedValue(a: string, v: string, b: string, json: F.JsonReader)
    requires Blanks(a) && Blanks(b) && IsTrimmed(v)
    ensures F.ParseScalar(a + v + b, json) == F.ParseScalar(v, json)
  {
    TrimOf(a, v, b);
    TrimOf("", v, "");
    assert "" + v + "" == v;
    hide *;
    hide Trim;
    SameTrim(a + v + b, v, json);
  }

  lemma SameTrim(a: string, b: string, json: F.JsonReader)
    requires Trim(a) == Trim(b)
    ensures F.ParseScalar(a, json) == F.ParseScalar(b, json)
  {
    hide Trim, F.IsInteger, F.Wrapped;
  }

  /** A text in single quotes is the text between them, whatever it is. */
  lemma SingleQuotedReads(s: string, json: F.JsonReader)
    ensures F.ParseScalar("'" + s + "'", json) == F.Str(s)
  {
    var v := "'" + s + "'";
    assert v[1..|v| - 1] == s && v[0] == '\'' && v[|v| - 1] == '\'';
    TrimTrims(v);
    hide Trim;
  }

  /** A text in double quotes is what its escapes stand for, and if they are no JSON the text between the quotes. */
  lemma DoubleQuotedReads(s: string, json: F.JsonReader)
    requires F.ReadsTheRest(json)
    ensures var v := "\"" + s + "\"";
            && (forall t :: Json.ReadQuoted(v) == Some(t) ==> F.ParseScalar(v, json) == F.Str(t))
            && (Json.ReadQuoted(v).None? && json(v).None? ==> F.ParseScalar(v, json) == F.Str(s))
  {
    var v := "\"" + s + "\"";
    assert v[1..|v| - 1] == s && v[0] == '"' && v[|v| - 1] == '"';
    TrimTrims(v);
    hide Trim, F.ReadsTheRest;
    assert Json.ReadArray(v).None?;
    hide Json.ReadQuoted, Json.ReadArray;
  }

  /** Decimal digits, with a sign or not, are a number. */
  lemma NumberReads(s: string, json: F.JsonReader)
    requires Digits(s)
    ensures F.AllDigits(s)
    ensures F.ParseScalar(s, json) == F.Num(Decimal(s)) && F.ParseScalar("-" + s, json) == F.Num(-(Decimal(s) as int))
  {
    DigitsAre(s);
    NatIs(s);
    TrimTrims(s);
    TrimTrims("-" + s);
    hide Trim;
    assert ("-" + s)[1..] == s && s[0] in s;
  }

  /** A text that starts with a bracket is the JSON it is once its apostrophes are quotes, or else itself. */
  lemma BracketReads(v: string, json: F.JsonReader)
    requires IsTrimmed(v) && v != "" && v[0] == '['
    ensures forall items :: Json.ReadArray(Json.Requoted(v)) == Some(items) ==>
              F.ParseScalar(v, json) == F.Arr(F.Strings(items))
    ensures Json.ReadArray(Json.Requoted(v)).None? && json(Json.Requoted(v)).None? ==> F.ParseScalar(v, json) == F.Str(v)
  {
    TrimTrims(v);
    hide Trim;
    assert Json.ReadQuoted(Json.Requoted(v)).None?;
    hide Json.ReadQuoted, Json.ReadArray, Json.Requoted;
  }

  lemma DigitsAre(s: string)
    requires Digits(s)
    ensures F.AllDigits(s) && F.IsInteger(s) && F.IsInteger("-" + s) && IsTrimmed(s) && IsTrimmed("-" + s)
  {
    assert s[0] in s && s[|s| - 1] in s;
    assert ("-" + s)[1..] == s;
    assert ("-" + s)[|s|] == s[|s| - 1];
  }

  // ---------------------------------------------------------------- escapes

  predicate IsHex(c: char, n: nat) {
    n < 16 && (c == "0123456789abcdef"[n] || c == "0123456789ABCDEF"[n])
  }

  /** Four hexadecimal digits and the number they spell. */
  predicate IsHex4(s: string, n: nat) {
    && |s| == 4 && n < 0x1_0000
    && IsHex(s[0], n / 0x1000) && IsHex(s[1], n / 0x100 % 16) && IsHex(s[2], n / 16 % 16) && IsHex(s[3], n % 16)
  }

  const ESCAPED: string := "\"\\/bfnrt"
  const MEANT: string := "\"\\/\U{8}\U{C}\n\r\t"

  /** How JSON (RFC 8259, section 7) may spell a character in a string. */
  ghost predicate Spells(s: string, c: char) {
    || (s == [c] && c != '"' && c != '\\' && c >= ' ')
    || (exists i :: 0 <= i < |ESCAPED| && s == ['\\', ESCAPED[i]] && c == MEANT[i])
    || (|s| == 6 && s[..2] == "\\u" && IsHex4(s[2..], c as int))
    || (|s| == 12 && s[..2] == "\\u" && s[6..8] == "\\u"
        && c as int >= 0x1_0000 && IsHex4(s[2..6], 0xD800 + (c as int - 0x1_0000) / 0x400)
        && IsHex4(s[8..], 0xDC00 + (c as int - 0x1_0000) % 0x400))
  }

  lemma HexIff(c: char, n: nat)
    ensures Json.HexValue(c) == Some(n) <==> IsHex(c, n)
  {
  }

  lemma Digits4(a: nat, b: nat, c: nat, d: nat)
    requires a < 16 && b < 16 && c < 16 && d < 16
    ensures var n := ((a * 16 + b) * 16 + c) * 16 + d;
            n < 0x1_0000 && n / 0x1000 == a && n / 0x100 % 16 == b && n / 16 % 16 == c && n % 16 == d
  {
    var n := ((a * 16 + b) * 16 + c) * 16 + d;
    assert n / 16 == (a * 16 + b) * 16 + c && n / 0x100 == n / 16 / 16 && n / 0x1000 == n / 0x100 / 16;
  }

  lemma FourDigits(n: nat)
    requires n < 0x1_0000
    ensures n / 0x1000 < 16 && n == ((n / 0x1000 * 16 + n / 0x100 % 16) * 16 + n / 16 % 16) * 16 + n % 16
  {
    assert n / 0x1000 == n / 0x100 / 16 && n / 0x100 == n / 16 / 16;
  }

  lemma Hex4Iff(text: string, n: nat)
    requires |text| >= 4
    ensures Json.Hex4(text) == Some(n) <==> IsHex4(text[..4], n)
  {
    hide Json.HexValue, IsHex;
    if n < 0x1_0000 {
      FourDigits(n);
      HexIff(text[0], n / 0x1000);
      HexIff(text[1], n / 0x100 % 16);
      HexIff(text[2], n / 16 % 16);
      HexIff(text[3], n % 16);
    }
    match (Json.HexValue(text[0]), Json.HexValue(text[1]), Json.HexValue(text[2]), Json.HexValue(text[3]))
    case (Some(a), Some(b), Some(c), Some(d)) => Digits4(a, b, c, d);
    case _ =>
  }

  lemma NamedIff(c: char, m: char)
    ensures Json.Named(c) == Some(m) <==> exists i :: 0 <= i < |ESCAPED| && ESCAPED[i] == c && MEANT[i] == m
  {
    assert ESCAPED[0] == '"' && ESCAPED[1] == '\\' && ESCAPED[2] == '/' && ESCAPED[3] == 'b';
    assert ESCAPED[4] == 'f' && ESCAPED[5] == 'n' && ESCAPED[6] == 'r' && ESCAPED[7] == 't';
  }

  /** The spelling of a character behind a backslash and a `u`. */
  ghost predicate SpelledOut(text: string, c: char, rest: string) {
    || (|text| >= 4 && IsHex4(text[..4], c as int) && rest == text[4..])
    || (|text| >= 10 && text[4..6] == "\\u" && c as int >= 0x1_0000 && rest == text[10..]
        && IsHex4(text[..4], 0xD800 + (c as int - 0x1_0000) / 0x400)
        && IsHex4(text[6..10], 0xDC00 + (c as int - 0x1_0000) % 0x400))
  }

  lemma Halves(h: nat, l: nat)
    requires h < 0x400 && l < 0x400
    ensures (h * 0x400 + l) / 0x400 == h && (h * 0x400 + l) % 0x400 == l
  {
  }

  lemma UnicodeReads(text: string, c: char, rest: string)
    requires Json.ReadUnicode(text) == Some(Json.Unit(c, rest))
    ensures SpelledOut(text, c, rest)
  {
    hide Json.Hex4, IsHex4;
    var n := Json.Hex4(text).value;
    assert |text| >= 4 by { if |text| < 4 { NoHex(text); } }
    Hex4Iff(text, n);
    if 0xD800 <= n < 0xDC00 {
      var m := Json.Hex4(text[6..]).value;
      Hex4Iff(text[6..], m);
      assert text[6..][..4] == text[6..10];
      Halves(n - 0xD800, m - 0xDC00);
    }
  }

  lemma NoHex(text: string)
    requires |text| < 4
    ensures Json.Hex4(text).None?
  {
  }

  lemma ShortReads(text: string, c: char)
    requires |text| >= 4 && IsHex4(text[..4], c as int)
    ensures Json.ReadUnicode(text) == Some(Json.Unit(c, text[4..]))
  {
    Hex4Iff(text, c as int);
    hide Json.Hex4, IsHex;
  }

  lemma Halved(n: nat)
    requires n < 0x10_0000
    ensures n / 0x400 < 0x400 && n == n / 0x400 * 0x400 + n % 0x400
  {
  }

  lemma PairMeans(text: string, high: nat, low: nat, c: char)
    requires |text| >= 10 && text[4..6] == "\\u" && high < 0x400 && low < 0x400
    requires c as int == 0x1_0000 + (high * 0x400 + low)
    requires Json.Hex4(text) == Some(0xD800 + high) && Json.Hex4(text[6..]) == Some(0xDC00 + low)
    ensures Json.ReadUnicode(text) == Some(Json.Unit(c, text[10..]))
  {
    hide Json.Hex4;
  }

  lemma PairReads(text: string, c: char)
    requires |text| >= 10 && text[4..6] == "\\u" && c as int >= 0x1_0000
    requires IsHex4(text[..4], 0xD800 + (c as int - 0x1_0000) / 0x400)
    requires IsHex4(text[6..10], 0xDC00 + (c as int - 0x1_0000) % 0x400)
    ensures Json.ReadUnicode(text) == Some(Json.Unit(c, text[10..]))
  {
    hide Json.Hex4, IsHex4, Json.ReadUnicode;
    var n: nat := c as int - 0x1_0000;
    Halved(n);
    assert text[6..][..4] == text[6..10];
    Hex4Iff(text, 0xD800 + n / 0x400);
    Hex4Iff(text[6..], 0xDC00 + n % 0x400);
    PairMeans(text, n / 0x400, n % 0x400, c);
  }

  lemma SpelledReads(text: string, c: char, rest: string)
    requires SpelledOut(text, c, rest)
    ensures Json.ReadUnicode(text) == Some(Json.Unit(c, rest))
  {
    hide Json.ReadUnicode, IsHex4;
    if |text| >= 4 && IsHex4(text[..4], c as int) && rest == text[4..] {
      ShortReads(text, c);
    } else {
      PairReads(text, c);
    }
  }

  lemma UnitReads(text: string, c: char, rest: string) returns (s: string)
    requires text != "" && Json.ReadUnit(text) == Some(Json.Unit(c, rest)) && text[0] != '"'
    ensures Spells(s, c) && text == s + rest
  {
    hide Json.ReadUnicode, IsHex4, SpelledOut;
    if text[0] != '\\' {
      s := text[..1];
    } else if text[1] == 'u' {
      UnicodeReads(text[2..], c, rest);
      s := SpelledText(text, c, rest);
    } else {
      NamedIff(text[1], c);
      s := text[..2];
    }
    Prefixed(text, s, rest);
  }

  lemma SpelledText(text: string, c: char, rest: string) returns (s: string)
    requires |text| >= 2 && text[..2] == "\\u" && SpelledOut(text[2..], c, rest)
    ensures Spells(s, c) && s <= text && rest == text[|s|..]
  {
    hide IsHex4;
    if |text| >= 6 && IsHex4(text[2..][..4], c as int) && rest == text[2..][4..] {
      s := text[..6];
      assert s[2..] == text[2..][..4] && s[..2] == text[..2];
    } else {
      s := text[..12];
      assert s[2..6] == text[2..][..4] && s[8..] == text[2..][6..10] && s[..2] == text[..2] && s[6..8] == text[2..][4..6];
    }
  }

  lemma SpellingReads(s: string, c: char, rest: string)
    requires Spells(s, c)
    ensures s != "" && s[0] != '"' && Json.ReadUnit(s + rest) == Some(Json.Unit(c, rest))
  {
    hide Json.ReadUnicode, IsHex4;
    var text := s + rest;
    Cut(s, rest, text);
    if |s| == 2 {
      var i :| 0 <= i < |ESCAPED| && s == ['\\', ESCAPED[i]] && c == MEANT[i];
      NamedIff(ESCAPED[i], c);
      assert text[1] == ESCAPED[i] && text[1] != 'u';
    } else if |s| > 2 {
      assert text[..2] == s[..2] && text[0] == s[..2][0] && text[1] == s[..2][1];
      SpelledAgain(s, c, rest);
      SpelledReads(text[2..], c, rest);
    }
  }

  lemma SpelledAgain(s: string, c: char, rest: string)
    requires Spells(s, c) && |s| > 2
    ensures SpelledOut((s + rest)[2..], c, rest)
  {
    hide IsHex4;
    var text := (s + rest)[2..];
    assert text[..4] == s[2..6] && text[|s| - 2..] == rest;
    if |s| == 12 {
      assert text[6..10] == s[8..] && text[4..6] == s[6..8];
    } else {
      assert s[2..6] == s[2..];
    }
  }

  /** The characters of a string, each in one of its spellings. */
  ghost predicate Spelled(s: string, value: string)
    decreases |value|
  {
    if value == "" then s == ""
    else exists first, rest :: s == first + rest && Spells(first, value[0]) && Spelled(rest, value[1..])
  }

  lemma {:induction false} StringIs(s: string, value: string, tail: string)
    requires Spelled(s, value)
    ensures Json.ReadString(s + ("\"" + tail)) == Some(Json.Read(value, tail))
    decreases |value|
  {
    hide Json.ReadUnit, Spells;
    var end := "\"" + tail;
    if value == "" {
      assert s + end == end && end[1..] == tail;
    } else {
      var first, rest :| s == first + rest && Spells(first, value[0]) && Spelled(rest, value[1..]);
      SpellingReads(first, value[0], rest + end);
      Joined(first, rest, end);
      StringIs(rest, value[1..], tail);
      assert [value[0]] + value[1..] == value;
    }
  }

  lemma {:induction false} StringParts(text: string) returns (s: string)
    requires Json.ReadString(text).Some?
    ensures var r := Json.ReadString(text).value; Spelled(s, r.value) && text == s + ("\"" + r.rest)
    decreases |text|
  {
    hide Json.ReadUnit, Spells;
    if text[0] == '"' {
      s := "";
      Prefixed(text, "\"", text[1..]);
      assert "" + text == text;
    } else {
      var u := Json.ReadUnit(text).value;
      var first := UnitReads(text, u.c, u.rest);
      var rest := StringParts(u.rest);
      s := first + rest;
      var r := Json.ReadString(text).value;
      Joined(first, rest, "\"" + r.rest);
      assert r.value[1..] == Json.ReadString(u.rest).value.value;
    }
  }

  /** `JSON.parse` reads a string literal exactly from the spellings of its characters. */
  lemma LiteralIff(text: string, value: string)
    ensures Json.ReadQuoted(text) == Some(value) <==> exists s :: Spelled(s, value) && text == "\"" + (s + "\"")
  {
    hide Json.ReadString, Spelled;
    if Json.ReadQuoted(text) == Some(value) {
      var s := StringParts(text[1..]);
      assert "\"" + "" == "\"";
      Prefixed(text, "\"", text[1..]);
    }
    forall s | Spelled(s, value) && text == "\"" + (s + "\"") ensures Json.ReadQuoted(text) == Some(value) {
      StringIs(s, value, "");
      assert "\"" + "" == "\"" && text[1..] == s + "\"";
    }
  }

  /** `JSON.stringify` escapes the characters that have a letter for it, and controls by two lower-case digits. */
  lemma EscapeMeans(c: char)
    ensures forall i :: 0 <= i < |ESCAPED| && i != 2 && MEANT[i] == c ==> Json.Escape(c) == ['\\', ESCAPED[i]]
    ensures c !in MEANT && c < ' ' ==>
              |Json.Escape(c)| == 6 && Json.Escape(c)[..4] == "\\u00" && c as int < 32
              && Json.Escape(c)[4] == "01"[c as int / 16] && Json.Escape(c)[5] == "0123456789abcdef"[c as int % 16]
    ensures (c !in MEANT && c >= ' ') || c == '/' ==> Json.Escape(c) == [c]
  {
    assert MEANT[0] == '"' && MEANT[1] == '\\' && MEANT[2] == '/' && MEANT[3] == Json.BACKSPACE;
    assert MEANT[4] == Json.FORM_FEED && MEANT[5] == '\n' && MEANT[6] == '\r' && MEANT[7] == '\t';
  }

  /** The printed text of a string is the escapes of its characters, one after the other, in quotes. */
  lemma QuotedIs(c: char, s: string)
    ensures Json.Quoted("") == "\"\"" && Json.Quoted([c]) == "\"" + Json.Escape(c) + "\""
    ensures Json.Escaped([c] + s) == Json.Escape(c) + Json.Escaped(s)
  {
    hide Json.Escape;
    assert [c][1..] == "" && ([c] + s)[1..] == s;
  }

  const SPECIALS: string := ":#[]{}&*!|>'\"%@`"

  lemma SpecialIff(c: char)
    ensures F.Special(c) <==> c in SPECIALS
  {
  }

  lemma IntegerIff(text: string)
    ensures F.IsInteger(text) <==> Digits(text) || (text != "" && text[0] == '-' && Digits(text[1..]))
  {
    DigitsIff(text);
    if text != "" {
      DigitsIff(text[1..]);
      assert text[0] in text && text == [text[0]] + text[1..];
    }
  }

  /** A summary is quoted exactly when it is empty, a keyword, a number, not trimmed or has a special character. */
  lemma QuotesIff(text: string)
    ensures F.QuoteYamlScalar(text) == Json.Quoted(text) || F.QuoteYamlScalar(text) == text
    ensures F.QuoteYamlScalar(text) == text <==>
            && text != "" && text != "true" && text != "false" && IsTrimmed(text)
            && !Digits(text) && !(text[0] == '-' && Digits(text[1..]))
            && forall c :: c in text ==> c !in SPECIALS && c != '\n'
  {
    T.TrimLonger(text);
    QuotedIsLonger(text);
    IntegerIff(text);
    forall c ensures F.Special(c) <==> c in SPECIALS { SpecialIff(c); }
    hide Trim, Json.Quoted, F.IsInteger, F.Special, IsTrimmed, Digits, SPECIALS;
  }

  lemma DigitsIff(text: string)
    ensures Digits(text) <==> text != "" && F.AllDigits(text)
  {
  }

  lemma QuotedIsLonger(text: string)
    ensures Json.Quoted(text) != text
  {
    Json.QuotedReads(text);
  }

  // ---------------------------------------------------------------- lines

  /** A key, a colon, blanks and a value on one line. */
  ghost predicate IsKeyed(text: string, key: string, blanks: string, value: string) {
    && text == key + (":" + (blanks + value))
    && key != "" && (forall c :: c in key ==> F.WordChar(c)) && Blanks(blanks)
    && OneLine(value) && (value == "" || !IsSpace(value[0]))
  }

  lemma {:induction false} WordFits(text: string)
    ensures forall c :: c in text[..F.WordLength(text)] ==> F.WordChar(c)
  {
    if text != "" && F.WordChar(text[0]) {
      WordFits(text[1..]);
      assert text[..F.WordLength(text)] == [text[0]] + text[1..][..F.WordLength(text[1..])];
    }
  }

  lemma KeyedReads(text: string, key: string, blanks: string, value: string)
    requires IsKeyed(text, key, blanks, value)
    ensures F.MatchKeyed(text) == Some(F.Keyed(key, value))
  {
    var rest := blanks + value;
    assert text == key + ":" + rest;
    T.KeyEnds(key, rest);
    Cut(key, ":" + rest, text);
    assert text[|key| + 1..] == rest && text[..|key|] == key;
    LeftOfBlanks(blanks, value);
  }

  /** A text and the blanks it starts with. */
  lemma IndentOf(line: string) returns (indent: string)
    ensures Blanks(indent) && line == indent + TrimLeft(line) && |indent| == F.Indent(line)
  {
    LeftBlanks(line);
    TrimLeftSuffix(line);
    indent := line[..|line| - |TrimLeft(line)|];
  }

  lemma LeftTakes(s: string)
    requires s != "" && IsSpace(s[0])
    ensures |TrimLeft(s)| < |s|
  {
    TrimLeftSuffix(s[1..]);
  }

  lemma LeftStarts(s: string)
    ensures TrimLeft(s) == "" || !IsSpace(TrimLeft(s)[0])
  {
    TrimLeftSuffix(s);
  }

  lemma KeyAndRest(text: string)
    requires F.MatchKeyed(text).Some?
    ensures var k, n := F.MatchKeyed(text).value, F.WordLength(text);
            && 0 < n < |text| && text[n] == ':' && k.key == text[..n]
            && k.raw == TrimLeft(text[n + 1..]) && OneLine(k.raw)
  {
    hide F.WordLength, TrimLeft, OneLine;
  }

  lemma KeyedParts(text: string)
    requires F.MatchKeyed(text).Some?
    ensures var k := F.MatchKeyed(text).value; exists blanks :: IsKeyed(text, k.key, blanks, k.raw)
  {
    KeyAndRest(text);
    hide F.MatchKeyed, F.WordLength, TrimLeft, OneLine, Blanks, F.WordChar;
    var k, n := F.MatchKeyed(text).value, F.WordLength(text);
    WordFits(text);
    LeftStarts(text[n + 1..]);
    var blanks := IndentOf(text[n + 1..]);
    Prefixed(text[n..], ":", text[n + 1..]);
    Prefixed(text, k.key, text[n..]);
    assert IsKeyed(text, k.key, blanks, k.raw);
  }

  /** A line is read as a key and a value exactly when it is made of them. */
  lemma KeyedIff(text: string, key: string, value: string)
    ensures F.MatchKeyed(text) == Some(F.Keyed(key, value)) <==> exists blanks :: IsKeyed(text, key, blanks, value)
  {
    hide F.MatchKeyed, IsKeyed;
    if F.MatchKeyed(text).Some? { KeyedParts(text); }
    forall blanks | IsKeyed(text, key, blanks, value) ensures F.MatchKeyed(text) == Some(F.Keyed(key, value)) {
      KeyedReads(text, key, blanks, value);
    }
  }

  /** Blanks, a dash, at least one blank, and one line of text. */
  ghost predicate IsDashed(line: string, indent: string, blanks: string, rest: string) {
    && line == indent + ("-" + (blanks + rest))
    && Blanks(indent) && Blanks(blanks) && blanks != "" && OneLine(rest) && (rest == "" || !IsSpace(rest[0]))
  }

  lemma DashedReads(line: string, indent: string, blanks: string, rest: string)
    requires IsDashed(line, indent, blanks, rest)
    ensures F.MatchDashed(line) == Some(rest) && F.Indent(line) == |indent| && Trim(line) != ""
  {
    var text := "-" + (blanks + rest);
    assert blanks[0] in blanks && text[1] == blanks[0];
    LeftOfBlanks(indent, text);
    assert text[1..] == blanks + rest;
    LeftOfBlanks(blanks, rest);
    assert line[|indent|] == '-' && '-' in line;
    TrimTrims(line);
  }

  lemma DashAndRest(line: string)
    requires F.MatchDashed(line).Some?
    ensures var text := TrimLeft(line);
            && |text| >= 2 && text[0] == '-' && IsSpace(text[1])
            && F.MatchDashed(line) == Some(TrimLeft(text[1..])) && OneLine(TrimLeft(text[1..]))
  {
    hide TrimLeft, OneLine, IsSpace;
  }

  lemma DashedParts(line: string)
    requires F.MatchDashed(line).Some?
    ensures exists indent, blanks :: IsDashed(line, indent, blanks, F.MatchDashed(line).value) && F.Indent(line) == |indent|
  {
    DashAndRest(line);
    var text, rest := TrimLeft(line), F.MatchDashed(line).value;
    LeftStarts(text[1..]);
    hide F.MatchDashed, TrimLeft, OneLine, IsSpace, Blanks;
    var indent := IndentOf(line);
    var blanks := IndentOf(text[1..]);
    Prefixed(text, "-", text[1..]);
    LeftTakes(text[1..]);
    assert IsDashed(line, indent, blanks, rest);
  }

  /** A line is read as a dashed one exactly when it is made of its pieces. */
  lemma DashedIff(line: string, rest: string)
    ensures F.MatchDashed(line) == Some(rest) <==> exists indent, blanks :: IsDashed(line, indent, blanks, rest)
  {
    hide F.MatchDashed, IsDashed;
    if F.MatchDashed(line).Some? { DashedParts(line); }
    forall indent, blanks | IsDashed(line, indent, blanks, rest) ensures F.MatchDashed(line) == Some(rest) {
      DashedReads(line, indent, blanks, rest);
    }
  }

  // ---------------------------------------------------------------- what a line does

  /** The source that is being read, under all its keys. */
  function Last(st: F.Reading): F.Item
    requires F.Items(st.fields) != []
  {
    F.Items(st.fields)[|F.Items(st.fields)| - 1]
  }

  /** The state with the last source replaced. */
  ghost predicate LastBecomes(st: F.Reading, next: F.Reading, item: F.Item) {
    var items := F.Items(st.fields);
    && items != [] && next.fields == st.fields["sources" := F.Sources(items[..|items| - 1] + [item])]
    && next.inSources && next.current == st.current && next.indent == st.indent
  }

  /** A line of blanks does nothing. */
  lemma BlankReads(st: F.Reading, line: string, json: F.JsonReader)
    requires Blanks(line)
    ensures F.ReadLine(st, line, json) == Ok(st)
  {
    TrimOf(line, "", "");
    assert line + "" + "" == line;
  }

  /** A dashed key, not deeper than the sources before it, starts a source of that one key. */
  lemma NewSourceReads(st: F.Reading, line: string, indent: string, blanks: string, rest: string,
                       key: string, gap: string, value: string, json: F.JsonReader)
    requires st.inSources && IsDashed(line, indent, blanks, rest) && IsKeyed(rest, key, gap, value)
    requires st.indent.None? || |indent| <= st.indent.value
    ensures F.ReadLine(st, line, json) == Ok(F.Reading(
              st.fields["sources" := F.Sources(F.Items(st.fields) + [map[key := F.ParseScalar(value, json)]])],
              true, true, Some(|indent|), None))
  {
    hide F.MatchDashed, F.MatchKeyed, IsDashed, IsKeyed, F.ParseScalar, Trim, F.Indent;
    DashedReads(line, indent, blanks, rest);
    KeyedReads(rest, key, gap, value);
  }

  /** Another dashed line adds its value to the list that is open. */
  lemma ListItemReads(st: F.Reading, line: string, indent: string, blanks: string, rest: string, values: seq<F.Value>,
                      json: F.JsonReader)
    requires st.inSources && IsDashed(line, indent, blanks, rest)
    requires st.indent.Some? && (|indent| > st.indent.value || forall key, gap, value :: !IsKeyed(rest, key, gap, value))
    requires st.list.Some? && F.Items(st.fields) != [] && st.list.value in Last(st) && Last(st)[st.list.value] == F.Arr(values)
    ensures var r := F.ReadLine(st, line, json);
            && r.Ok? && r.value.list == st.list
            && LastBecomes(st, r.value, Last(st)[st.list.value := F.Arr(values + [F.ParseScalar(rest, json)])])
  {
    hide F.MatchDashed, F.MatchKeyed, IsDashed, IsKeyed, F.ParseScalar, Trim, F.Indent;
    DashedReads(line, indent, blanks, rest);
    if F.MatchKeyed(rest).Some? {
      var k := F.MatchKeyed(rest).value;
      KeyedIff(rest, k.key, k.raw);
    }
  }

  /** A key deeper than the dash of its source sets that key; without a value it opens a list. */
  lemma NestedReads(st: F.Reading, line: string, indent: string, text: string, key: string, gap: string, value: string,
                    json: F.JsonReader)
    requires st.inSources && st.current && F.Items(st.fields) != [] && st.indent.Some? && |indent| > st.indent.value
    requires line == indent + text && Blanks(indent) && IsKeyed(text, key, gap, value)
    ensures var r := F.ReadLine(st, line, json);
            && r.Ok? && r.value.list == (if value == "" then Some(key) else None)
            && LastBecomes(st, r.value, Last(st)[key := if value == "" then F.Arr([]) else F.ParseScalar(value, json)])
  {
    hide F.MatchDashed, F.MatchKeyed, IsKeyed, F.ParseScalar, Trim, F.Indent, TrimLeft;
    KeyedReads(text, key, gap, value);
    IndentedKey(line, indent, text, key, gap, value);
  }

  lemma KeyStarts(text: string, key: string, gap: string, value: string)
    requires IsKeyed(text, key, gap, value)
    ensures text != "" && !IsSpace(text[0]) && text[0] != '-'
  {
    assert text[0] == key[0] && key[0] in key && F.WordChar(text[0]);
  }

  lemma SourcesKey(text: string, key: string, gap: string, value: string)
    requires IsKeyed(text, key, gap, value) && F.IsSourcesLine(text)
    ensures key == "sources" && value == ""
  {
    T.SourcesIsTheWord(text);
    assert text == key + ":" + (gap + value);
    T.KeyEnds(key, gap + value);
    Cut(key, ":" + (gap + value), text);
    assert text[8..] == text[7..][1..] == gap + value;
    LeftOfBlanks(gap, value);
  }

  lemma IndentedKey(line: string, indent: string, text: string, key: string, gap: string, value: string)
    requires line == indent + text && Blanks(indent) && IsKeyed(text, key, gap, value)
    ensures TrimLeft(line) == text && F.Indent(line) == |indent| && F.MatchDashed(line).None? && Trim(line) != ""
    ensures F.IsSourcesLine(line) ==> indent == "" && key == "sources" && value == ""
  {
    KeyStarts(text, key, gap, value);
    hide IsKeyed;
    LeftOfBlanks(indent, text);
    assert line[|indent|] == text[0] && text[0] in line;
    TrimTrims(line);
    assert indent != "" ==> line[0] == indent[0] && indent[0] in indent;
    if F.IsSourcesLine(line) && indent == "" {
      assert line == text;
      SourcesKey(text, key, gap, value);
    }
  }

  /** The key of the sources without a value starts an empty list of them, wherever it stands. */
  lemma SourcesReads(st: F.Reading, gap: string, json: F.JsonReader)
    requires Blanks(gap)
    ensures F.ReadLine(st, "sources:" + gap, json)
         == Ok(F.Reading(st.fields["sources" := F.Sources([])], true, false, None, None))
  {
    hide F.MatchKeyed, F.MatchDashed, Trim, F.Indent;
    var line := "sources:" + gap;
    assert "sources" + (":" + (gap + "")) == line;
    assert IsKeyed(line, "sources", gap, "");
    IndentedKey(line, "", line, "sources", gap, "");
    assert line[8..] == gap;
    LeftOfBlanks(gap, "");
    assert gap + "" == gap;
  }

  /** Any other key at the margin sets a field, and ends the sources. */
  lemma FieldReads(st: F.Reading, line: string, key: string, gap: string, value: string, json: F.JsonReader)
    requires IsKeyed(line, key, gap, value) && !(key == "sources" && value == "")
    ensures F.ReadLine(st, line, json) == Ok(F.Reading(
              st.fields[key := F.Scalar(F.ParseScalar(value, json))], false, false, st.indent, None))
  {
    hide F.MatchKeyed, F.MatchDashed, Trim, F.Indent, F.ParseScalar, IsKeyed, F.IsSourcesLine;
    KeyedReads(line, key, gap, value);
    assert line == "" + line;
    IndentedKey(line, "", line, key, gap, value);
  }

  /** Inside the sources the line starts one, or adds to a list, or sets a key of the last one. */
  ghost predicate BelongsToSources(st: F.Reading, line: string) {
    && st.inSources
    && (|| (exists indent, blanks, rest :: IsDashed(line, indent, blanks, rest)
              && (st.list.Some?
                  || ((st.indent.None? || |indent| <= st.indent.value)
                      && exists key, gap, value :: IsKeyed(rest, key, gap, value))))
        || (exists indent, text, key, gap, value :: line == indent + text && Blanks(indent) && IsKeyed(text, key, gap, value)
              && st.current && st.indent.Some? && |indent| > st.indent.value))
  }

  lemma NotOfSources(st: F.Reading, line: string, json: F.JsonReader)
    requires st.inSources && !BelongsToSources(st, line)
    ensures F.ReadSourceLine(st, line, json).None?
  {
    hide F.MatchDashed, F.MatchKeyed, IsDashed, IsKeyed, F.ParseScalar, F.Indent, Blanks;
    if F.MatchDashed(line).Some? {
      DashedParts(line);
      var rest := F.MatchDashed(line).value;
      if F.MatchKeyed(rest).Some? { KeyedIff(rest, F.MatchKeyed(rest).value.key, F.MatchKeyed(rest).value.raw); }
    }
    var text := TrimLeft(line);
    if F.MatchKeyed(text).Some? {
      var k := F.MatchKeyed(text).value;
      KeyedIff(text, k.key, k.raw);
      var indent := IndentOf(line);
    }
  }

  /** Every other line is an error that names it. */
  lemma StrayReads(st: F.Reading, line: string, json: F.JsonReader)
    requires !Blanks(line) && !BelongsToSources(st, line)
    requires forall key, gap, value :: !IsKeyed(line, key, gap, value)
    ensures F.ReadLine(st, line, json) == Err(F.UnreadableLine(line))
  {
    hide *;
    NotBlank(line);
    NoKey(line);
    if st.inSources { NotOfSources(st, line, json); }
    StrayFails(st, line, json);
  }

  lemma NoKey(line: string)
    requires forall key, gap, value :: !IsKeyed(line, key, gap, value)
    ensures F.MatchKeyed(line).None? && !F.IsSourcesLine(line)
  {
    hide F.MatchKeyed, IsKeyed;
    if F.MatchKeyed(line).Some? {
      KeyedParts(line);
    }
    if F.IsSourcesLine(line) {
      SourcesIsKeyed(line);
    }
  }

  lemma StrayFails(st: F.Reading, line: string, json: F.JsonReader)
    requires Trim(line) != "" && F.MatchKeyed(line).None? && !F.IsSourcesLine(line)
    requires st.inSources ==> F.ReadSourceLine(st, line, json).None?
    ensures F.ReadLine(st, line, json) == Err(F.UnreadableLine(line))
  {
    hide Trim, F.MatchKeyed, F.IsSourcesLine, F.ReadSourceLine;
  }

  lemma NotBlank(line: string)
    requires !Blanks(line)
    ensures Trim(line) != ""
  {
    TrimTrims(line);
  }

  lemma SourcesIsKeyed(line: string)
    requires F.IsSourcesLine(line)
    ensures IsKeyed(line, "sources", line[8..], "")
  {
    hide F.WordChar;
    var gap := line[8..];
    LeftBlanks(gap);
    assert gap[..|gap|] == gap;
    Prefixed(line, "sources:", gap);
    Joined("sources", ":", gap);
    assert gap + "" == gap && "sources" + ":" == "sources:";
    SourcesIsWord();
  }

  lemma SourcesIsWord()
    ensures forall c :: c in "sources" ==> F.WordChar(c)
  {
  }

  /** A dashed line that is no key at the depth of a source. */
  ghost predicate IsListLine(line: string, depth: nat, rest: string) {
    exists indent, blanks :: IsDashed(line, indent, blanks, rest)
      && (|indent| > depth || forall key, gap, value :: !IsKeyed(rest, key, gap, value))
  }

  /** The values of dashed lines, in their order. */
  function Values(rests: seq<string>, json: F.JsonReader): (r: seq<F.Value>)
    ensures |r| == |rests|
  {
    seq(|rests|, i requires 0 <= i < |rests| => F.ParseScalar(rests[i], json))
  }

  /** A list written on lines of its own: the values of all of them are added, in their order. */
  lemma {:induction false} ListReads(st: F.Reading, lines: seq<string>, rests: seq<string>, values: seq<F.Value>,
                                     json: F.JsonReader)
    requires st.inSources && st.indent.Some? && st.list.Some? && F.Items(st.fields) != []
    requires st.list.value in Last(st) && Last(st)[st.list.value] == F.Arr(values)
    requires |lines| == |rests| && forall i :: 0 <= i < |lines| ==> IsListLine(lines[i], st.indent.value, rests[i])
    ensures var r := F.ReadLines(st, lines, json);
            && r.Ok? && r.value.list == st.list
            && LastBecomes(st, r.value, Last(st)[st.list.value := F.Arr(values + Values(rests, json))])
    decreases |lines|
  {
    hide IsDashed, IsKeyed, F.ReadLine, F.ParseScalar, LastBecomes, Last, F.Items, Values;
    OneMoreValue(rests, values, json);
    if lines == [] {
      SameLast(st);
      assert Last(st)[st.list.value := F.Arr(values)] == Last(st);
    } else {
      var list, item, more := st.list.value, Last(st), Values(rests, json);
      var indent, blanks :| IsDashed(lines[0], indent, blanks, rests[0])
        && (|indent| > st.indent.value || forall key, gap, value :: !IsKeyed(rests[0], key, gap, value));
      ListItemReads(st, lines[0], indent, blanks, rests[0], values, json);
      var next, v := F.ReadLine(st, lines[0], json).value, F.ParseScalar(rests[0], json);
      NextLast(st, next, item[list := F.Arr(values + [v])]);
      ListReads(next, lines[1..], rests[1..], values + [v], json);
      assert item[list := F.Arr(values + [v])][list := F.Arr(values + more)] == item[list := F.Arr(values + more)];
      LastTwice(st, next, F.ReadLines(next, lines[1..], json).value, item[list := F.Arr(values + [v])],
                item[list := F.Arr(values + more)]);
    }
  }

  lemma OneMoreValue(rests: seq<string>, values: seq<F.Value>, json: F.JsonReader)
    ensures rests == [] ==> values + Values(rests, json) == values
    ensures rests != [] ==>
              values + [F.ParseScalar(rests[0], json)] + Values(rests[1..], json) == values + Values(rests, json)
  {
    hide F.ParseScalar;
  }

  lemma SameLast(st: F.Reading)
    requires st.inSources && F.Items(st.fields) != []
    ensures LastBecomes(st, st, Last(st))
  {
    var items := F.Items(st.fields);
    assert items == items[..|items| - 1] + [items[|items| - 1]];
  }

  lemma NextLast(st: F.Reading, next: F.Reading, item: F.Item)
    requires LastBecomes(st, next, item)
    ensures F.Items(next.fields) != [] && Last(next) == item && next.inSources && next.indent == st.indent
  {
  }

  lemma LastTwice(st: F.Reading, next: F.Reading, last: F.Reading, item: F.Item, final: F.Item)
    requires LastBecomes(st, next, item) && LastBecomes(next, last, final)
    ensures LastBecomes(st, last, final)
  {
    var items := F.Items(st.fields);
    assert F.Items(next.fields)[..|items| - 1] == items[..|items| - 1];
  }

  // ---------------------------------------------------------------- the fences

  /** The text from position `i` on starts with the part. */
  predicate StandsAt(text: string, part: string, i: nat) {
    i <= |text| && part <= text[i..]
  }

  lemma {:induction false} FoundFirst(text: string, part: string)
    ensures F.IndexOf(text, part).None? ==> forall i: nat :: !StandsAt(text, part, i)
    ensures F.IndexOf(text, part).Some? ==>
              StandsAt(text, part, F.IndexOf(text, part).value)
              && forall i: nat :: i < F.IndexOf(text, part).value ==> !StandsAt(text, part, i)
  {
    assert text[0..] == text;
    if !(part <= text) && text != "" {
      FoundFirst(text[1..], part);
      forall i: nat | i > 0 ensures StandsAt(text, part, i) <==> StandsAt(text[1..], part, i - 1) {
        if i <= |text| { assert text[1..][i - 1..] == text[i..]; }
      }
    }
  }

  lemma {:induction false} LinesFail(st: F.Reading, lines: seq<string>, json: F.JsonReader)
    ensures F.ReadLines(st, lines, json).Err? ==> F.ReadLines(st, lines, json).error.UnreadableLine?
    decreases |lines|
  {
    if lines != [] {
      assert F.ReadLine(st, lines[0], json).Err? ==> F.ReadLine(st, lines[0], json).error.UnreadableLine?;
      hide F.ReadLine;
      if F.ReadLine(st, lines[0], json).Ok? {
        LinesFail(F.ReadLine(st, lines[0], json).value, lines[1..], json);
      }
    }
  }

  /** Only a text with an opening fence at its start and a closing one behind it has a header. */
  lemma FenceIff(text: string, json: F.JsonReader)
    ensures F.Parsed(text, json) == Err(F.MissingFrontmatter) <==> |text| < 4 || text[..4] != "---\n"
    ensures F.Parsed(text, json) == Err(F.UnterminatedFrontmatter) <==>
            |text| >= 4 && text[..4] == "---\n" && forall i: nat :: !StandsAt(text[4..], "\n---\n", i)
  {
    StartsIff(text);
    hide F.ReadLines, F.IndexOf, Split, StandsAt, StartsWith;
    if StartsWith(text, F.OPENING) {
      FoundFirst(text[4..], "\n---\n");
      var end := F.IndexOf(text[4..], "\n---\n");
      if end.Some? { LinesFail(F.START, Split(text[4..][..end.value], '\n'), json); }
    }
  }

  lemma StartsIff(text: string)
    ensures StartsWith(text, F.OPENING) <==> |text| >= 4 && text[..4] == "---\n"
  {
  }

  /** The header ends at the first closing fence; it is read line by line, and what follows the fence is the body. */
  lemma FenceMeans(text: string, header: string, body: string, json: F.JsonReader)
    requires text == "---\n" + (header + ("\n---\n" + body))
    requires forall i: nat :: i < |header| ==> !StandsAt(text[4..], "\n---\n", i)
    ensures F.Parsed(text, json) == match F.ReadLines(F.START, Split(header, '\n'), json)
                                    case Err(e) => Err(e)
                                    case Ok(st) => Ok(F.Page(st.fields, body))
  {
    StartsIff(text);
    BodyIs(text, header, body);
    hide F.ReadLines, F.IndexOf, Split, StandsAt, StartsWith;
  }

  lemma BodyIs(text: string, header: string, body: string)
    requires text == "---\n" + (header + ("\n---\n" + body))
    requires forall i: nat :: i < |header| ==> !StandsAt(text[4..], "\n---\n", i)
    ensures text[..4] == "---\n" && F.IndexOf(text[4..], "\n---\n") == Some(|header|)
    ensures text[4..][..|header|] == header && text[4..][|header| + 5..] == body
  {
    hide F.IndexOf;
    var rest := header + ("\n---\n" + body);
    Cut("---\n", rest, text);
    Cut(header, "\n---\n" + body, rest);
    Cut("\n---\n", body, "\n---\n" + body);
    FoundFirst(rest, "\n---\n");
    assert rest[|header| + 5..] == rest[|header|..][5..];
    assert StandsAt(rest, "\n---\n", |header|);
  }

  // ---------------------------------------------------------------- what is printed

  /** How a value shows in a text: numbers by their digits, a list by its elements with commas between them. */
  lemma ShownMeans(s: string, n: int, v: F.Value, rest: seq<F.Value>, json: F.JsonReader)
    ensures Shown(F.Str(s)) == s && Shown(F.Bool(true)) == "true" && Shown(F.Bool(false)) == "false"
    ensures F.ParseScalar(Shown(F.Num(n)), json) == F.Num(n)
    ensures Shown(F.Arr([])) == ""
    ensures Shown(F.Arr([v] + rest)) == if rest == [] then Shown(v) else Shown(v) + "," + Shown(F.Arr(rest))
  {
    T.IntReads(n, json);
    hide F.ParseScalar;
    var all := [v] + rest;
    var texts := seq(|all|, i requires 0 <= i < |all| => Shown(all[i]));
    var more := seq(|rest|, i requires 0 <= i < |rest| => Shown(rest[i]));
    assert texts[1..] == more && texts[0] == Shown(v);
    ShownArr(all);
    ShownArr(rest);
  }

  lemma ShownArr(items: seq<F.Value>)
    ensures Shown(F.Arr(items)) == Join(seq(|items|, i requires 0 <= i < |items| => Shown(items[i])), ",")
  {
  }

  predicate Says(fields: map<string, F.Field>, key: string, v: F.Value) {
    key in fields && fields[key] == F.Scalar(v)
  }

  /** A page as it is meant to be printed: six fields, texts as they are, and what stands for what is not there. */
  lemma SettledMeans(d: Draft, key: string, s: string, n: int)
    ensures var fields := Settled(d).fields;
            && fields.Keys == {"type", "summary", "managed_by", "schema_version", "sources", "updated"}
            && (key in {"type", "summary", "managed_by", "updated"} && Says(d.fields, key, F.Str(s)) ==> Says(fields, key, F.Str(s)))
            && (key in {"type", "managed_by", "updated"} && key !in d.fields ==> Says(fields, key, F.Str("undefined")))
            && ("summary" !in d.fields ==> Says(fields, "summary", F.Str("")))
            && (Says(d.fields, "schema_version", F.Num(n)) ==> Says(fields, "schema_version", F.Num(n)))
            && (Says(d.fields, "schema_version", F.Str(s)) && !F.IsInteger(s) ==> Says(fields, "schema_version", F.Str(s)))
    ensures Settled(d).body == if d.body != "" && d.body[|d.body| - 1] == '\n' then d.body else d.body + "\n"
  {
    hide Printed, SourcesOf, T.ItemsOf, F.NatText, F.NatOf, VisitedIn, Shown, F.IntText, F.IsInteger, F.IntOf;
    ShownTexts(s, n);
    BodyEnds(d.body);
  }

  lemma BodyEnds(body: string)
    ensures EndsWith(body, "\n") <==> body != "" && body[|body| - 1] == '\n'
  {
    if body != "" { assert body[|body| - 1..] == [body[|body| - 1]]; }
  }

  lemma ShownTexts(s: string, n: int)
    ensures Shown(F.Str(s)) == s && Shown(F.Num(n)) == F.IntText(n) && T.VersionOf(F.IntText(n)) == F.Num(n)
  {
    hide F.NatOf;
    if n < 0 {
      T.NatReads(-n);
      assert F.IntText(n)[1..] == F.NatText(-n);
    } else {
      T.NatReads(n);
      assert F.NatText(n)[0] in F.NatText(n) && F.Digit(F.NatText(n)[0]);
    }
  }

  /** A printed source: its path and hash, and its locators as a list. */
  lemma SettledSourceMeans(d: Draft, i: nat, path: string, hash: string, texts: seq<string>)
    requires i < |VisitedIn(d.fields)|
    ensures i < |Cited(Settled(d))|
    ensures var was, item := VisitedIn(d.fields)[i], Cited(Settled(d))[i];
            && item.Keys == {"path", "sha256", "locators"}
            && ("path" in was && was["path"] == F.Str(path) ==> item["path"] == F.Str(path))
            && ("sha256" in was && was["sha256"] == F.Str(hash) ==> item["sha256"] == F.Str(hash))
            && ("sha256" !in was ==> item["sha256"] == F.Str("undefined"))
            && ("locators" in was && was["locators"] == F.Arr(F.Strings(texts)) ==> item["locators"] == F.Arr(F.Strings(texts)))
            && ("locators" in was && was["locators"] == F.Str(hash) && hash != "" ==> item["locators"] == F.Arr([F.Str(hash)]))
            && ("locators" !in was || was["locators"] in {F.Str(""), F.Bool(false), F.Num(0)} ==> item["locators"] == F.Arr([]))
  {
    SettledFields(d);
    var sources := SourcesOf(VisitedIn(d.fields));
    ItemAt(sources, i);
    hide *;
    var was, item := VisitedIn(d.fields)[i], Cited(Settled(d))[i];
    assert sources[i] == SourceOf(was) && item == T.ItemOf(sources[i]);
    LocatorsMean(was, texts, hash);
    SourceMeans(was, path, hash);
  }

  lemma SourceMeans(was: F.Item, path: string, hash: string)
    ensures var s, item := SourceOf(was), T.ItemOf(SourceOf(was));
            && item.Keys == {"path", "sha256", "locators"} && item["locators"] == F.Arr(F.Strings(LocatorsOf(was)))
            && ("path" in was && was["path"] == F.Str(path) ==> item["path"] == F.Str(path))
            && ("sha256" in was && was["sha256"] == F.Str(hash) ==> item["sha256"] == F.Str(hash))
            && ("sha256" !in was ==> item["sha256"] == F.Str("undefined"))
  {
    hide LocatorsOf, F.Strings;
  }

  lemma LocatorsMean(was: F.Item, texts: seq<string>, one: string)
    ensures var v := F.Arr(F.Strings(LocatorsOf(was)));
            && ("locators" in was && was["locators"] == F.Arr(F.Strings(texts)) ==> v == F.Arr(F.Strings(texts)))
            && ("locators" in was && was["locators"] == F.Str(one) && one != "" ==> v == F.Arr([F.Str(one)]))
            && ("locators" !in was || was["locators"] in {F.Str(""), F.Bool(false), F.Num(0)} ==> v == F.Arr([]))
  {
    if "locators" in was && was["locators"] == F.Arr(F.Strings(texts)) {
      assert LocatorsOf(was) == texts;
    }
    assert F.Strings([one]) == [F.Str(one)];
    assert F.Strings([]) == [];
  }

  lemma {:induction false} ItemAt(sources: seq<F.Source>, i: nat)
    requires i < |sources|
    ensures |T.ItemsOf(sources)| == |sources| && T.ItemsOf(sources)[i] == T.ItemOf(sources[i])
  {
    ItemsAt(sources);
    if i > 0 {
      ItemAt(sources[1..], i - 1);
    }
  }

  /** The lines of the sources, each with its line feed. */
  function SourcesText(sources: seq<F.Source>): string {
    if sources == [] then ""
    else
      var s := sources[0];
      "  - path: " + s.path + "\n" + "    sha256: " + s.sha256 + "\n" + "    locators: " + Json.ArrayText(s.locators) + "\n"
      + SourcesText(sources[1..])
  }

  lemma EndedThree(a: string, b: string, c: string)
    ensures Ended([a, b, c]) == a + "\n" + b + "\n" + c + "\n"
  {
    EndedOne(a);
    EndedOne(b);
    EndedOne(c);
    EndedAppend([a], [b]);
    EndedAppend([a] + [b], [c]);
    assert [a] + [b] + [c] == [a, b, c];
    hide Ended;
    Joined(a + "\n", b, "\n");
    Joined(a + "\n" + b + "\n", c, "\n");
  }

  lemma {:induction false} SourcesEnded(sources: seq<F.Source>)
    ensures Ended(F.SourceLines(sources)) == SourcesText(sources)
  {
    if sources != [] {
      var a, b, c := F.PathLine(sources[0]), F.HashLine(sources[0]), F.LocatorsLine(sources[0]);
      SourcesEnded(sources[1..]);
      EndedAppend([a, b, c], F.SourceLines(sources[1..]));
      EndedThree(a, b, c);
      hide Json.ArrayText, Ended;
      SourceText(sources[0]);
    }
  }

  lemma SourceText(s: F.Source)
    ensures F.PathLine(s) + "\n" + F.HashLine(s) + "\n" + F.LocatorsLine(s) + "\n"
         == "  - path: " + s.path + "\n" + "    sha256: " + s.sha256 + "\n" + "    locators: " + Json.ArrayText(s.locators) + "\n"
  {
    hide Json.ArrayText;
  }

  lemma EndedFive(a: string, b: string, c: string, d: string, e: string)
    ensures Ended([a, b, c, d, e]) == a + "\n" + b + "\n" + c + "\n" + d + "\n" + e + "\n"
  {
    EndedAppend([a, b, c], [d, e]);
    EndedThree(a, b, c);
    EndedOne(d);
    EndedOne(e);
    EndedAppend([d], [e]);
    assert [d] + [e] == [d, e];
    assert [a, b, c] + [d, e] == [a, b, c, d, e];
    hide Ended;
    var front := a + "\n" + b + "\n" + c + "\n";
    Joined(front, d + "\n", e + "\n");
    Joined(front, d, "\n");
    Joined(front + d + "\n", e, "\n");
  }

  lemma FirstEnded(f: F.Front)
    ensures Ended(F.FirstLines(f))
         == "type: " + f.kind + "\n" + ("summary: " + F.QuoteYamlScalar(f.summary)) + "\n"
            + ("managed_by: " + f.managedBy) + "\n" + ("schema_version: " + f.schemaVersion) + "\n" + "sources:" + "\n"
  {
    hide F.QuoteYamlScalar, Ended;
    EndedFive("type: " + f.kind, "summary: " + F.QuoteYamlScalar(f.summary), "managed_by: " + f.managedBy,
              "schema_version: " + f.schemaVersion, "sources:");
  }

  lemma SerializedEnded(f: F.Front, body: string)
    ensures F.Serialized(f, body)
         == Ended(["---"] + F.FirstLines(f) + F.SourceLines(f.sources) + ["updated: " + f.updated] + ["---"])
            + F.Terminated(body)
  {
    hide Ended, F.FirstLines, F.Terminated, F.SourceLines, Join;
    var lines := ["---"] + F.FirstLines(f) + F.SourceLines(f.sources) + ["updated: " + f.updated] + ["---"];
    assert ["---"] + F.HeaderLines(f) + ["---", ""] == lines + [""];
    JoinEnded(lines);
  }

  /** The text of a printed page. */
  lemma SerializedIs(f: F.Front, body: string)
    ensures F.Serialized(f, body)
         == "---\n"
            + ("type: " + f.kind + "\n" + ("summary: " + F.QuoteYamlScalar(f.summary)) + "\n"
               + ("managed_by: " + f.managedBy) + "\n" + ("schema_version: " + f.schemaVersion) + "\n" + "sources:" + "\n")
            + SourcesText(f.sources) + ("updated: " + f.updated + "\n") + "---\n"
            + (if body != "" && body[|body| - 1] == '\n' then body else body + "\n")
  {
    BodyEnds(body);
    SerializedEnded(f, body);
    FirstEnded(f);
    hide Ended, F.QuoteYamlScalar, SourcesText, F.FirstLines, F.SourceLines, F.Serialized;
    var first, last := F.FirstLines(f), "updated: " + f.updated;
    EndedAppend(["---"] + first + F.SourceLines(f.sources) + [last], ["---"]);
    EndedAppend(["---"] + first + F.SourceLines(f.sources), [last]);
    EndedAppend(["---"] + first, F.SourceLines(f.sources));
    EndedAppend(["---"], first);
    EndedOne("---");
    EndedOne(last);
    SourcesEnded(f.sources);
  }

  // ---------------------------------------------------------------- files that are read again

  /**
   * The sources a header cites: its list of them; one on a line of its own cites as many that have no path. A loop over
   * them visits a text letter by letter.
   */
  lemma CitedMeans(fields: map<string, F.Field>, items: seq<F.Item>, values: seq<F.Value>, s: string)
    ensures "sources" in fields && fields["sources"] == F.Sources(items) ==> CitedIn(fields) == items
    ensures "sources" in fields && fields["sources"] == F.Scalar(F.Arr(values)) ==>
              |CitedIn(fields)| == |values| && forall item :: item in CitedIn(fields) ==> item == map[] && KeyOf(item) == "undefined"
    ensures "sources" !in fields || (fields["sources"].Scalar? && !fields["sources"].value.Arr?) ==> CitedIn(fields) == []
    ensures "sources" in fields && fields["sources"] == F.Scalar(F.Str(s)) ==>
              |VisitedIn(fields)| == |s| && forall item :: item in VisitedIn(fields) ==> item == map[]
    ensures !("sources" in fields && fields["sources"].Scalar? && fields["sources"].value.Str?) ==>
              VisitedIn(fields) == CitedIn(fields)
  {
  }

  /** Dropping links works on the whole text of a file, which is then read again, whether it could be read or not. */
  lemma UnlinkedMeans(page: Page, resolves: string -> bool, json: F.JsonReader)
    requires AsRead(page, json)
    ensures Unlinked(page, resolves, json).text == Links.DropDead(page.text, resolves)
    ensures AsRead(Unlinked(page, resolves, json), json)
  {
    hide F.Parsed;
    Links.DropChangesIff(page.text, resolves);
    TextStays(Links.DropDead(page.text, resolves), json);
  }
}
