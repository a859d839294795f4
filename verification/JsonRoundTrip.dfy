/** Printing JSON in any style of white space and escapes, and reading it back. */
module JsonRoundTrip {
  import opened Options
  import opened CanonBytes
  import opened DecimalDigits
  import opened DecimalText
  import opened StrictJson
  import opened JsonGrammar
  import opened Utf8

  /** Where a printer breaks lines, what it puts behind a colon, and which
      characters it writes as `\u` escapes though it need not. */
  datatype Style = Style(gap: nat -> string, colon: string, unicode: char -> bool)

  ghost predicate GoodStyle(st: Style) {
    IsSpaces(st.colon) && forall n :: IsSpaces(st.gap(n))
  }

  function Hex4Text(n: int): string
    requires 0 <= n < 0x10000
  {
    [HexChar(n / 4096), HexChar(n / 256 % 16), HexChar(n / 16 % 16), HexChar(n % 16)]
  }

  /** One escape, or a surrogate pair for a scalar outside the basic plane
      (section 7 of RFC 8259). */
  function UnicodeText(c: char): string {
    "\\u" + UnicodeDigits(c)
  }

  function UnicodeDigits(c: char): string {
    if (c as int) < 0x10000 then Hex4Text(c as int) else PairText(c as int - 0x10000)
  }

  function PairText(v: int): string
    requires 0 <= v < 0x100000
  {
    Hex4Text(0xD800 + v / 1024) + ("\\u" + Hex4Text(0xDC00 + v % 1024))
  }

  function CharText(st: Style, c: char): string {
    if st.unicode(c) then UnicodeText(c)
    else if c == '"' then "\\\""
    else if c == '\\' then "\\\\"
    else if c == '\n' then "\\n"
    else if c == '\t' then "\\t"
    else if c == '\r' then "\\r"
    else if c as int == 8 then "\\b"
    else if c as int == 12 then "\\f"
    else if c as int < 0x20 then UnicodeText(c)
    else [c]
  }

  // Every printer below writes in front of what follows.

  /** The characters and the closing quote. */
  function QuoteOnto(st: Style, s: string, tail: string): string {
    if s == "" then "\"" + tail else CharText(st, s[0]) + QuoteOnto(st, s[1..], tail)
  }

  function Size(n: int): nat {
    if n < 0 then 0 - n else n
  }

  function IntText(n: int): string {
    SignText(n < 0) + Bare(Size(n))
  }

  function PrintOnto(st: Style, v: Value, d: nat, tail: string): string
    decreases v, if v.Arr? then |v.items| + 1 else if v.Obj? then |v.fields| + 1 else 0
  {
    match v
    case Null => "null" + tail
    case Bool(b) => (if b then "true" else "false") + tail
    case Int(n) => IntText(n) + tail
    case Str(s) => "\"" + QuoteOnto(st, s, tail)
    case Arr(items) => if items == [] then "[" + ("]" + tail) else "[" + ItemsOnto(st, v, 0, d + 1, tail)
    case Obj(fields) => if fields == [] then "{" + ("}" + tail) else "{" + FieldsOnto(st, v, 0, d + 1, tail)
  }

  function ItemsOnto(st: Style, v: Value, i: nat, d: nat, tail: string): string
    requires v.Arr? && i < |v.items| && d > 0
    decreases v, |v.items| - i, 0
  {
    st.gap(d) + PrintOnto(st, v.items[i], d, AfterItem(st, v, i, d, tail))
  }

  function AfterItem(st: Style, v: Value, i: nat, d: nat, tail: string): string
    requires v.Arr? && i < |v.items| && d > 0
    decreases v, |v.items| - i - 1, 1
  {
    if i + 1 < |v.items| then "," + ItemsOnto(st, v, i + 1, d, tail) else st.gap(d - 1) + ("]" + tail)
  }

  function FieldsOnto(st: Style, v: Value, i: nat, d: nat, tail: string): string
    requires v.Obj? && i < |v.fields| && d > 0
    decreases v, |v.fields| - i, 0
  {
    st.gap(d) + ("\"" + QuoteOnto(st, v.fields[i].key,
                                  ":" + (st.colon + PrintOnto(st, v.fields[i].value, d, AfterField(st, v, i, d, tail)))))
  }

  function AfterField(st: Style, v: Value, i: nat, d: nat, tail: string): string
    requires v.Obj? && i < |v.fields| && d > 0
    decreases v, |v.fields| - i - 1, 1
  {
    if i + 1 < |v.fields| then "," + FieldsOnto(st, v, i + 1, d, tail) else st.gap(d - 1) + ("}" + tail)
  }

  function Print(st: Style, v: Value): string {
    PrintOnto(st, v, 0, "")
  }

  /** Two spaces a level, one behind a colon, escapes only where needed. */
  function Pretty(): Style {
    Style((n: nat) => "\n" + Indent(n), " ", (c: char) => false)
  }

  function Indent(n: nat): (r: string)
    ensures IsSpaces(r)
  {
    if n == 0 then "" else "  " + Indent(n - 1)
  }

  lemma PrettyIsGood()
    ensures GoodStyle(Pretty())
  {
  }

  // ----- strings -----

  lemma HexTextSpells(n: int)
    requires 0 <= n < 0x10000
    ensures HexSpells(Hex4Text(n), n)
  {
    assert n / 256 == n / 16 / 16 && n / 4096 == n / 16 / 16 / 16;
  }

  /** The two halves of a pair, and their digits. */
  lemma PairHalves(v: int) returns (high: int, low: int)
    requires 0 <= v < 0x100000
    ensures high == 0xD800 + v / 1024 && low == 0xDC00 + v % 1024 && v == (high - 0xD800) * 1024 + (low - 0xDC00)
    ensures 0xD800 <= high < 0xDC00 <= low < 0xE000
    ensures HexSpells(Hex4Text(high), high) && HexSpells(Hex4Text(low), low)
    ensures PairText(v) == Hex4Text(high) + ("\\u" + Hex4Text(low))
  {
    high, low := 0xD800 + v / 1024, 0xDC00 + v % 1024;
    HexTextSpells(high);
    HexTextSpells(low);
  }

  /** The escaped form of any scalar reads back, surrogate pairs included. */
  lemma UnicodeBack(c: char, tail: string)
    ensures UnicodeEscape(UnicodeDigits(c) + tail) == Ok((c, tail))
  {
    if (c as int) < 0x10000 {
      HexTextSpells(c as int);
      Hex4Front(Hex4Text(c as int), c as int, tail);
    } else {
      PairBack(c, c as int - 0x10000, tail);
    }
  }

  lemma PairBack(c: char, v: int, tail: string)
    requires 0 <= v < 0x100000 && c as int == 0x10000 + v
    ensures UnicodeEscape(PairText(v) + tail) == Ok((c, tail))
  {
    var high, low := PairHalves(v);
    PairFront(c, Hex4Text(high), high, Hex4Text(low), low, tail);
  }

  lemma PairFront(c: char, first: string, high: int, second: string, low: int, tail: string)
    requires HexSpells(first, high) && HexSpells(second, low) && 0xD800 <= high < 0xDC00 <= low < 0xE000
    requires c as int == 0x10000 + (high - 0xD800) * 1024 + (low - 0xDC00)
    ensures UnicodeEscape(first + ("\\u" + second) + tail) == Ok((c, tail))
  {
    Hex4Front(second, low, tail);
    Hex4Front(first, high, "\\u" + (second + tail));
    TwoJoin(first, second, tail);
    PairEscape(first + ("\\u" + (second + tail)), high, second + tail, low, tail, c);
  }

  lemma TwoJoin(first: string, second: string, tail: string)
    ensures first + ("\\u" + second) + tail == first + ("\\u" + (second + tail))
  {
  }

  lemma UnicodeMark(c: char)
    ensures GoodMark(Mark(c, UnicodeText(c)))
  {
    if (c as int) < 0x10000 {
      HexTextSpells(c as int);
      assert UnicodeText(c)[2..] == Hex4Text(c as int);
      assert UnitMark(Mark(c, UnicodeText(c)));
    } else {
      var high, low := PairHalves(c as int - 0x10000);
      PairIsMark(c, Hex4Text(high), Hex4Text(low));
      assert UnicodeText(c) == "\\u" + Hex4Text(high) + "\\u" + Hex4Text(low);
    }
  }

  lemma PairIsMark(c: char, first: string, second: string)
    requires var v := c as int - 0x10000; v >= 0 && HexSpells(first, 0xD800 + v / 1024) && HexSpells(second, 0xDC00 + v % 1024)
    ensures PairMark(Mark(c, "\\u" + first + "\\u" + second))
  {
    PairLayout(first, second, "");
  }

  function MarksOf(st: Style, s: string): seq<Mark> {
    if s == "" then [] else [Mark(s[0], CharText(st, s[0]))] + MarksOf(st, s[1..])
  }

  /** The printer writes good marks. */
  lemma {:induction false} MarksPrinted(st: Style, s: string, tail: string)
    ensures GoodMarks(MarksOf(st, s)) && Unquoted(MarksOf(st, s)) == s && QuotedOnto(MarksOf(st, s), tail) == QuoteOnto(st, s, tail)
  {
    if s != "" {
      UnicodeMark(s[0]);
      MarksPrinted(st, s[1..], tail);
      assert [s[0]] + s[1..] == s;
    }
  }

  lemma StringBack(st: Style, s: string, tail: string)
    ensures ParseString(QuoteOnto(st, s, tail)) == Ok((s, tail))
  {
    MarksPrinted(st, s, tail);
    MarksRead(MarksOf(st, s), tail);
  }

  // ----- values -----

  /** The tree a printer writes. */
  function Printed(st: Style, v: Value, d: nat): Tree
    decreases v, if v.Arr? then |v.items| + 1 else if v.Obj? then |v.fields| + 1 else 0
  {
    match v
    case Null => Word(v)
    case Bool(_) => Word(v)
    case Int(n) => Number(n < 0, Bare(Size(n)))
    case Str(s) => Quoted(MarksOf(st, s))
    case Arr(items) => if items == [] then NoItems("") else Items(PrintedItems(st, v, 0, d + 1))
    case Obj(fields) => if fields == [] then NoFields("") else Fields(PrintedFields(st, v, 0, d + 1))
  }

  function PrintedItems(st: Style, v: Value, i: nat, d: nat): ItemList
    requires v.Arr? && i < |v.items| && d > 0
    decreases v, |v.items| - i
  {
    if i + 1 < |v.items| then ItemList(st.gap(d), Printed(st, v.items[i], d), "", Some(PrintedItems(st, v, i + 1, d)))
    else ItemList(st.gap(d), Printed(st, v.items[i], d), st.gap(d - 1), None)
  }

  function PrintedFields(st: Style, v: Value, i: nat, d: nat): FieldList
    requires v.Obj? && i < |v.fields| && d > 0
    decreases v, |v.fields| - i
  {
    var key, value := MarksOf(st, v.fields[i].key), Printed(st, v.fields[i].value, d);
    if i + 1 < |v.fields| then FieldList(st.gap(d), key, "", st.colon, value, "", Some(PrintedFields(st, v, i + 1, d)))
    else FieldList(st.gap(d), key, "", st.colon, value, st.gap(d - 1), None)
  }

  /** What is printed is the text of a tree that means the value. */
  lemma {:induction false} PrintIsText(st: Style, v: Value, d: nat, tail: string)
    requires GoodStyle(st)
    ensures var t := Printed(st, v, d); Formed(t) && Meaning(t) == v && TextOnto(t, tail) == PrintOnto(st, v, d, tail)
    decreases v, if v.Arr? then |v.items| + 1 else if v.Obj? then |v.fields| + 1 else 0
  {
    match v
    case Null =>
    case Bool(_) =>
    case Int(n) => BareValue(Size(n));
    case Str(s) => MarksPrinted(st, s, tail);
    case Arr(items) => if items == [] { assert "" + ("]" + tail) == "]" + tail; } else { ItemsAreText(st, v, 0, d + 1, tail); }
    case Obj(fields) => if fields == [] { assert "" + ("}" + tail) == "}" + tail; } else { FieldsAreText(st, v, 0, d + 1, tail); }
  }

  lemma {:induction false} ItemsAreText(st: Style, v: Value, i: nat, d: nat, tail: string)
    requires GoodStyle(st) && v.Arr? && i < |v.items| && d > 0
    ensures var l := PrintedItems(st, v, i, d);
            FormedItems(l) && ItemsMeaning(l) == v.items[i..] && ItemsTextOnto(l, tail) == ItemsOnto(st, v, i, d, tail)
    decreases v, |v.items| - i
  {
    assert IsSpaces(st.gap(d)) && IsSpaces(st.gap(d - 1));
    var after := AfterItem(st, v, i, d, tail);
    PrintIsText(st, v.items[i], d, after);
    assert v.items[i..] == [v.items[i]] + v.items[i + 1..];
    if i + 1 < |v.items| {
      ItemsAreText(st, v, i + 1, d, tail);
      assert "" + after == after;
    }
  }

  lemma {:induction false} FieldsAreText(st: Style, v: Value, i: nat, d: nat, tail: string)
    requires GoodStyle(st) && v.Obj? && i < |v.fields| && d > 0
    ensures var l := PrintedFields(st, v, i, d);
            FormedFields(l) && FieldsMeaning(l) == v.fields[i..] && FieldsTextOnto(l, tail) == FieldsOnto(st, v, i, d, tail)
    decreases v, |v.fields| - i
  {
    assert IsSpaces(st.gap(d)) && IsSpaces(st.gap(d - 1));
    var after := AfterField(st, v, i, d, tail);
    var value := ":" + (st.colon + PrintOnto(st, v.fields[i].value, d, after));
    PrintIsText(st, v.fields[i].value, d, after);
    MarksPrinted(st, v.fields[i].key, value);
    assert "" + value == value;
    assert v.fields[i..] == [v.fields[i]] + v.fields[i + 1..];
    if i + 1 < |v.fields| {
      FieldsAreText(st, v, i + 1, d, tail);
      assert "" + after == after;
    }
  }

  /** A printed value the reader cannot return is refused; it is never taken for
      another one. */
  lemma ValueFails(st: Style, v: Value, d: nat, depth: nat, tail: string)
    requires GoodStyle(st) && depth <= MAX_DEPTH && !Good(v, MAX_DEPTH - depth) && Closes(tail)
    ensures ParseValue(PrintOnto(st, v, d, tail), depth).Err?
  {
    PrintIsText(st, v, d, tail);
    TreeReads(Printed(st, v, d), depth, tail);
  }

  /** A tree with no white space around it. */
  lemma AloneReads(s: string, v: Value, t: Tree)
    requires Formed(t) && Meaning(t) == v && s == TextOnto(t, "")
    ensures if Good(v, MAX_DEPTH) && Utf8Length(s) <= MAX_KB_JSON_BYTES then ParseDocument(s) == Ok(v) else ParseDocument(s).Err?
  {
    assert "" + TextOnto(t, "") == s;
    if Utf8Length(s) <= MAX_KB_JSON_BYTES { DocumentReads(s, v, "", t, ""); }
  }

  /** Printing a value and parsing the text gives the value back exactly when its
      objects name no key twice, its numbers are `i64`s, it nests at most sixteen
      deep, and its text fits the size bound; otherwise the reader refuses. */
  lemma ParseOfPrint(st: Style, v: Value)
    requires GoodStyle(st)
    ensures var fits := Clean(v) && Within(v, MAX_DEPTH) && Utf8Length(Print(st, v)) <= MAX_KB_JSON_BYTES;
            if fits then ParseDocument(Print(st, v)) == Ok(v) else ParseDocument(Print(st, v)).Err?
  {
    PrintIsText(st, v, 0, "");
    AloneReads(Print(st, v), v, Printed(st, v, 0));
  }
}
