/** The grammar of the metadata files: trees of tokens with the white space between
    them, the text of a tree and the value it means. None of it mentions the
    reader, which is proved to accept exactly the texts of these trees. */
module JsonGrammar {
  import opened Options
  import opened CanonBytes
  import opened DecimalDigits
  import opened DecimalText
  import opened StrictJson
  import opened Utf8

  // ----- tokens -----

  predicate IsBlank(c: char) {
    c in {' ', '\t', '\n', '\r'}
  }

  predicate IsSpaces(s: string) {
    forall i :: 0 <= i < |s| ==> IsBlank(s[i])
  }

  /** A character of a string, and one way to write it there. */
  datatype Mark = Mark(c: char, text: string)

  function HexChar(n: int): char
    requires 0 <= n < 16
  {
    if n < 10 then '0' + n as char else 'a' + (n - 10) as char
  }

  function UpperHexChar(n: int): char
    requires 0 <= n < 16
  {
    if n < 10 then '0' + n as char else 'A' + (n - 10) as char
  }

  /** A hexadecimal digit of this value, in either case. */
  predicate IsHexOf(c: char, n: int) {
    0 <= n < 16 && (c == HexChar(n) || c == UpperHexChar(n))
  }

  /** Four hexadecimal digits, the most significant first. */
  predicate HexSpells(s: string, n: int) {
    && |s| == 4 && 0 <= n < 0x10000
    && IsHexOf(s[0], n / 4096) && IsHexOf(s[1], n / 256 % 16) && IsHexOf(s[2], n / 16 % 16) && IsHexOf(s[3], n % 16)
  }

  /** The escapes of two characters (section 7 of RFC 8259). */
  predicate ShortEscape(letter: char, c: char) {
    (letter, c) in {('"', '"'), ('\\', '\\'), ('/', '/'), ('n', '\n'), ('t', '\t'), ('r', '\r'), ('b', 8 as char), ('f', 12 as char)}
  }

  /** The character itself: no quote, no backslash and no control character. */
  predicate PlainMark(m: Mark) {
    m.text == [m.c] && m.c != '"' && m.c != '\\' && m.c as int >= 0x20
  }

  predicate ShortMark(m: Mark) {
    |m.text| == 2 && m.text[0] == '\\' && ShortEscape(m.text[1], m.c)
  }

  /** One code unit. */
  predicate UnitMark(m: Mark) {
    |m.text| == 6 && m.text[..2] == "\\u" && HexSpells(m.text[2..], m.c as int)
  }

  /** A surrogate pair, for a character outside the basic plane. */
  predicate PairMark(m: Mark) {
    var v := m.c as int - 0x10000;
    && |m.text| == 12 && v >= 0
    && m.text[..2] == "\\u" && HexSpells(m.text[2..6], 0xD800 + v / 1024)
    && m.text[6..8] == "\\u" && HexSpells(m.text[8..], 0xDC00 + v % 1024)
  }

  predicate GoodMark(m: Mark) {
    PlainMark(m) || ShortMark(m) || UnitMark(m) || PairMark(m)
  }

  predicate GoodMarks(marks: seq<Mark>) {
    forall i :: 0 <= i < |marks| ==> GoodMark(marks[i])
  }

  function Unquoted(marks: seq<Mark>): string {
    if marks == [] then "" else [marks[0].c] + Unquoted(marks[1..])
  }

  /** The characters and the closing quote, in front of what follows. */
  function QuotedOnto(marks: seq<Mark>, tail: string): string {
    if marks == [] then "\"" + tail else marks[0].text + QuotedOnto(marks[1..], tail)
  }

  function SignText(negative: bool): string {
    if negative then "-" else ""
  }

  function WordText(v: Value): string
    requires v.Null? || v.Bool?
  {
    match v case Null => "null" case Bool(b) => if b then "true" else "false"
  }

  // ----- trees -----

  /** A number has a sign or none and any digits, leading zeros included, but no
      fraction and no exponent. */
  datatype Tree =
    | Word(word: Value)
    | Number(negative: bool, digits: string)
    | Quoted(marks: seq<Mark>)
    | NoItems(space: string)
    | Items(items: ItemList)
    | NoFields(space: string)
    | Fields(fields: FieldList)

  datatype ItemList = ItemList(before: string, item: Tree, after: string, rest: Option<ItemList>)

  datatype FieldList = FieldList(before: string, key: seq<Mark>, middle: string, gap: string, value: Tree, after: string, rest: Option<FieldList>)

  predicate Formed(t: Tree) {
    match t
    case Word(v) => v.Null? || v.Bool?
    case Number(_, digits) => digits != "" && IsDigits(digits)
    case Quoted(marks) => GoodMarks(marks)
    case NoItems(space) => IsSpaces(space)
    case Items(items) => FormedItems(items)
    case NoFields(space) => IsSpaces(space)
    case Fields(fields) => FormedFields(fields)
  }

  predicate FormedItems(l: ItemList) {
    IsSpaces(l.before) && Formed(l.item) && IsSpaces(l.after) && (l.rest.Some? ==> FormedItems(l.rest.value))
  }

  predicate FormedFields(l: FieldList) {
    && IsSpaces(l.before) && GoodMarks(l.key) && IsSpaces(l.middle) && IsSpaces(l.gap) && Formed(l.value) && IsSpaces(l.after)
    && (l.rest.Some? ==> FormedFields(l.rest.value))
  }

  /** The text of a tree, in front of what follows. */
  function TextOnto(t: Tree, tail: string): string
    requires Formed(t)
    decreases t, 2
  {
    match t
    case Word(v) => WordText(v) + tail
    case Number(negative, digits) => SignText(negative) + digits + tail
    case Quoted(marks) => "\"" + QuotedOnto(marks, tail)
    case NoItems(space) => "[" + (space + ("]" + tail))
    case Items(items) => "[" + ItemsTextOnto(items, tail)
    case NoFields(space) => "{" + (space + ("}" + tail))
    case Fields(fields) => "{" + FieldsTextOnto(fields, tail)
  }

  function ItemsTextOnto(l: ItemList, tail: string): string
    requires FormedItems(l)
    decreases l, 1
  {
    l.before + TextOnto(l.item, AfterItemText(l, tail))
  }

  function AfterItemText(l: ItemList, tail: string): string
    requires FormedItems(l)
    decreases l, 0
  {
    l.after + (if l.rest.Some? then "," + ItemsTextOnto(l.rest.value, tail) else "]" + tail)
  }

  function FieldsTextOnto(l: FieldList, tail: string): string
    requires FormedFields(l)
    decreases l, 1
  {
    l.before + ("\"" + QuotedOnto(l.key, l.middle + (":" + (l.gap + TextOnto(l.value, AfterFieldText(l, tail))))))
  }

  function AfterFieldText(l: FieldList, tail: string): string
    requires FormedFields(l)
    decreases l, 0
  {
    l.after + (if l.rest.Some? then "," + FieldsTextOnto(l.rest.value, tail) else "}" + tail)
  }

  function Meaning(t: Tree): Value
    requires Formed(t)
  {
    match t
    case Word(v) => v
    case Number(negative, digits) => Int(if negative then 0 - Spelled(Values(digits)) else Spelled(Values(digits)))
    case Quoted(marks) => Str(Unquoted(marks))
    case NoItems(_) => Arr([])
    case Items(items) => Arr(ItemsMeaning(items))
    case NoFields(_) => Obj([])
    case Fields(fields) => Obj(FieldsMeaning(fields))
  }

  function ItemsMeaning(l: ItemList): seq<Value>
    requires FormedItems(l)
  {
    [Meaning(l.item)] + if l.rest.Some? then ItemsMeaning(l.rest.value) else []
  }

  function FieldsMeaning(l: FieldList): seq<Field>
    requires FormedFields(l)
  {
    [Field(Unquoted(l.key), Meaning(l.value))] + if l.rest.Some? then FieldsMeaning(l.rest.value) else []
  }

  /** A document: white space, a tree, white space. */
  ghost predicate IsDocument(s: string, v: Value, before: string, t: Tree, after: string) {
    IsSpaces(before) && Formed(t) && IsSpaces(after) && s == before + TextOnto(t, after) && Meaning(t) == v
  }

  ghost predicate SpelledBy(s: string, v: Value) {
    exists before, t, after :: IsDocument(s, v, before, t, after)
  }

  // ----- hexadecimal digits -----

  lemma HexCharBack(n: int)
    requires 0 <= n < 16
    ensures HexDigit(HexChar(n)) == HexDigit(UpperHexChar(n)) == Some(n)
  {
  }

  lemma HexDigitIs(c: char, n: int)
    ensures HexDigit(c) == Some(n) <==> IsHexOf(c, n)
  {
  }

  lemma Hex4Splits(a: int, b: int, c: int, d: int, n: int)
    requires 0 <= a < 16 && 0 <= b < 16 && 0 <= c < 16 && 0 <= d < 16
    requires n == ((a * 16 + b) * 16 + c) * 16 + d
    ensures n / 4096 == a && n / 256 % 16 == b && n / 16 % 16 == c && n % 16 == d && 0 <= n < 0x10000
  {
    assert n / 16 == (a * 16 + b) * 16 + c && n / 256 == n / 16 / 16 && n / 4096 == n / 256 / 16;
  }

  lemma Hex4Joins(n: int)
    requires 0 <= n < 0x10000
    ensures ((n / 4096 * 16 + n / 256 % 16) * 16 + n / 16 % 16) * 16 + n % 16 == n
  {
    assert n / 256 == n / 16 / 16 && n / 4096 == n / 16 / 16 / 16;
  }

  /** Four characters are read as a number exactly when they spell it. */
  lemma Hex4Exact(s: string, n: int, rest: string)
    ensures Hex4(s) == Ok((n, rest)) <==> |s| >= 4 && HexSpells(s[..4], n) && rest == s[4..]
  {
    if |s| >= 4 {
      var f := s[..4];
      forall m ensures HexDigit(f[0]) == Some(m) <==> IsHexOf(f[0], m) { HexDigitIs(f[0], m); }
      forall m ensures HexDigit(f[1]) == Some(m) <==> IsHexOf(f[1], m) { HexDigitIs(f[1], m); }
      forall m ensures HexDigit(f[2]) == Some(m) <==> IsHexOf(f[2], m) { HexDigitIs(f[2], m); }
      forall m ensures HexDigit(f[3]) == Some(m) <==> IsHexOf(f[3], m) { HexDigitIs(f[3], m); }
      if Hex4(s) == Ok((n, rest)) {
        Hex4Splits(HexDigit(f[0]).value, HexDigit(f[1]).value, HexDigit(f[2]).value, HexDigit(f[3]).value, n);
      }
      if HexSpells(f, n) { Hex4Joins(n); }
    }
  }

  // ----- strings -----

  /** A mark in front of more characters reads as its character. */
  lemma MarkReads(m: Mark, tail: string)
    requires GoodMark(m)
    ensures ParseString(m.text + tail) == Before(m.c, ParseString(tail))
  {
    var s := m.text + tail;
    if PlainMark(m) {
      assert s[1..] == tail;
    } else if ShortMark(m) {
      assert s[1..] == [m.text[1]] + tail && s[1..][1..] == tail;
    } else if UnitMark(m) {
      UnitReads(m, tail);
    } else {
      PairReads(m, tail);
    }
  }

  lemma UnitReads(m: Mark, tail: string)
    requires UnitMark(m)
    ensures ParseString(m.text + tail) == Before(m.c, ParseString(tail))
  {
    var digits := m.text[2..];
    Hex4Front(digits, m.c as int, tail);
    assert m.text == m.text[..2] + digits;
    assert m.text + tail == "\\u" + (digits + tail);
    EscapeReads(digits + tail, m.c, tail);
  }

  lemma Hex4Front(digits: string, n: int, tail: string)
    requires HexSpells(digits, n)
    ensures Hex4(digits + tail) == Ok((n, tail))
  {
    assert (digits + tail)[..4] == digits && (digits + tail)[4..] == tail;
    Hex4Exact(digits + tail, n, tail);
  }

  lemma PairReads(m: Mark, tail: string)
    requires PairMark(m)
    ensures ParseString(m.text + tail) == Before(m.c, ParseString(tail))
  {
    var v := m.c as int - 0x10000;
    var high, low := m.text[2..6], m.text[8..];
    assert m.text == m.text[..2] + high + m.text[6..8] + low;
    PairLayout(high, low, tail);
    Hex4Front(high, 0xD800 + v / 1024, "\\u" + (low + tail));
    Hex4Front(low, 0xDC00 + v % 1024, tail);
    PairEscape(high + ("\\u" + (low + tail)), 0xD800 + v / 1024, low + tail, 0xDC00 + v % 1024, tail, m.c);
    EscapeReads(high + ("\\u" + (low + tail)), m.c, tail);
  }

  /** A pair is two code units, each behind `\u`. */
  lemma PairLayout(high: string, low: string, tail: string)
    requires |high| == 4 && |low| == 4
    ensures var t := "\\u" + high + "\\u" + low;
            && |t| == 12 && t[..2] == "\\u" && t[2..6] == high && t[6..8] == "\\u" && t[8..] == low
            && t + tail == "\\u" + (high + ("\\u" + (low + tail)))
  {
  }

  lemma PairEscape(s: string, high: int, second: string, low: int, tail: string, c: char)
    requires Hex4(s) == Ok((high, "\\u" + second)) && Hex4(second) == Ok((low, tail))
    requires 0xD800 <= high < 0xDC00 && 0xDC00 <= low < 0xE000
    requires c as int == 0x10000 + (high - 0xD800) * 1024 + (low - 0xDC00)
    ensures UnicodeEscape(s) == Ok((c, tail))
  {
    assert ("\\u" + second)[2..] == second;
  }

  lemma EscapeReads(s: string, c: char, tail: string)
    requires UnicodeEscape(s) == Ok((c, tail))
    ensures ParseString("\\u" + s) == Before(c, ParseString(tail))
  {
    assert ("\\u" + s)[1..] == ['u'] + s && (['u'] + s)[1..] == s;
  }

  lemma {:induction false} MarksRead(marks: seq<Mark>, tail: string)
    requires GoodMarks(marks)
    ensures ParseString(QuotedOnto(marks, tail)) == Ok((Unquoted(marks), tail))
  {
    if marks == [] {
      assert ("\"" + tail)[1..] == tail;
    } else {
      MarksRead(marks[1..], tail);
      MarkReads(marks[0], QuotedOnto(marks[1..], tail));
    }
  }

  /** What an escape takes from the text is a mark. */
  lemma EscapeTaken(s: string) returns (m: Mark)
    requires Escape(s).Ok?
    ensures GoodMark(m) && m.c == Escape(s).value.0 && ['\\'] + s == m.text + Escape(s).value.1
  {
    var (c, rest) := Escape(s).value;
    if s[0] != 'u' {
      m := Mark(c, ['\\', s[0]]);
      assert s == [s[0]] + rest;
    } else {
      m := UnicodeTaken(s[1..]);
      assert s == ['u'] + s[1..];
    }
  }

  lemma UnicodeTaken(s: string) returns (m: Mark)
    requires UnicodeEscape(s).Ok?
    ensures GoodMark(m) && m.c == UnicodeEscape(s).value.0 && ['\\', 'u'] + s == m.text + UnicodeEscape(s).value.1
  {
    var (c, rest) := UnicodeEscape(s).value;
    var (unit, after) := Hex4(s).value;
    Hex4Exact(s, unit, after);
    if unit < 0xD800 || unit >= 0xE000 {
      m := Mark(c, ['\\', 'u'] + s[..4]);
      assert m.text[2..] == s[..4] && m.text[..2] == "\\u";
      assert s == s[..4] + rest;
    } else {
      m := PairTaken(s, unit, after);
    }
  }

  lemma PairTaken(s: string, unit: int, after: string) returns (m: Mark)
    requires UnicodeEscape(s).Ok? && Hex4(s) == Ok((unit, after)) && 0xD800 <= unit < 0xE000
    ensures GoodMark(m) && m.c == UnicodeEscape(s).value.0 && ['\\', 'u'] + s == m.text + UnicodeEscape(s).value.1
  {
    var c, low, rest := PairIsEscaped(s, unit, after);
    Hex4Exact(s, unit, after);
    Hex4Exact(after[2..], low, rest);
    PairSplits(c as int - 0x10000, unit, low);
    m := PairMarkOf(c, s, after, rest);
  }

  lemma PairIsEscaped(s: string, unit: int, after: string) returns (c: char, low: int, rest: string)
    requires UnicodeEscape(s).Ok? && Hex4(s) == Ok((unit, after)) && 0xD800 <= unit < 0xE000
    ensures UnicodeEscape(s) == Ok((c, rest)) && |after| >= 2 && after[0] == '\\' && after[1] == 'u'
    ensures Hex4(after[2..]) == Ok((low, rest)) && 0xDC00 <= low < 0xE000
    ensures c as int == 0x10000 + (unit - 0xD800) * 1024 + (low - 0xDC00)
  {
    c, rest := UnicodeEscape(s).value.0, UnicodeEscape(s).value.1;
    low := Hex4(after[2..]).value.0;
  }

  lemma PairMarkOf(c: char, s: string, after: string, rest: string) returns (m: Mark)
    requires |s| >= 4 && after == s[4..] && |after| >= 6 && after[0] == '\\' && after[1] == 'u' && rest == after[2..][4..]
    requires c as int >= 0x10000
    requires HexSpells(s[..4], 0xD800 + (c as int - 0x10000) / 1024) && HexSpells(after[2..][..4], 0xDC00 + (c as int - 0x10000) % 1024)
    ensures PairMark(m) && m.c == c && ['\\', 'u'] + s == m.text + rest
  {
    var first, second := s[..4], after[2..][..4];
    PairLayout(first, second, rest);
    m := Mark(c, "\\u" + first + "\\u" + second);
    assert s == first + after && after == "\\u" + after[2..] && after[2..] == second + rest;
  }

  lemma PairSplits(v: int, high: int, low: int)
    requires v == (high - 0xD800) * 1024 + (low - 0xDC00) && 0xDC00 <= low < 0xE000 && high >= 0xD800
    ensures v >= 0 && 0xD800 + v / 1024 == high && 0xDC00 + v % 1024 == low
  {
  }

  lemma {:induction false} StringTaken(s: string) returns (marks: seq<Mark>)
    requires ParseString(s).Ok?
    ensures GoodMarks(marks) && Unquoted(marks) == ParseString(s).value.0 && s == QuotedOnto(marks, ParseString(s).value.1)
    decreases |s|
  {
    if s[0] == '"' {
      marks := [];
    } else if s[0] == '\\' {
      var m := EscapeTaken(s[1..]);
      var rest := StringTaken(Escape(s[1..]).value.1);
      marks := [m] + rest;
      assert s == ['\\'] + s[1..];
    } else {
      var rest := StringTaken(s[1..]);
      marks := [Mark(s[0], [s[0]])] + rest;
      assert s == [s[0]] + s[1..];
    }
  }

  // ----- white space -----

  lemma {:induction false} SkipSpaces(w: string, s: string)
    requires IsSpaces(w)
    ensures SkipWs(w + s) == SkipWs(s)
  {
    if w == "" {
      assert w + s == s;
    } else {
      SkipSpaces(w[1..], s);
      assert (w + s)[1..] == w[1..] + s && (w + s)[0] == w[0];
    }
  }

  lemma {:induction false} SpaceTaken(s: string) returns (w: string)
    ensures IsSpaces(w) && s == w + SkipWs(s)
  {
    if s != "" && IsSpace(s[0]) {
      var rest := SpaceTaken(s[1..]);
      w := [s[0]] + rest;
    } else {
      w := "";
    }
  }

  lemma NoSkip(c: char, s: string)
    requires !IsBlank(c)
    ensures SkipWs([c] + s) == [c] + s && ([c] + s)[1..] == s
  {
  }

  lemma SkipTwice(s: string)
    ensures SkipWs(SkipWs(s)) == SkipWs(s)
  {
  }

  /** White space in front changes nothing. */
  lemma AfterSpaces(w: string, s: string, depth: nat)
    requires IsSpaces(w) && depth <= MAX_DEPTH
    ensures ParseValue(w + s, depth) == ParseValue(s, depth)
    ensures depth >= 1 ==> ParseItems(w + s, depth, []) == ParseItems(s, depth, [])
    ensures depth >= 1 ==> ParseFields(w + s, depth, []) == ParseFields(s, depth, [])
  {
    SkipSpaces(w, s);
    if depth >= 1 {
      assert ParseValue(w + s, depth) == ParseValue(s, depth);
      assert ParseField(w + s, depth, []) == ParseField(s, depth, []);
    }
  }

  /** What may follow a number for it to end there. */
  predicate Closes(tail: string) {
    tail == "" || IsBlank(tail[0]) || tail[0] in {',', ']', '}'}
  }

  lemma AfterCloses(w: string, c: char, tail: string)
    requires IsSpaces(w) && c in {',', ']', '}'}
    ensures Closes(w + ([c] + tail))
  {
    if w != "" { assert (w + ([c] + tail))[0] == w[0]; }
  }

  // ----- every tree is read -----

  /** What the reader may return at this depth. */
  predicate Good(v: Value, k: nat) {
    Clean(v) && Within(v, k)
  }

  lemma GoodArr(items: seq<Value>, k: nat)
    ensures Good(Arr(items), k) <==> k > 0 && GoodItems(items, k - 1)
  {
  }

  lemma GoodObj(fields: seq<Field>, k: nat)
    ensures Good(Obj(fields), k) <==> k > 0 && GoodFields(fields, k - 1)
  {
  }

  /** `r` is the value of the tree if the reader may return it, and else an error. */
  predicate Reads(r: Result<(Value, string), JsonError>, v: Value, good: bool, tail: string) {
    if good then r == Ok((v, tail)) else r.Err?
  }

  lemma WordReads(v: Value, tail: string, depth: nat)
    requires depth <= MAX_DEPTH && (v.Null? || v.Bool?)
    ensures ParseValue(WordText(v) + tail, depth) == Ok((v, tail))
  {
    var text := WordText(v);
    assert (text + tail)[0] == text[0] && (text + tail)[|text|..] == tail && text <= text + tail;
  }

  lemma NumberScanned(negative: bool, digits: string, tail: string)
    requires IsDigits(digits) && digits != "" && Closes(tail)
    ensures var s := SignText(negative) + digits + tail;
            ScanInt(s) == Ok((negative, digits, tail)) && (s[0] == '-' || IsDigit(s[0]))
  {
    var t := digits + tail;
    var s := SignText(negative) + digits + tail;
    assert t[0] == digits[0] && IsDigit(digits[0]) && t[0] != '-';
    assert s == SignText(negative) + t;
    assert (if negative then s[1..] else s) == t;
    assert t[..|digits|] == digits && t[|digits|..] == tail;
    DigitsPrefixIs(t, |digits|);
  }

  lemma NumberReads(negative: bool, digits: string, tail: string, depth: nat)
    requires IsDigits(digits) && digits != "" && Closes(tail) && depth <= MAX_DEPTH
    ensures var v := Meaning(Number(negative, digits));
            Reads(ParseValue(SignText(negative) + digits + tail, depth), v, Clean(v), tail)
  {
    var s := SignText(negative) + digits + tail;
    NumberScanned(negative, digits, tail);
    ScannedReads(s, negative, digits, tail, depth);
    assert Meaning(Number(negative, digits)) == Int(SignedSpelled(negative, digits));
  }

  lemma ScannedReads(s: string, negative: bool, digits: string, tail: string, depth: nat)
    requires IsDigits(digits) && ScanInt(s) == Ok((negative, digits, tail)) && depth <= MAX_DEPTH
    requires s != "" && (s[0] == '-' || IsDigit(s[0]))
    ensures var v := Int(SignedSpelled(negative, digits)); Reads(ParseValue(s, depth), v, Clean(v), tail)
  {
  }

  /** No tree begins with white space or a closing bracket. */
  lemma TreeStarts(t: Tree, tail: string)
    requires Formed(t)
    ensures var s := TextOnto(t, tail); s != "" && !IsBlank(s[0]) && s[0] != ']' && SkipWs(s) == s
  {
    if t.Number? {
      assert IsDigit(t.digits[0]);
      assert TextOnto(t, tail)[0] == (if t.negative then '-' else t.digits[0]);
    }
  }

  lemma BracketOpens(body: string, depth: nat)
    requires depth <= MAX_DEPTH
    ensures ParseValue(['['] + body, depth) == if depth == MAX_DEPTH then Err(DepthExceeded) else ParseArray(body, depth + 1)
    ensures ParseValue(['{'] + body, depth) == if depth == MAX_DEPTH then Err(DepthExceeded) else ParseObject(body, depth + 1)
  {
    NoSkip('[', body);
    NoSkip('{', body);
  }

  lemma EmptyReads(space: string, tail: string, depth: nat)
    requires IsSpaces(space) && 1 <= depth <= MAX_DEPTH
    ensures ParseArray(space + ("]" + tail), depth) == Ok((Arr([]), tail))
    ensures ParseObject(space + ("}" + tail), depth) == Ok((Obj([]), tail))
  {
    SkipSpaces(space, "]" + tail);
    SkipSpaces(space, "}" + tail);
    NoSkip(']', tail);
    NoSkip('}', tail);
  }

  lemma EmptyTreeReads(space: string, tail: string, depth: nat)
    requires IsSpaces(space) && depth <= MAX_DEPTH
    ensures Reads(ParseValue("[" + (space + ("]" + tail)), depth), Arr([]), Good(Arr([]), MAX_DEPTH - depth), tail)
    ensures Reads(ParseValue("{" + (space + ("}" + tail)), depth), Obj([]), Good(Obj([]), MAX_DEPTH - depth), tail)
  {
    BracketOpens(space + ("]" + tail), depth);
    BracketOpens(space + ("}" + tail), depth);
    if depth < MAX_DEPTH { EmptyReads(space, tail, depth + 1); }
  }

  /** A tree in front of what may follow a value is read as its meaning, if no
      object in it names a key twice, its numbers are `i64`s and it nests within
      the depth left; any other tree is refused. */
  lemma {:induction false} TreeReads(t: Tree, depth: nat, tail: string)
    requires Formed(t) && depth <= MAX_DEPTH && Closes(tail)
    ensures Reads(ParseValue(TextOnto(t, tail), depth), Meaning(t), Good(Meaning(t), MAX_DEPTH - depth), tail)
    decreases t, 2
  {
    match t
    case Word(v) => WordReads(v, tail, depth);
    case Number(negative, digits) => NumberReads(negative, digits, tail, depth);
    case Quoted(marks) =>
      MarksRead(marks, tail);
      NoSkip('"', QuotedOnto(marks, tail));
    case NoItems(space) => EmptyTreeReads(space, tail, depth);
    case NoFields(space) => EmptyTreeReads(space, tail, depth);
    case Items(items) => ArrayReads(items, depth, tail);
    case Fields(fields) => ObjectReads(fields, depth, tail);
  }

  lemma FirstItem(l: ItemList, depth: nat, tail: string)
    requires FormedItems(l) && 1 <= depth <= MAX_DEPTH
    ensures ParseArray(ItemsTextOnto(l, tail), depth) == ParseItems(ItemsTextOnto(l, tail), depth, [])
  {
    var first := TextOnto(l.item, AfterItemText(l, tail));
    TreeStarts(l.item, AfterItemText(l, tail));
    SkipSpaces(l.before, first);
    AfterSpaces(l.before, first, depth);
  }

  lemma {:induction false} ArrayReads(l: ItemList, depth: nat, tail: string)
    requires FormedItems(l) && depth <= MAX_DEPTH
    ensures var v := Arr(ItemsMeaning(l));
            Reads(ParseValue(['['] + ItemsTextOnto(l, tail), depth), v, Good(v, MAX_DEPTH - depth), tail)
    decreases l, 4
  {
    if depth < MAX_DEPTH {
      FirstItem(l, depth + 1, tail);
      ItemsRead(l, depth + 1, [], tail);
      assert [] + ItemsMeaning(l) == ItemsMeaning(l);
    }
    ArrayFrom(ItemsTextOnto(l, tail), ItemsMeaning(l), depth, tail);
  }

  lemma ArrayFrom(body: string, items: seq<Value>, depth: nat, tail: string)
    requires depth <= MAX_DEPTH
    requires depth < MAX_DEPTH ==> Reads(ParseArray(body, depth + 1), Arr(items), GoodItems(items, MAX_DEPTH - depth - 1), tail)
    ensures Reads(ParseValue(['['] + body, depth), Arr(items), Good(Arr(items), MAX_DEPTH - depth), tail)
  {
    GoodArr(items, MAX_DEPTH - depth);
    BracketOpens(body, depth);
  }

  lemma GoodItemsFrom(x: Value, rest: seq<Value>, k: nat)
    ensures GoodItems([x] + rest, k) <==> Good(x, k) && GoodItems(rest, k)
  {
    assert forall i :: 0 <= i < |rest| ==> ([x] + rest)[i + 1] == rest[i];
    assert ([x] + rest)[0] == x;
  }

  lemma {:induction false} ItemsRead(l: ItemList, depth: nat, before: seq<Value>, tail: string)
    requires FormedItems(l) && 1 <= depth <= MAX_DEPTH && GoodItems(before, MAX_DEPTH - depth)
    ensures Reads(ParseItems(ItemsTextOnto(l, tail), depth, before), Arr(before + ItemsMeaning(l)), GoodItems(ItemsMeaning(l), MAX_DEPTH - depth), tail)
    decreases l, 3
  {
    var v := Meaning(l.item);
    GoodItemsFrom(v, if l.rest.Some? then ItemsMeaning(l.rest.value) else [], MAX_DEPTH - depth);
    ItemsJoin(l, before, tail);
    ItemReads(l, depth, tail);
    if Good(v, MAX_DEPTH - depth) {
      ItemsGoOn(l, depth, before, v, tail);
      if l.rest.Some? { ItemsRead(l.rest.value, depth, before + [v], tail); }
    }
  }

  lemma {:induction false} ItemReads(l: ItemList, depth: nat, tail: string)
    requires FormedItems(l) && 1 <= depth <= MAX_DEPTH
    ensures var v := Meaning(l.item);
            Reads(ParseValue(ItemsTextOnto(l, tail), depth), v, Good(v, MAX_DEPTH - depth), AfterItemText(l, tail))
    decreases l, 2
  {
    AfterCloses(l.after, ',', if l.rest.Some? then ItemsTextOnto(l.rest.value, tail) else "");
    AfterCloses(l.after, ']', tail);
    AfterSpaces(l.before, TextOnto(l.item, AfterItemText(l, tail)), depth);
    TreeReads(l.item, depth, AfterItemText(l, tail));
  }

  /** Behind an item comes a comma and the next one, or the end of the array. */
  lemma ItemsGoOn(l: ItemList, depth: nat, before: seq<Value>, v: Value, tail: string)
    requires FormedItems(l) && 1 <= depth <= MAX_DEPTH && GoodItems(before, MAX_DEPTH - depth) && Good(v, MAX_DEPTH - depth)
    requires ParseValue(ItemsTextOnto(l, tail), depth) == Ok((v, AfterItemText(l, tail)))
    ensures ParseItems(ItemsTextOnto(l, tail), depth, before) ==
            if l.rest.Some? then ParseItems(ItemsTextOnto(l.rest.value, tail), depth, before + [v]) else Ok((Arr(before + [v]), tail))
  {
    if l.rest.Some? {
      SkipSpaces(l.after, "," + ItemsTextOnto(l.rest.value, tail));
      NoSkip(',', ItemsTextOnto(l.rest.value, tail));
    } else {
      SkipSpaces(l.after, "]" + tail);
      NoSkip(']', tail);
    }
  }

  lemma FirstField(l: FieldList, depth: nat, tail: string)
    requires FormedFields(l) && 1 <= depth <= MAX_DEPTH
    ensures ParseObject(FieldsTextOnto(l, tail), depth) == ParseFields(FieldsTextOnto(l, tail), depth, [])
  {
    var rest := QuotedOnto(l.key, l.middle + (":" + (l.gap + TextOnto(l.value, AfterFieldText(l, tail)))));
    KeyAfterSpaces(l.before, rest, depth);
  }

  lemma KeyAfterSpaces(w: string, rest: string, depth: nat)
    requires IsSpaces(w) && 1 <= depth <= MAX_DEPTH
    ensures ParseObject(w + ("\"" + rest), depth) == ParseFields(w + ("\"" + rest), depth, [])
  {
    SkipSpaces(w, "\"" + rest);
    NoSkip('"', rest);
    AfterSpaces(w, "\"" + rest, depth);
  }

  lemma {:induction false} ObjectReads(l: FieldList, depth: nat, tail: string)
    requires FormedFields(l) && depth <= MAX_DEPTH
    ensures var v := Obj(FieldsMeaning(l));
            Reads(ParseValue(['{'] + FieldsTextOnto(l, tail), depth), v, Good(v, MAX_DEPTH - depth), tail)
    decreases l, 4
  {
    if depth < MAX_DEPTH {
      FirstField(l, depth + 1, tail);
      FieldsRead(l, depth + 1, [], tail);
      assert [] + FieldsMeaning(l) == FieldsMeaning(l);
    }
    ObjectFrom(FieldsTextOnto(l, tail), FieldsMeaning(l), depth, tail);
  }

  lemma ObjectFrom(body: string, fields: seq<Field>, depth: nat, tail: string)
    requires depth <= MAX_DEPTH
    requires depth < MAX_DEPTH ==> Reads(ParseObject(body, depth + 1), Obj(fields), GoodFields(fields, MAX_DEPTH - depth - 1), tail)
    ensures Reads(ParseValue(['{'] + body, depth), Obj(fields), Good(Obj(fields), MAX_DEPTH - depth), tail)
  {
    GoodObj(fields, MAX_DEPTH - depth);
    BracketOpens(body, depth);
  }

  /** A field up to its colon: the key is new or refused, and the value follows. */
  lemma FieldOpens(l: FieldList, depth: nat, before: seq<Field>, tail: string)
    requires FormedFields(l) && 1 <= depth <= MAX_DEPTH && GoodFields(before, MAX_DEPTH - depth)
    ensures ParseField(FieldsTextOnto(l, tail), depth, before) ==
            if HasKey(before, Unquoted(l.key)) then Err(DuplicateKey(Unquoted(l.key)))
            else match ParseValue(TextOnto(l.value, AfterFieldText(l, tail)), depth)
                 case Err(e) => Err(e)
                 case Ok(x) => Ok((Field(Unquoted(l.key), x.0), x.1))
  {
    var value := TextOnto(l.value, AfterFieldText(l, tail));
    var rest := QuotedOnto(l.key, l.middle + (":" + (l.gap + value)));
    SkipSpaces(l.before, "\"" + rest);
    NoSkip('"', rest);
    MarksRead(l.key, l.middle + (":" + (l.gap + value)));
    SkipSpaces(l.middle, ":" + (l.gap + value));
    NoSkip(':', l.gap + value);
    AfterSpaces(l.gap, value, depth);
  }

  lemma GoodFieldsFrom(before: seq<Field>, f: Field, rest: seq<Field>, k: nat)
    requires GoodFields(before, k)
    ensures GoodFields(before + [f], k) <==> !HasKey(before, f.key) && Good(f.value, k)
    ensures GoodFields(before + [f] + rest, k) ==> GoodFields(before + [f], k)
  {
    var now, all := before + [f], before + [f] + rest;
    assert now[|before|] == f;
    assert forall i :: 0 <= i < |before| ==> now[i] == before[i];
    assert forall i :: 0 <= i < |now| ==> all[i] == now[i];
    if HasKey(before, f.key) {
      var i :| 0 <= i < |before| && before[i].key == f.key;
      assert now[i].key == now[|before|].key;
    }
  }

  lemma {:induction false} FieldsRead(l: FieldList, depth: nat, before: seq<Field>, tail: string)
    requires FormedFields(l) && 1 <= depth <= MAX_DEPTH && GoodFields(before, MAX_DEPTH - depth)
    ensures Reads(ParseFields(FieldsTextOnto(l, tail), depth, before), Obj(before + FieldsMeaning(l)),
                  GoodFields(before + FieldsMeaning(l), MAX_DEPTH - depth), tail)
    decreases l, 3
  {
    var f := Field(Unquoted(l.key), Meaning(l.value));
    var rest := if l.rest.Some? then FieldsMeaning(l.rest.value) else [];
    GoodFieldsFrom(before, f, rest, MAX_DEPTH - depth);
    FieldsJoin(l, before, tail);
    FieldReads(l, depth, before, tail);
    if GoodFields(before + [f], MAX_DEPTH - depth) {
      FieldsGoOn(l, depth, before, f, tail);
      if l.rest.Some? { FieldsRead(l.rest.value, depth, before + [f], tail); }
    }
  }

  /** A field is read if its key is new and its value good. */
  lemma {:induction false} FieldReads(l: FieldList, depth: nat, before: seq<Field>, tail: string)
    requires FormedFields(l) && 1 <= depth <= MAX_DEPTH && GoodFields(before, MAX_DEPTH - depth)
    ensures var f := Field(Unquoted(l.key), Meaning(l.value));
            var r := ParseField(FieldsTextOnto(l, tail), depth, before);
            if !HasKey(before, f.key) && Good(f.value, MAX_DEPTH - depth) then r == Ok((f, AfterFieldText(l, tail))) else r.Err?
    decreases l, 2
  {
    AfterCloses(l.after, ',', if l.rest.Some? then FieldsTextOnto(l.rest.value, tail) else "");
    AfterCloses(l.after, '}', tail);
    FieldOpens(l, depth, before, tail);
    TreeReads(l.value, depth, AfterFieldText(l, tail));
  }

  /** Behind a field comes a comma and the next one, or the end of the object. */
  lemma FieldsGoOn(l: FieldList, depth: nat, before: seq<Field>, f: Field, tail: string)
    requires FormedFields(l) && 1 <= depth <= MAX_DEPTH && GoodFields(before, MAX_DEPTH - depth)
    requires GoodFields(before + [f], MAX_DEPTH - depth)
    requires ParseField(FieldsTextOnto(l, tail), depth, before) == Ok((f, AfterFieldText(l, tail)))
    ensures ParseFields(FieldsTextOnto(l, tail), depth, before) ==
            if l.rest.Some? then ParseFields(FieldsTextOnto(l.rest.value, tail), depth, before + [f]) else Ok((Obj(before + [f]), tail))
  {
    if l.rest.Some? {
      SkipSpaces(l.after, "," + FieldsTextOnto(l.rest.value, tail));
      NoSkip(',', FieldsTextOnto(l.rest.value, tail));
    } else {
      SkipSpaces(l.after, "}" + tail);
      NoSkip('}', tail);
    }
  }

  // ----- only trees are read -----

  lemma NumberTaken(s: string) returns (t: Tree)
    requires ParseInt(s).Ok?
    ensures Formed(t) && Meaning(t) == ParseInt(s).value.0 && s == TextOnto(t, ParseInt(s).value.1)
  {
    var (negative, digits, rest) := ScanInt(s).value;
    t := Number(negative, digits);
    assert s == SignText(negative) + (digits + rest);
  }

  /** What a value takes from the text is white space and a tree that means it. */
  lemma {:induction false} ValueTaken(src: string, depth: nat) returns (before: string, t: Tree)
    requires depth <= MAX_DEPTH && ParseValue(src, depth).Ok?
    ensures IsSpaces(before) && Formed(t) && Meaning(t) == ParseValue(src, depth).value.0
    ensures src == before + TextOnto(t, ParseValue(src, depth).value.1)
    decreases |src|, 2
  {
    before := SpaceTaken(src);
    var s := SkipWs(src);
    SkipTwice(src);
    if s[0] == '{' {
      t := ObjectTaken(s[1..], depth + 1);
      assert s == "{" + s[1..];
    } else if s[0] == '[' {
      t := ArrayTaken(s[1..], depth + 1);
      assert s == "[" + s[1..];
    } else {
      t := ScalarTaken(s, depth);
    }
  }

  lemma ScalarTaken(s: string, depth: nat) returns (t: Tree)
    requires depth <= MAX_DEPTH && s != "" && SkipWs(s) == s && s[0] != '{' && s[0] != '[' && ParseValue(s, depth).Ok?
    ensures Formed(t) && Meaning(t) == ParseValue(s, depth).value.0 && s == TextOnto(t, ParseValue(s, depth).value.1)
  {
    var (v, rest) := ParseValue(s, depth).value;
    if s[0] == '"' {
      var marks := StringTaken(s[1..]);
      t := Quoted(marks);
      assert s == "\"" + s[1..];
    } else if s[0] == '-' || IsDigit(s[0]) {
      t := NumberTaken(s);
    } else {
      t := Word(v);
      assert s == WordText(v) + rest;
    }
  }

  lemma {:induction false} ArrayTaken(src: string, depth: nat) returns (t: Tree)
    requires 1 <= depth <= MAX_DEPTH && ParseArray(src, depth).Ok?
    ensures Formed(t) && Meaning(t) == ParseArray(src, depth).value.0 && "[" + src == TextOnto(t, ParseArray(src, depth).value.1)
    decreases |src|, 4
  {
    var space := SpaceTaken(src);
    var s := SkipWs(src);
    if Starts(s, ']') {
      t := NoItems(space);
      assert s == "]" + s[1..];
    } else {
      var l := ItemsTaken(s, depth, []);
      t := Items(l.(before := space + l.before));
      assert [] + ItemsMeaning(l) == ItemsMeaning(l);
      ItemsMoved(l, space, ParseItems(s, depth, []).value.1);
    }
  }

  /** White space in front of a list belongs to its first item. */
  lemma ItemsMoved(l: ItemList, space: string, tail: string)
    requires FormedItems(l) && IsSpaces(space)
    ensures var m := l.(before := space + l.before);
            FormedItems(m) && ItemsMeaning(m) == ItemsMeaning(l) && ItemsTextOnto(m, tail) == space + ItemsTextOnto(l, tail)
  {
    var m := l.(before := space + l.before);
    assert AfterItemText(m, tail) == AfterItemText(l, tail);
    assert space + l.before + TextOnto(l.item, AfterItemText(l, tail)) == space + (l.before + TextOnto(l.item, AfterItemText(l, tail)));
  }

  lemma {:induction false} ItemsTaken(src: string, depth: nat, items: seq<Value>) returns (l: ItemList)
    requires 1 <= depth <= MAX_DEPTH && GoodItems(items, MAX_DEPTH - depth) && ParseItems(src, depth, items).Ok?
    ensures FormedItems(l) && ParseItems(src, depth, items).value.0 == Arr(items + ItemsMeaning(l))
    ensures src == ItemsTextOnto(l, ParseItems(src, depth, items).value.1)
    decreases |src|, 3
  {
    var (v, after) := ParseValue(src, depth).value;
    var before, item := ValueTaken(src, depth);
    var space := SpaceTaken(after);
    var rest := SkipWs(after);
    if rest[0] == ',' {
      var more := ItemsTaken(rest[1..], depth, items + [v]);
      l := ItemList(before, item, space, Some(more));
      ItemsJoin(l, items, ParseItems(src, depth, items).value.1);
      assert rest == "," + rest[1..];
    } else {
      l := ItemList(before, item, space, None);
      ItemsJoin(l, items, rest[1..]);
      assert rest == "]" + rest[1..];
    }
  }

  lemma ItemsJoin(l: ItemList, items: seq<Value>, tail: string)
    requires FormedItems(l)
    ensures items + ItemsMeaning(l) == items + [Meaning(l.item)] + (if l.rest.Some? then ItemsMeaning(l.rest.value) else [])
    ensures l.rest.None? ==> items + ItemsMeaning(l) == items + [Meaning(l.item)]
    ensures ItemsTextOnto(l, tail) ==
            l.before + TextOnto(l.item, l.after + (if l.rest.Some? then "," + ItemsTextOnto(l.rest.value, tail) else "]" + tail))
  {
  }

  lemma {:induction false} ObjectTaken(src: string, depth: nat) returns (t: Tree)
    requires 1 <= depth <= MAX_DEPTH && ParseObject(src, depth).Ok?
    ensures Formed(t) && Meaning(t) == ParseObject(src, depth).value.0 && "{" + src == TextOnto(t, ParseObject(src, depth).value.1)
    decreases |src|, 4
  {
    var space := SpaceTaken(src);
    var s := SkipWs(src);
    if Starts(s, '}') {
      t := NoFields(space);
      assert s == "}" + s[1..];
    } else {
      var l := FieldsTaken(s, depth, []);
      t := Fields(l.(before := space + l.before));
      assert [] + FieldsMeaning(l) == FieldsMeaning(l);
      FieldsMoved(l, space, ParseFields(s, depth, []).value.1);
    }
  }

  lemma FieldsMoved(l: FieldList, space: string, tail: string)
    requires FormedFields(l) && IsSpaces(space)
    ensures var m := l.(before := space + l.before);
            FormedFields(m) && FieldsMeaning(m) == FieldsMeaning(l) && FieldsTextOnto(m, tail) == space + FieldsTextOnto(l, tail)
  {
    var m := l.(before := space + l.before);
    assert AfterFieldText(m, tail) == AfterFieldText(l, tail);
    var rest := "\"" + QuotedOnto(l.key, l.middle + (":" + (l.gap + TextOnto(l.value, AfterFieldText(l, tail)))));
    assert space + l.before + rest == space + (l.before + rest);
  }

  /** One field, up to what follows its value. */
  lemma {:induction false} FieldTaken(src: string, depth: nat, fields: seq<Field>) returns (l: FieldList)
    requires 1 <= depth <= MAX_DEPTH && GoodFields(fields, MAX_DEPTH - depth) && ParseField(src, depth, fields).Ok?
    ensures IsSpaces(l.before) && GoodMarks(l.key) && IsSpaces(l.middle) && IsSpaces(l.gap) && Formed(l.value)
    ensures ParseField(src, depth, fields).value.0 == Field(Unquoted(l.key), Meaning(l.value))
    ensures src == FieldOnto(l, ParseField(src, depth, fields).value.1)
    decreases |src|, 0
  {
    var before := SpaceTaken(src);
    var s := SkipWs(src);
    var key := StringTaken(s[1..]);
    var u := ParseString(s[1..]).value.1;
    var middle := SpaceTaken(u);
    var t := SkipWs(u);
    var gap, value := ValueTaken(t[1..], depth);
    l := FieldList(before, key, middle, gap, value, "", None);
    KeyTaken(s, key, middle, t);
    assert src == before + s;
  }

  lemma KeyTaken(s: string, key: seq<Mark>, middle: string, t: string)
    requires Starts(s, '"') && Starts(t, ':') && s[1..] == QuotedOnto(key, middle + t)
    ensures s == "\"" + QuotedOnto(key, middle + (":" + t[1..]))
  {
    assert t == ":" + t[1..];
    assert s == "\"" + s[1..];
  }

  /** A field in front of what follows its value. */
  function FieldOnto(l: FieldList, tail: string): string
    requires Formed(l.value)
  {
    l.before + ("\"" + QuotedOnto(l.key, l.middle + (":" + (l.gap + TextOnto(l.value, tail)))))
  }

  lemma FieldsJoin(l: FieldList, fields: seq<Field>, tail: string)
    requires FormedFields(l)
    ensures var f := Field(Unquoted(l.key), Meaning(l.value));
            && fields + FieldsMeaning(l) == fields + [f] + (if l.rest.Some? then FieldsMeaning(l.rest.value) else [])
            && (l.rest.None? ==> fields + FieldsMeaning(l) == fields + [f])
    ensures FieldsTextOnto(l, tail) ==
            FieldOnto(l, l.after + (if l.rest.Some? then "," + FieldsTextOnto(l.rest.value, tail) else "}" + tail))
  {
  }

  lemma {:induction false} FieldsTaken(src: string, depth: nat, fields: seq<Field>) returns (l: FieldList)
    requires 1 <= depth <= MAX_DEPTH && GoodFields(fields, MAX_DEPTH - depth) && ParseFields(src, depth, fields).Ok?
    ensures FormedFields(l) && ParseFields(src, depth, fields).value.0 == Obj(fields + FieldsMeaning(l))
    ensures src == FieldsTextOnto(l, ParseFields(src, depth, fields).value.1)
    decreases |src|, 1
  {
    var (f, after) := ParseField(src, depth, fields).value;
    var one := FieldTaken(src, depth, fields);
    var space := SpaceTaken(after);
    var rest := SkipWs(after);
    if rest[0] == ',' {
      var more := FieldsTaken(rest[1..], depth, fields + [f]);
      l := one.(after := space, rest := Some(more));
      FieldsJoin(l, fields, ParseFields(src, depth, fields).value.1);
      assert rest == "," + rest[1..];
    } else {
      l := one.(after := space, rest := None);
      FieldsJoin(l, fields, rest[1..]);
      assert rest == "}" + rest[1..];
    }
  }

  // ----- documents -----

  /** The reader accepts a text as a value if and only if the text is white space,
      a tree that means the value, and white space; no object in it names a key
      twice; its numbers are `i64`s; it nests at most sixteen deep; and it fits the
      size bound. */
  lemma DocumentExact(s: string, v: Value)
    ensures ParseDocument(s) == Ok(v) <==>
            SpelledBy(s, v) && Clean(v) && Within(v, MAX_DEPTH) && Utf8Length(s) <= MAX_KB_JSON_BYTES
  {
    if ParseDocument(s).Ok? { DocumentTaken(s); }
    if Utf8Length(s) <= MAX_KB_JSON_BYTES {
      forall before, t, after | IsDocument(s, v, before, t, after)
        ensures if Good(v, MAX_DEPTH) then ParseDocument(s) == Ok(v) else ParseDocument(s).Err?
      {
        DocumentReads(s, v, before, t, after);
      }
    }
  }

  lemma DocumentTaken(s: string)
    requires ParseDocument(s).Ok?
    ensures SpelledBy(s, ParseDocument(s).value) && Utf8Length(s) <= MAX_KB_JSON_BYTES
  {
    var lead := SpaceTaken(s);
    var more, t := ValueTaken(SkipWs(s), 0);
    var rest := ParseValue(SkipWs(s), 0).value.1;
    var after := SpaceTaken(rest);
    assert rest == after + SkipWs(rest) == after;
    assert s == lead + (more + TextOnto(t, after)) == (lead + more) + TextOnto(t, after);
    assert IsDocument(s, ParseDocument(s).value, lead + more, t, after);
  }

  /** A spelled value the reader cannot return is refused; it is never taken for
      another one. */
  lemma DocumentReads(s: string, v: Value, before: string, t: Tree, after: string)
    requires IsDocument(s, v, before, t, after) && Utf8Length(s) <= MAX_KB_JSON_BYTES
    ensures if Good(v, MAX_DEPTH) then ParseDocument(s) == Ok(v) else ParseDocument(s).Err?
  {
    SkipSpaces(before, TextOnto(t, after));
    TreeStarts(t, after);
    TreeReads(t, 0, after);
    SkipSpaces(after, "");
    assert after + "" == after;
  }
}
