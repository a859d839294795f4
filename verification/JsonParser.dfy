/** The parser as it runs: a position and a depth moved over the text, strings and
    vectors grown in loops. */
module JsonParser {
  import opened Options
  import opened CanonBytes
  import opened DecimalDigits
  import opened DecimalText
  import opened StrictJson
  import opened JsonGrammar
  import opened Utf8

  /** A result that leaves the reader where the specification says. */
  ghost predicate Agrees<T>(r: Result<T, JsonError>, rest: string, spec: Result<(T, string), JsonError>) {
    match spec
    case Err(e) => r == Err(e)
    case Ok(x) => r == Ok(x.0) && rest == x.1
  }

  /** What was read so far, in front of what the rest gives. */
  function Joined(s: string, r: Result<(string, string), JsonError>): Result<(string, string), JsonError> {
    match r case Err(e) => Err(e) case Ok(x) => Ok((s + x.0, x.1))
  }

  lemma JoinedBefore(s: string, c: char, r: Result<(string, string), JsonError>)
    ensures Joined(s, Before(c, r)) == Joined(s + [c], r) && Joined("", r) == r
  {
    if r.Ok? { assert s + ([c] + r.value.0) == s + [c] + r.value.0 && "" + r.value.0 == r.value.0; }
  }

  predicate Hexes(s: string) {
    forall i :: 0 <= i < |s| ==> HexDigit(s[i]).Some?
  }

  /** The number hex digits spell. */
  function HexValue(s: string): int
    requires Hexes(s)
  {
    if s == "" then 0 else HexValue(s[..|s| - 1]) * 16 + HexDigit(s[|s| - 1]).value
  }

  lemma FourHexes(s: string, rest: string)
    requires |s| == 4 && Hexes(s) && s <= rest
    ensures Hex4(rest) == Ok((HexValue(s), rest[4..]))
  {
    assert s[..3][..2] == s[..2] && s[..2][..1] == s[..1] && s[..1][..0] == "";
    assert HexValue(s[..1]) == HexDigit(s[0]).value;
    assert HexValue(s[..2]) == HexValue(s[..1]) * 16 + HexDigit(s[1]).value;
    assert HexValue(s[..3]) == HexValue(s[..2]) * 16 + HexDigit(s[2]).value;
    assert forall i :: 0 <= i < 4 ==> rest[i] == s[i];
  }

  class Parser {
    const text: string
    var pos: nat
    var depth: nat

    constructor (source: string)
      ensures text == source && pos == 0 && depth == 0
    {
      text, pos, depth := source, 0, 0;
    }

    ghost predicate Valid()
      reads this
    {
      pos <= |text| && depth <= MAX_DEPTH
    }

    ghost function Rest(): string
      reads this
    {
      if pos <= |text| then text[pos..] else ""
    }

    predicate At(c: char)
      reads this
    {
      pos < |text| && text[pos] == c
    }

    method Advance()
      requires Valid() && pos < |text|
      modifies `pos
      ensures Valid() && pos == old(pos) + 1 && Rest() == old(Rest())[1..]
    {
      pos := pos + 1;
    }

    method SkipSpace()
      requires Valid()
      modifies `pos
      ensures Valid() && pos >= old(pos) && Rest() == SkipWs(old(Rest()))
    {
      while pos < |text| && IsSpace(text[pos])
        invariant Valid() && pos >= old(pos) && SkipWs(Rest()) == SkipWs(old(Rest()))
      {
        Advance();
      }
    }

    method ReadHex4() returns (r: Result<int, JsonError>)
      requires Valid()
      modifies `pos
      ensures Valid() && pos >= old(pos) && Agrees(r, Rest(), Hex4(old(Rest())))
    {
      if |text| - pos < 4 { return Err(JsonError.UnexpectedEof); }
      var code := 0;
      var i := 0;
      while i < 4
        invariant 0 <= i <= 4 && pos == old(pos) && Hexes(text[pos..pos + i]) && code == HexValue(text[pos..pos + i])
      {
        assert text[pos..pos + i + 1] == text[pos..pos + i] + [text[pos + i]];
        assert Rest()[i] == text[pos + i];
        var d := HexDigit(text[pos + i]);
        if d.None? { return Err(Syntax); }
        code := code * 16 + d.value;
        i := i + 1;
      }
      FourHexes(text[pos..pos + 4], Rest());
      pos := pos + 4;
      r := Ok(code);
    }

    method ReadUnicode() returns (r: Result<char, JsonError>)
      requires Valid()
      modifies `pos
      ensures Valid() && pos >= old(pos) && Agrees(r, Rest(), UnicodeEscape(old(Rest())))
    {
      var unit := ReadHex4();
      if unit.Err? { return Err(unit.error); }
      if 0xD800 <= unit.value < 0xDC00 {
        if |text| - pos < 2 || text[pos] != '\\' || text[pos + 1] != 'u' { return Err(Syntax); }
        pos := pos + 2;
        var low := ReadHex4();
        if low.Err? { return Err(low.error); }
        if !(0xDC00 <= low.value < 0xE000) { return Err(Syntax); }
        return Ok((0x10000 + (unit.value - 0xD800) * 1024 + (low.value - 0xDC00)) as char);
      }
      if 0xDC00 <= unit.value < 0xE000 { return Err(Syntax); }
      r := Ok(unit.value as char);
    }

    method ReadEscape() returns (r: Result<char, JsonError>)
      requires Valid()
      modifies `pos
      ensures Valid() && pos >= old(pos) && Agrees(r, Rest(), Escape(old(Rest())))
    {
      if pos == |text| { return Err(JsonError.UnexpectedEof); }
      var esc := text[pos];
      Advance();
      match esc
      case '"' => r := Ok('"');
      case '\\' => r := Ok('\\');
      case '/' => r := Ok('/');
      case 'n' => r := Ok('\n');
      case 't' => r := Ok('\t');
      case 'r' => r := Ok('\r');
      case 'b' => r := Ok(8 as char);
      case 'f' => r := Ok(12 as char);
      case 'u' => r := ReadUnicode();
      case _ => r := Err(Syntax);
    }

    /** The characters up to the closing quote, grown one at a time. */
    method ReadString() returns (r: Result<string, JsonError>)
      requires Valid() && At('"')
      modifies `pos
      ensures Valid() && pos > old(pos) && Agrees(r, Rest(), ParseString(old(Rest())[1..]))
    {
      Advance();
      ghost var goal := ParseString(Rest());
      var s := "";
      JoinedBefore("", 'x', goal);
      while true
        invariant Valid() && pos > old(pos) && Joined(s, ParseString(Rest())) == goal
        decreases |text| - pos
      {
        if pos == |text| { return Err(JsonError.UnexpectedEof); }
        var c := text[pos];
        assert Rest()[0] == c;
        if c == '"' {
          Advance();
          assert s + "" == s;
          return Ok(s);
        }
        if c == '\\' {
          Advance();
          ghost var before := pos;
          var e := ReadEscape();
          if e.Err? { return Err(e.error); }
          c := e.value;
        } else {
          if c as int < 0x20 { return Err(Syntax); }
          Advance();
        }
        JoinedBefore(s, c, ParseString(Rest()));
        s := s + [c];
      }
    }

    method ReadDigits() returns (digits: string)
      requires Valid()
      modifies `pos
      ensures Valid() && pos >= old(pos)
      ensures var k := DigitsPrefix(old(Rest())); digits == old(Rest())[..k] && Rest() == old(Rest())[k..]
    {
      ghost var t := Rest();
      var from := pos;
      while pos < |text| && IsDigit(text[pos])
        invariant Valid() && from <= pos && forall i :: from <= i < pos ==> IsDigit(text[i])
      {
        pos := pos + 1;
      }
      assert t[..pos - from] == text[from..pos] && t[pos - from..] == text[pos..];
      DigitsPrefixIs(t, pos - from);
      digits := text[from..pos];
    }

    method ScanSigned() returns (r: Result<(bool, string), JsonError>)
      requires Valid()
      modifies `pos
      ensures Valid() && pos >= old(pos)
      ensures match ScanInt(old(Rest()))
              case Err(e) => r == Err(e)
              case Ok(x) => r == Ok((x.0, x.1)) && Rest() == x.2
    {
      var negative := At('-');
      if negative { Advance(); }
      var digits := ReadDigits();
      if digits == "" { return Err(Syntax); }
      if At('.') || At('e') || At('E') { return Err(Syntax); }
      r := Ok((negative, digits));
    }

    method ReadInt() returns (r: Result<Value, JsonError>)
      requires Valid()
      modifies `pos
      ensures Valid() && pos >= old(pos) && Agrees(r, Rest(), ParseInt(old(Rest())))
    {
      var scanned := ScanSigned();
      if scanned.Err? { return Err(scanned.error); }
      var n := IntValue(scanned.value.0, scanned.value.1);
      if n.Err? { return Err(n.error); }
      r := Ok(Int(n.value));
    }

    method ExpectLiteral(word: string, v: Value) returns (r: Result<Value, JsonError>)
      requires Valid()
      modifies `pos
      ensures Valid() && pos >= old(pos) && Agrees(r, Rest(), Literal(old(Rest()), word, v))
    {
      if |text| - pos >= |word| && text[pos..pos + |word|] == word {
        pos := pos + |word|;
        return Ok(v);
      }
      r := Err(Syntax);
    }

    method ReadValue() returns (r: Result<Value, JsonError>)
      requires Valid()
      modifies this
      ensures Valid() && pos >= old(pos)
      ensures Agrees(r, Rest(), ParseValue(old(Rest()), old(depth))) && (r.Ok? ==> depth == old(depth))
      decreases |text| - pos, 2
    {
      SkipSpace();
      if pos == |text| { return Err(JsonError.UnexpectedEof); }
      if At('{') {
        r := ReadObject();
      } else if At('[') {
        r := ReadArray();
      } else if At('"') {
        var s := ReadString();
        r := if s.Err? then Err(s.error) else Ok(Str(s.value));
      } else if At('t') {
        r := ExpectLiteral("true", Bool(true));
      } else if At('f') {
        r := ExpectLiteral("false", Bool(false));
      } else if At('n') {
        r := ExpectLiteral("null", Null);
      } else if At('-') || IsDigit(text[pos]) {
        r := ReadInt();
      } else {
        r := Err(Syntax);
      }
    }

    /** After a field or an item: a comma, or the closing bracket. */
    method ReadSeparator(close: char) returns (r: Result<bool, JsonError>)
      requires Valid() && close != ','
      modifies `pos
      ensures Valid() && pos >= old(pos) && (r.Ok? ==> pos > old(pos))
      ensures var s := SkipWs(old(Rest()));
              if s == "" then r == Err(JsonError.UnexpectedEof)
              else if s[0] == ',' then r == Ok(true) && Rest() == s[1..]
              else if s[0] == close then r == Ok(false) && Rest() == s[1..]
              else r == Err(Syntax)
    {
      SkipSpace();
      if pos == |text| { return Err(JsonError.UnexpectedEof); }
      if At(',') {
        Advance();
        return Ok(true);
      }
      if At(close) {
        Advance();
        return Ok(false);
      }
      r := Err(Syntax);
    }

    method ReadObject() returns (r: Result<Value, JsonError>)
      requires Valid() && At('{')
      modifies this
      ensures Valid() && pos >= old(pos) && (r.Ok? ==> depth == old(depth))
      ensures Agrees(r, Rest(), if old(depth) >= MAX_DEPTH then Err(DepthExceeded)
                                else ParseObject(old(Rest())[1..], old(depth) + 1))
      decreases |text| - pos, 1
    {
      if depth >= MAX_DEPTH { return Err(DepthExceeded); }
      depth := depth + 1;
      Advance();
      SkipSpace();
      if At('}') {
        Advance();
        depth := depth - 1;
        return Ok(Obj([]));
      }
      r := ReadFields();
      if r.Ok? { depth := depth - 1; }
    }

    /** Fields one by one, each key compared with those before it. */
    method ReadFields() returns (r: Result<Value, JsonError>)
      requires Valid() && depth >= 1
      modifies this
      ensures Valid() && pos >= old(pos) && (r.Ok? ==> depth == old(depth))
      ensures Agrees(r, Rest(), ParseFields(old(Rest()), old(depth), []))
      decreases |text| - pos, 4
    {
      var fields: seq<Field> := [];
      ghost var goal := ParseFields(Rest(), depth, []);
      while true
        invariant Valid() && pos >= old(pos) && depth == old(depth) && GoodFields(fields, MAX_DEPTH - depth)
        invariant ParseFields(Rest(), depth, fields) == goal
        decreases |text| - pos
      {
        var f := ReadField(fields);
        if f.Err? { return Err(f.error); }
        fields := fields + [f.value];
        var more := ReadSeparator('}');
        if more.Err? { return Err(more.error); }
        if !more.value { return Ok(Obj(fields)); }
      }
    }

    method ReadField(fields: seq<Field>) returns (r: Result<Field, JsonError>)
      requires Valid() && depth >= 1 && GoodFields(fields, MAX_DEPTH - depth)
      modifies this
      ensures Valid() && pos >= old(pos) && (r.Ok? ==> depth == old(depth) && pos > old(pos))
      ensures Agrees(r, Rest(), ParseField(old(Rest()), old(depth), fields))
      decreases |text| - pos, 3
    {
      SkipSpace();
      if !At('"') { return Err(Syntax); }
      var key := ReadString();
      if key.Err? { return Err(key.error); }
      var seen := Seen(fields, key.value);
      if seen { return Err(DuplicateKey(key.value)); }
      SkipSpace();
      if !At(':') { return Err(Syntax); }
      Advance();
      var v := ReadValue();
      if v.Err? { return Err(v.error); }
      r := Ok(Field(key.value, v.value));
    }

    static method Seen(fields: seq<Field>, key: string) returns (seen: bool)
      ensures seen == HasKey(fields, key)
    {
      for i := 0 to |fields|
        invariant forall j :: 0 <= j < i ==> fields[j].key != key
      {
        if fields[i].key == key { return true; }
      }
      seen := false;
    }

    method ReadArray() returns (r: Result<Value, JsonError>)
      requires Valid() && At('[')
      modifies this
      ensures Valid() && pos >= old(pos) && (r.Ok? ==> depth == old(depth))
      ensures Agrees(r, Rest(), if old(depth) >= MAX_DEPTH then Err(DepthExceeded)
                                else ParseArray(old(Rest())[1..], old(depth) + 1))
      decreases |text| - pos, 1
    {
      if depth >= MAX_DEPTH { return Err(DepthExceeded); }
      depth := depth + 1;
      Advance();
      SkipSpace();
      if At(']') {
        Advance();
        depth := depth - 1;
        return Ok(Arr([]));
      }
      r := ReadItems();
      if r.Ok? { depth := depth - 1; }
    }

    method ReadItems() returns (r: Result<Value, JsonError>)
      requires Valid() && depth >= 1
      modifies this
      ensures Valid() && pos >= old(pos) && (r.Ok? ==> depth == old(depth))
      ensures Agrees(r, Rest(), ParseItems(old(Rest()), old(depth), []))
      decreases |text| - pos, 3
    {
      var items: seq<Value> := [];
      ghost var goal := ParseItems(Rest(), depth, []);
      while true
        invariant Valid() && pos >= old(pos) && depth == old(depth) && GoodItems(items, MAX_DEPTH - depth)
        invariant ParseItems(Rest(), depth, items) == goal
        decreases |text| - pos
      {
        var v := ReadValue();
        if v.Err? { return Err(v.error); }
        items := items + [v.value];
        var more := ReadSeparator(']');
        if more.Err? { return Err(more.error); }
        if !more.value { return Ok(Arr(items)); }
      }
    }
  }

  method ReadDocument(text: string) returns (r: Result<Value, JsonError>)
    ensures r == ParseDocument(text)
    ensures forall v :: r == Ok(v) <==> SpelledBy(text, v) && Clean(v) && Within(v, MAX_DEPTH) && Utf8Length(text) <= MAX_KB_JSON_BYTES
  {
    forall v
      ensures ParseDocument(text) == Ok(v) <==>
              SpelledBy(text, v) && Clean(v) && Within(v, MAX_DEPTH) && Utf8Length(text) <= MAX_KB_JSON_BYTES
    {
      DocumentExact(text, v);
    }
    if Utf8Length(text) > MAX_KB_JSON_BYTES { return Err(TooLarge); }
    var p := new Parser(text);
    assert p.Rest() == text;
    p.SkipSpace();
    var v := p.ReadValue();
    if v.Err? { return Err(v.error); }
    p.SkipSpace();
    if p.pos != |p.text| { return Err(TrailingBytes); }
    r := Ok(v.value);
  }
}
