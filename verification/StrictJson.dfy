/** The strict JSON reader: what it accepts, and that it reads back all that a
    printer writes. */
module StrictJson {
  import opened Options
  import opened CanonBytes
  import opened DecimalDigits
  import opened DecimalText
  import opened Utf8

  const MAX_DEPTH: nat := 16

  type i64 = x: int | -I64_BOUND <= x < I64_BOUND

  /** A printer may write any number; the reader takes those that are an `i64`. */
  datatype Value = Null | Bool(b: bool) | Int(n: int) | Str(s: string) | Arr(items: seq<Value>) | Obj(fields: seq<Field>)

  datatype Field = Field(key: string, value: Value)

  datatype JsonError = TooLarge | UnexpectedEof | Syntax | DepthExceeded | DuplicateKey(key: string) | TrailingBytes

  // ----- what a value must be -----

  /** No object at any level names a key twice, and every number is an `i64`. */
  predicate Clean(v: Value) {
    match v
    case Int(n) => -I64_BOUND <= n < I64_BOUND
    case Arr(items) => forall i :: 0 <= i < |items| ==> Clean(items[i])
    case Obj(fields) => DistinctKeys(fields) && forall i :: 0 <= i < |fields| ==> Clean(fields[i].value)
    case _ => true
  }

  predicate DistinctKeys(fields: seq<Field>) {
    forall i, j :: 0 <= i < j < |fields| ==> fields[i].key != fields[j].key
  }

  predicate HasKey(fields: seq<Field>, key: string) {
    exists i :: 0 <= i < |fields| && fields[i].key == key
  }

  /** Objects and arrays nest at most `k` deep. */
  predicate Within(v: Value, k: nat) {
    match v
    case Arr(items) => k > 0 && forall i :: 0 <= i < |items| ==> Within(items[i], k - 1)
    case Obj(fields) => k > 0 && forall i :: 0 <= i < |fields| ==> Within(fields[i].value, k - 1)
    case _ => true
  }

  // ----- scanning -----

  predicate IsSpace(c: char) {
    c == ' ' || c == '\t' || c == '\r' || c == '\n'
  }

  function SkipWs(s: string): (r: string)
    ensures |r| <= |s| && (r != "" ==> !IsSpace(r[0]))
  {
    if s != "" && IsSpace(s[0]) then SkipWs(s[1..]) else s
  }

  predicate Starts(s: string, c: char) {
    s != "" && s[0] == c
  }

  function HexDigit(c: char): (r: Option<int>)
    ensures r.Some? ==> 0 <= r.value < 16
  {
    if '0' <= c <= '9' then Some((c as int) - ('0' as int))
    else if 'a' <= c <= 'f' then Some((c as int) - ('a' as int) + 10)
    else if 'A' <= c <= 'F' then Some((c as int) - ('A' as int) + 10)
    else None
  }

  /** Four hex digits. */
  function Hex4(s: string): (r: Result<(int, string), JsonError>)
    ensures r.Ok? ==> |r.value.1| < |s| && 0 <= r.value.0 < 0x10000
  {
    if |s| < 4 then Err(JsonError.UnexpectedEof)
    else
      var a, b, c, d := HexDigit(s[0]), HexDigit(s[1]), HexDigit(s[2]), HexDigit(s[3]);
      if a.None? || b.None? || c.None? || d.None? then Err(Syntax)
      else Ok((((a.value * 16 + b.value) * 16 + c.value) * 16 + d.value, s[4..]))
  }

  /** The scalar a `\u` escape denotes: one code unit, or a surrogate pair. */
  function UnicodeEscape(s: string): (r: Result<(char, string), JsonError>)
    ensures r.Ok? ==> |r.value.1| < |s|
  {
    match Hex4(s)
    case Err(e) => Err(e)
    case Ok(unit) =>
      if 0xD800 <= unit.0 < 0xDC00 then
        if |unit.1| < 2 || unit.1[0] != '\\' || unit.1[1] != 'u' then Err(Syntax)
        else
          match Hex4(unit.1[2..])
          case Err(e) => Err(e)
          case Ok(low) =>
            if !(0xDC00 <= low.0 < 0xE000) then Err(Syntax)
            else Ok(((0x10000 + (unit.0 - 0xD800) * 1024 + (low.0 - 0xDC00)) as char, low.1))
      else if 0xDC00 <= unit.0 < 0xE000 then Err(Syntax)
      else Ok((unit.0 as char, unit.1))
  }

  /** What follows a backslash. */
  function Escape(s: string): (r: Result<(char, string), JsonError>)
    ensures r.Ok? ==> |r.value.1| < |s|
  {
    if s == "" then Err(JsonError.UnexpectedEof)
    else if s[0] == '"' || s[0] == '\\' || s[0] == '/' then Ok((s[0], s[1..]))
    else if s[0] == 'n' then Ok(('\n', s[1..]))
    else if s[0] == 't' then Ok(('\t', s[1..]))
    else if s[0] == 'r' then Ok(('\r', s[1..]))
    else if s[0] == 'b' then Ok((8 as char, s[1..]))
    else if s[0] == 'f' then Ok((12 as char, s[1..]))
    else if s[0] == 'u' then UnicodeEscape(s[1..])
    else Err(Syntax)
  }

  /** A string's characters up to its closing quote. */
  function ParseString(s: string): (r: Result<(string, string), JsonError>)
    ensures r.Ok? ==> |r.value.1| < |s|
    decreases |s|
  {
    if s == "" then Err(JsonError.UnexpectedEof)
    else if s[0] == '"' then Ok(("", s[1..]))
    else if s[0] == '\\' then
      match Escape(s[1..])
      case Err(e) => Err(e)
      case Ok(x) => Before(x.0, ParseString(x.1))
    else if s[0] as int < 0x20 then Err(Syntax)
    else Before(s[0], ParseString(s[1..]))
  }

  function Before(c: char, r: Result<(string, string), JsonError>): Result<(string, string), JsonError> {
    match r case Err(e) => Err(e) case Ok(x) => Ok(([c] + x.0, x.1))
  }

  function DigitsPrefix(s: string): (k: nat)
    ensures k <= |s| && IsDigits(s[..k]) && (k < |s| ==> !IsDigit(s[k]))
  {
    if s != "" && IsDigit(s[0]) then
      var k := DigitsPrefix(s[1..]);
      assert s[..k + 1] == [s[0]] + s[1..][..k];
      1 + k
    else 0
  }

  /** The digits end where the first other character stands. */
  lemma {:induction false} DigitsPrefixIs(s: string, k: nat)
    requires k <= |s| && IsDigits(s[..k]) && (k < |s| ==> !IsDigit(s[k]))
    ensures DigitsPrefix(s) == k
  {
    if k > 0 {
      assert s[..k][0] == s[0];
      assert s[1..][..k - 1] == s[..k][1..];
      DigitsPrefixIs(s[1..], k - 1);
    }
  }

  function SignedSpelled(negative: bool, digits: string): int
    requires IsDigits(digits)
  {
    if negative then 0 - Spelled(Values(digits)) else Spelled(Values(digits))
  }

  /** A sign and at least one digit, with no fraction or exponent behind. */
  function ScanInt(s: string): (r: Result<(bool, string, string), JsonError>)
    ensures r.Ok? ==> |r.value.2| < |s| && IsDigits(r.value.1)
  {
    var negative := Starts(s, '-');
    var t := if negative then s[1..] else s;
    var k := DigitsPrefix(t);
    if k == 0 then Err(Syntax)
    else if Starts(t[k..], '.') || Starts(t[k..], 'e') || Starts(t[k..], 'E') then Err(Syntax)
    else Ok((negative, t[..k], t[k..]))
  }

  function IntValue(negative: bool, digits: string): Result<i64, JsonError>
    requires IsDigits(digits)
  {
    var n := SignedSpelled(negative, digits);
    if -I64_BOUND <= n < I64_BOUND then Ok(n) else Err(Syntax)
  }

  function ParseInt(s: string): (r: Result<(Value, string), JsonError>)
    ensures r.Ok? ==> |r.value.1| < |s| && r.value.0.Int? && Clean(r.value.0)
  {
    match ScanInt(s)
    case Err(e) => Err(e)
    case Ok(x) =>
      match IntValue(x.0, x.1)
      case Err(e) => Err(e)
      case Ok(n) => Ok((Int(n), x.2))
  }

  function Literal(s: string, text: string, v: Value): Result<(Value, string), JsonError> {
    if text <= s then Ok((v, s[|text|..])) else Err(Syntax)
  }

  // ----- parsing -----

  /** Whatever the reader accepts has no duplicate key at any level and nests
      within the depth left. */
  function ParseValue(src: string, depth: nat): (r: Result<(Value, string), JsonError>)
    requires depth <= MAX_DEPTH
    ensures r.Ok? ==> |r.value.1| < |src| && Clean(r.value.0) && Within(r.value.0, MAX_DEPTH - depth)
    decreases |src|, 2
  {
    var s := SkipWs(src);
    if s == "" then Err(JsonError.UnexpectedEof)
    else if s[0] == '{' then if depth >= MAX_DEPTH then Err(DepthExceeded) else ParseObject(s[1..], depth + 1)
    else if s[0] == '[' then if depth >= MAX_DEPTH then Err(DepthExceeded) else ParseArray(s[1..], depth + 1)
    else if s[0] == '"' then
      match ParseString(s[1..]) case Err(e) => Err(e) case Ok(x) => Ok((Str(x.0), x.1))
    else if s[0] == 't' then Literal(s, "true", Bool(true))
    else if s[0] == 'f' then Literal(s, "false", Bool(false))
    else if s[0] == 'n' then Literal(s, "null", Null)
    else if s[0] == '-' || IsDigit(s[0]) then ParseInt(s)
    else Err(Syntax)
  }

  function ParseObject(src: string, depth: nat): (r: Result<(Value, string), JsonError>)
    requires 1 <= depth <= MAX_DEPTH
    ensures r.Ok? ==> |r.value.1| < |src| && Clean(r.value.0) && Within(r.value.0, MAX_DEPTH - depth + 1)
    decreases |src|, 2
  {
    var s := SkipWs(src);
    if Starts(s, '}') then Ok((Obj([]), s[1..])) else ParseFields(s, depth, [])
  }

  predicate GoodFields(fields: seq<Field>, k: nat) {
    DistinctKeys(fields) && forall i :: 0 <= i < |fields| ==> Clean(fields[i].value) && Within(fields[i].value, k)
  }

  function ParseFields(src: string, depth: nat, fields: seq<Field>): (r: Result<(Value, string), JsonError>)
    requires 1 <= depth <= MAX_DEPTH && GoodFields(fields, MAX_DEPTH - depth)
    ensures r.Ok? ==> |r.value.1| < |src| && Clean(r.value.0) && Within(r.value.0, MAX_DEPTH - depth + 1)
    decreases |src|, 1
  {
    match ParseField(src, depth, fields)
    case Err(e) => Err(e)
    case Ok(x) =>
      var rest := SkipWs(x.1);
      if rest == "" then Err(JsonError.UnexpectedEof)
      else if rest[0] == ',' then ParseFields(rest[1..], depth, fields + [x.0])
      else if rest[0] == '}' then Ok((Obj(fields + [x.0]), rest[1..]))
      else Err(Syntax)
  }

  /** A new key, a colon, a value. */
  function ParseField(src: string, depth: nat, fields: seq<Field>): (r: Result<(Field, string), JsonError>)
    requires 1 <= depth <= MAX_DEPTH && GoodFields(fields, MAX_DEPTH - depth)
    ensures r.Ok? ==> |r.value.1| < |src| && GoodFields(fields + [r.value.0], MAX_DEPTH - depth)
    decreases |src|, 0
  {
    var s := SkipWs(src);
    if !Starts(s, '"') then Err(Syntax)
    else
      match ParseString(s[1..])
      case Err(e) => Err(e)
      case Ok(key) =>
        if HasKey(fields, key.0) then Err(DuplicateKey(key.0))
        else
          var t := SkipWs(key.1);
          if !Starts(t, ':') then Err(Syntax)
          else
            match ParseValue(t[1..], depth)
            case Err(e) => Err(e)
            case Ok(v) => Ok((Field(key.0, v.0), v.1))
  }

  function ParseArray(src: string, depth: nat): (r: Result<(Value, string), JsonError>)
    requires 1 <= depth <= MAX_DEPTH
    ensures r.Ok? ==> |r.value.1| < |src| && Clean(r.value.0) && Within(r.value.0, MAX_DEPTH - depth + 1)
    decreases |src|, 4
  {
    var s := SkipWs(src);
    if Starts(s, ']') then Ok((Arr([]), s[1..])) else ParseItems(s, depth, [])
  }

  predicate GoodItems(items: seq<Value>, k: nat) {
    forall i :: 0 <= i < |items| ==> Clean(items[i]) && Within(items[i], k)
  }

  function ParseItems(src: string, depth: nat, items: seq<Value>): (r: Result<(Value, string), JsonError>)
    requires 1 <= depth <= MAX_DEPTH && GoodItems(items, MAX_DEPTH - depth)
    ensures r.Ok? ==> |r.value.1| < |src| && Clean(r.value.0) && Within(r.value.0, MAX_DEPTH - depth + 1)
    decreases |src|, 3
  {
    match ParseValue(src, depth)
    case Err(e) => Err(e)
    case Ok(x) =>
      var rest := SkipWs(x.1);
      if rest == "" then Err(JsonError.UnexpectedEof)
      else if rest[0] == ',' then ParseItems(rest[1..], depth, items + [x.0])
      else if rest[0] == ']' then Ok((Arr(items + [x.0]), rest[1..]))
      else Err(Syntax)
  }

  function ParseDocument(s: string): (r: Result<Value, JsonError>)
    ensures r.Ok? ==> Clean(r.value) && Within(r.value, MAX_DEPTH)
  {
    if Utf8Length(s) > MAX_KB_JSON_BYTES then Err(TooLarge)
    else
      match ParseValue(SkipWs(s), 0)
      case Err(e) => Err(e)
      case Ok(x) => if SkipWs(x.1) != "" then Err(TrailingBytes) else Ok(x.0)
  }
}
