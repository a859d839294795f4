/** Decimal text: an optional sign, digits, and an optional point and digits. */
module DecimalText {
  import opened CanonBytes
  import opened IntCodec
  import opened DecimalDigits
  import opened Decimal
  import opened DecimalMath

  predicate IsDigit(c: char) { '0' <= c <= '9' }

  predicate IsDigits(s: string) {
    forall i :: 0 <= i < |s| ==> IsDigit(s[i])
  }

  function ValueOf(c: char): digit
    requires IsDigit(c)
  {
    (c as int) - ('0' as int)
  }

  function CharOf(d: digit): (c: char)
    ensures IsDigit(c) && ValueOf(c) == d
  {
    '0' + d as char
  }

  function Values(s: string): (r: seq<digit>)
    requires IsDigits(s)
    ensures |r| == |s| && forall i :: 0 <= i < |s| ==> r[i] == ValueOf(s[i])
  {
    seq(|s|, i requires 0 <= i < |s| => ValueOf(s[i]))
  }

  function Chars(ds: seq<digit>): (r: string)
    ensures |r| == |ds| && IsDigits(r) && Values(r) == ds
  {
    seq(|ds|, i requires 0 <= i < |ds| => CharOf(ds[i]))
  }

  function FirstPoint(s: string): (k: nat)
    ensures k <= |s| && (k < |s| ==> s[k] == '.')
    ensures forall i :: 0 <= i < k ==> s[i] != '.'
  {
    if s == "" || s[0] == '.' then 0 else 1 + FirstPoint(s[1..])
  }

  function TrimEnd(s: string): (r: string)
    ensures r <= s && (r != "" ==> r[|r| - 1] != '0')
    ensures forall i :: |r| <= i < |s| ==> s[i] == '0'
  {
    if s != "" && s[|s| - 1] == '0' then TrimEnd(s[..|s| - 1]) else s
  }

  /** The part of a text behind the whole digits. */
  function Behind(fraction: string): string {
    if fraction == "" then "" else "." + fraction
  }

  /** Whole and fractional digits, split at the first point. */
  function SplitUnsigned(s: string): (r: Result<(string, string), NumericError>)
    ensures r.Ok? ==> IsDigits(r.value.0) && IsDigits(r.value.1)
  {
    var k := FirstPoint(s);
    var whole, fraction := s[..k], if k < |s| then s[k + 1..] else "";
    if whole == "" || !IsDigits(whole) || !IsDigits(fraction) || (k < |s| && fraction == "") then Err(InvalidNumber)
    else Ok((whole, fraction))
  }

  predicate HasSign(text: string) {
    text != "" && (text[0] == '-' || text[0] == '+')
  }

  function Unsigned(text: string): string {
    if HasSign(text) then text[1..] else text
  }

  function Parse(text: string): Result<Decimal, NumericError> {
    match SplitUnsigned(Unsigned(text))
    case Err(e) => Err(e)
    case Ok(parts) => ParseParts(parts.0, parts.1, text != "" && text[0] == '-')
  }

  function ParseParts(whole: string, fraction: string, negative: bool): Result<Decimal, NumericError>
    requires IsDigits(whole) && IsDigits(fraction)
  {
    var kept := TrimEnd(fraction);
    if |kept| > MAX_DECIMAL_SCALE then Err(ScaleOutOfRange)
    else Scaled(Spelled(Values(whole + kept)), negative, |kept|)
  }

  function Scaled(magnitude: nat, negative: bool, scale: nat): Result<Decimal, NumericError>
    requires scale <= MAX_DECIMAL_SCALE
  {
    if magnitude >= U128_BOUND then Err(Overflow)
    else
      match SignedOf(magnitude, negative)
      case Err(e) => Err(e)
      case Ok(k) => Ok(New(k, scale))
  }

  function Bare(m: nat): (r: string)
    ensures r != ""
  {
    if m == 0 then "0" else Chars(Digits(m))
  }

  /** Enough leading zeros to leave a digit before the point. */
  function Padded(bare: string, scale: nat): (r: string)
    ensures bare != "" ==> |r| > scale
  {
    if scale > 0 && |bare| <= scale then Zeros(scale + 1 - |bare|) + bare else bare
  }

  function Pointed(padded: string, scale: nat): string
    requires scale <= |padded|
  {
    if scale > 0 then padded[..|padded| - scale] + "." + padded[|padded| - scale..] else padded
  }

  function Format(d: Decimal): string {
    var padded := Padded(Bare(Abs(d.unscaled)), d.scale);
    (if d.unscaled < 0 then "-" else "") + Pointed(padded, d.scale)
  }

  function Zeros(n: nat): (r: string)
    ensures |r| == n && IsDigits(r)
  {
    if n == 0 then "" else "0" + Zeros(n - 1)
  }

  // ----- what text denotes -----

  /** `text` is a sign, whole digits, and either nothing or a point and digits. */
  predicate Written(text: string, sign: string, whole: string, fraction: string) {
    && (sign == "" || sign == "+" || sign == "-")
    && IsDigits(whole) && whole != "" && IsDigits(fraction)
    && text == sign + (whole + Behind(fraction))
  }

  /** Parsing calls no other text a number. */
  lemma ParsedIsWritten(text: string) returns (sign: string, whole: string, fraction: string)
    requires Parse(text) != Err(InvalidNumber)
    ensures Written(text, sign, whole, fraction)
  {
    sign := SignRejoins(text);
    whole, fraction := SplitJoins(Unsigned(text));
  }

  lemma SignRejoins(text: string) returns (sign: string)
    ensures (sign == "" || sign == "+" || sign == "-") && text == sign + Unsigned(text)
  {
    sign := if HasSign(text) then text[..1] else "";
  }

  lemma SplitJoins(s: string) returns (whole: string, fraction: string)
    requires SplitUnsigned(s).Ok?
    ensures SplitUnsigned(s).value == (whole, fraction)
    ensures IsDigits(whole) && whole != "" && IsDigits(fraction) && s == whole + Behind(fraction)
  {
    var k := FirstPoint(s);
    whole, fraction := SplitUnsigned(s).value.0, SplitUnsigned(s).value.1;
    if k < |s| { assert s == s[..k] + "." + s[k + 1..]; }
  }

  /** Text of that form parses as its parts say. */
  lemma WrittenParses(text: string, sign: string, whole: string, fraction: string)
    requires Written(text, sign, whole, fraction)
    ensures Parse(text) == ParseParts(whole, fraction, sign == "-")
  {
    assert (whole + Behind(fraction))[0] == whole[0];
    SignSplits(sign, whole + Behind(fraction));
    UnsignedSplits(whole, fraction);
  }

  lemma SignSplits(sign: string, s: string)
    requires (sign == "" || sign == "+" || sign == "-") && s != "" && IsDigit(s[0])
    ensures Unsigned(sign + s) == s && sign + s != ""
    ensures (sign + s)[0] == '-' <==> sign == "-"
  {
    if sign == "" {
      assert sign + s == s;
    } else {
      assert (sign + s)[0] == sign[0] && (sign + s)[1..] == s;
    }
  }

  lemma UnsignedSplits(whole: string, fraction: string)
    requires IsDigits(whole) && whole != "" && IsDigits(fraction)
    ensures SplitUnsigned(whole + Behind(fraction)) == Ok((whole, fraction))
  {
    PointIsBehind(whole, fraction);
    BehindSlices(whole, fraction);
  }

  lemma BehindSlices(whole: string, fraction: string)
    ensures var s := whole + Behind(fraction);
            && s[..|whole|] == whole && |s| == |whole| + |Behind(fraction)|
            && (fraction != "" ==> s[|whole| + 1..] == fraction)
  {
  }

  lemma PointIsBehind(whole: string, fraction: string)
    requires IsDigits(whole) && IsDigits(fraction)
    ensures FirstPoint(whole + Behind(fraction)) == |whole|
  {
    var s := whole + Behind(fraction);
    assert forall i :: 0 <= i < |whole| ==> s[i] == whole[i];
    assert forall i :: 0 <= i < |whole| ==> IsDigit(whole[i]) ==> s[i] != '.';
    FirstPointUnique(s, |whole|);
  }

  lemma {:induction false} FirstPointUnique(s: string, k: nat)
    requires k <= |s| && (k < |s| ==> s[k] == '.') && forall i :: 0 <= i < k ==> s[i] != '.'
    ensures FirstPoint(s) == k
  {
    if k > 0 { FirstPointUnique(s[1..], k - 1); }
  }

  /** A trailing zero behind the point changes the spelling, not the number. */
  lemma {:induction false} TrimKeepsNumber(whole: string, fraction: string)
    requires IsDigits(whole) && IsDigits(fraction)
    ensures Number(Spelled(Values(whole + TrimEnd(fraction))), |TrimEnd(fraction)|) ==
            Number(Spelled(Values(whole + fraction)), |fraction|)
  {
    if fraction != "" && fraction[|fraction| - 1] == '0' {
      var shorter := fraction[..|fraction| - 1];
      TrimKeepsNumber(whole, shorter);
      LastZero(whole, fraction, shorter);
      OneMoreZero(Spelled(Values(whole + shorter)), |shorter|);
    }
  }

  lemma LastZero(whole: string, fraction: string, shorter: string)
    requires IsDigits(whole) && IsDigits(fraction) && IsDigits(shorter) && fraction == shorter + "0"
    ensures Spelled(Values(whole + fraction)) == 10 * Spelled(Values(whole + shorter))
  {
    assert Values(whole + fraction) == Values(whole + shorter) + [0];
    SpelledAppend(Values(whole + shorter), 0);
  }

  lemma OneMoreZero(v: int, s: nat)
    ensures Number(10 * v, s + 1) == Number(v, s)
  {
    assert (10 * v) as real == 10.0 * v as real;
    ShiftUp(v as real, -(s as int) - 1);
  }

  /** A successful parse denotes the number all of its digits spell, normalized
      and within scale; it fails on written text only when no decimal of that
      scale and size is that number. */
  lemma ParseDenotes(text: string, sign: string, whole: string, fraction: string)
    requires Written(text, sign, whole, fraction)
    ensures Denotes(Parse(text), Number(Negated(Spelled(Values(whole + fraction)), sign == "-"), |fraction|))
  {
    WrittenParses(text, sign, whole, fraction);
    PartsDenote(whole, fraction, sign == "-");
  }

  ghost predicate Denotes(r: Result<Decimal, NumericError>, x: real) {
    match r
    case Ok(d) => NumberOf(d) == x && Normal(d) && Admitted(d)
    case Err(e) => forall d: Decimal :: Normal(d) && Admitted(d) ==> NumberOf(d) != x
  }

  lemma PartsDenote(whole: string, fraction: string, negative: bool)
    requires IsDigits(whole) && IsDigits(fraction)
    ensures Denotes(ParseParts(whole, fraction, negative),
                    Number(Negated(Spelled(Values(whole + fraction)), negative), |fraction|))
  {
    TrimKeepsNumber(whole, fraction);
    var kept := TrimEnd(fraction);
    var m, n := Spelled(Values(whole + kept)), Spelled(Values(whole + fraction));
    NegatedNumber(m, |kept|, n, |fraction|, negative);
    LastKept(whole, kept);
    KeptDenotes(m, negative, |kept|);
  }

  lemma KeptDenotes(m: nat, negative: bool, s: nat)
    requires s > 0 ==> m % 10 != 0
    ensures Denotes(if s > MAX_DECIMAL_SCALE then Err(ScaleOutOfRange) else Scaled(m, negative, s),
                    Number(Negated(m, negative), s))
  {
    if s <= MAX_DECIMAL_SCALE { ScaledDenotes(m, negative, s); } else { TooFine(Negated(m, negative), s); }
  }

  lemma ScaledDenotes(m: nat, negative: bool, s: nat)
    requires s <= MAX_DECIMAL_SCALE && (s > 0 ==> m % 10 != 0)
    ensures Denotes(Scaled(m, negative, s), Number(Negated(m, negative), s))
  {
    SignedInRange(m, negative);
    var v := Negated(m, negative);
    if InI128(v) {
      NewDenotes(v, s);
    } else {
      forall d: Decimal | Normal(d) && Admitted(d) ensures NumberOf(d) != Number(v, s) {
        if NumberOf(d) == Number(v, s) { NormalFits(d, v, s); }
      }
    }
  }

  lemma TooFine(v: int, s: nat)
    requires s > MAX_DECIMAL_SCALE && v % 10 != 0
    ensures forall d: Decimal :: Normal(d) && Admitted(d) ==> NumberOf(d) != Number(v, s)
  {
    forall d: Decimal | Normal(d) && Admitted(d) ensures NumberOf(d) != Number(v, s) {
      if NumberOf(d) == Number(v, s) { NormalFits(d, v, s); }
    }
  }

  lemma NegatedNumber(m: nat, s: nat, n: nat, t: nat, negative: bool)
    requires Number(m, s) == Number(n, t)
    ensures Number(Negated(m, negative), s) == Number(Negated(n, negative), t)
  {
    ShiftSign(m as real, -(s as int));
    ShiftSign(n as real, -(t as int));
    if negative {
      assert Negated(m, negative) as real == -(m as real) && Negated(n, negative) as real == -(n as real);
    }
  }

  lemma LastKept(whole: string, kept: string)
    requires IsDigits(whole) && IsDigits(kept) && (kept != "" ==> kept[|kept| - 1] != '0')
    ensures kept != "" ==> Spelled(Values(whole + kept)) % 10 != 0
  {
    if kept != "" {
      var ds := Values(whole + kept);
      assert ds[|ds| - 1] == ValueOf(kept[|kept| - 1]);
    }
  }

  /** A normal decimal that denotes `v * 10^-s` in lowest form has just that
      coefficient and scale. */
  lemma NormalFits(d: Decimal, v: int, s: nat)
    requires Normal(d) && (s > 0 ==> v % 10 != 0) && NumberOf(d) == Number(v, s)
    ensures d.unscaled == v && d.scale == s
  {
    ShiftTwice(d.unscaled as real, -(d.scale as int), d.scale);
    ShiftTwice(v as real, -(s as int), d.scale);
    ShiftTwice(d.unscaled as real, -(d.scale as int), s);
    ShiftTwice(v as real, -(s as int), s);
    if d.scale <= s {
      var w := ShiftWhole(d.unscaled, s - d.scale);
    } else {
      var w := ShiftWhole(v, d.scale - s);
    }
  }

  // ----- round trip -----

  /** Formatting and parsing back gives every decimal of scale at most 18. */
  lemma ParseOfFormat(d: Decimal)
    requires Normal(d) && Admitted(d)
    ensures Parse(Format(d)) == Ok(d)
  {
    var sign, whole, fraction := NoLeadingZero(d);
    WrittenParses(Format(d), sign, whole, fraction);
    TrimNothing(fraction);
    ScaledBack(d);
  }

  lemma ScaledBack(d: Decimal)
    requires Normal(d) && Admitted(d)
    ensures Scaled(Abs(d.unscaled), d.unscaled < 0, d.scale) == Ok(d)
  {
    SignedInRange(Abs(d.unscaled), d.unscaled < 0);
    assert New(d.unscaled, d.scale) == d;
  }

  lemma TrimNothing(s: string)
    requires s != "" ==> s[|s| - 1] != '0'
    ensures TrimEnd(s) == s
  {
  }

  lemma BareSpells(d: Decimal)
    requires Normal(d)
    ensures var bare := Bare(Abs(d.unscaled));
            && IsDigits(bare) && bare != "" && Spelled(Values(bare)) == Abs(d.unscaled)
            && (d.scale > 0 ==> bare[|bare| - 1] != '0')
  {
    var m := Abs(d.unscaled);
    BareValue(m);
    if m != 0 {
      LastDigit(d.unscaled);
      CharsLast(Digits(m));
    }
  }

  lemma BareValue(m: nat)
    ensures IsDigits(Bare(m)) && Spelled(Values(Bare(m))) == m
  {
    SpelledDigits(m);
    if m == 0 { assert Values("0") == [0] && Spelled([0]) == 10 * Spelled([0][..0]) + 0; }
  }

  lemma CharsLast(ds: seq<digit>)
    requires ds != []
    ensures Chars(ds)[|ds| - 1] == '0' <==> ds[|ds| - 1] == 0
  {
  }

  lemma PaddedSpells(bare: string, scale: nat)
    requires IsDigits(bare) && bare != ""
    ensures var padded := Padded(bare, scale);
            && IsDigits(padded) && |padded| > scale && Spelled(Values(padded)) == Spelled(Values(bare))
            && padded[|padded| - 1] == bare[|bare| - 1]
  {
    if scale > 0 && |bare| <= scale { LeadingZeros(scale + 1 - |bare|, bare); }
  }

  lemma PointedSplits(padded: string, scale: nat) returns (whole: string, fraction: string)
    requires IsDigits(padded) && |padded| > scale
    ensures IsDigits(whole) && whole != "" && IsDigits(fraction) && |fraction| == scale
    ensures whole + fraction == padded && Pointed(padded, scale) == whole + Behind(fraction)
    ensures fraction != "" ==> fraction[|fraction| - 1] == padded[|padded| - 1]
  {
    whole, fraction := padded[..|padded| - scale], padded[|padded| - scale..];
    if scale > 0 { assert whole + "." + fraction == whole + ("." + fraction); }
  }

  lemma {:induction false} LeadingZeros(n: nat, s: string)
    requires IsDigits(s)
    ensures Spelled(Values(Zeros(n) + s)) == Spelled(Values(s))
  {
    if n == 0 {
      assert Zeros(n) + s == s;
    } else {
      var shorter := Zeros(n - 1) + s;
      LeadingZeros(n - 1, s);
      assert Zeros(n) == "0" + Zeros(n - 1);
      assert "0" + Zeros(n - 1) + s == "0" + shorter;
      ZeroChar(shorter);
    }
  }

  lemma ZeroChar(s: string)
    requires IsDigits(s)
    ensures IsDigits("0" + s) && Spelled(Values("0" + s)) == Spelled(Values(s))
  {
    assert Values("0" + s) == [0] + Values(s);
    ZeroInFront(Values(s));
  }

  lemma {:induction false} ZeroInFront(ds: seq<digit>)
    ensures Spelled([0] + ds) == Spelled(ds)
  {
    if ds == [] {
      assert [0] + ds == [0] && Spelled([0]) == 10 * Spelled([0][..0]) + 0;
    } else {
      var init := ds[..|ds| - 1];
      ZeroInFront(init);
      assert ([0] + ds)[..|ds|] == [0] + init;
    }
  }

  // ----- the shortest text -----

  lemma {:induction false} SameLengthSameDigits(a: seq<digit>, b: seq<digit>)
    requires |a| == |b| && Spelled(a) == Spelled(b)
    ensures a == b
  {
    if a != [] {
      var n := |a| - 1;
      SameLengthSameDigits(a[..n], b[..n]);
      assert a == a[..n] + [a[n]] && b == b[..n] + [b[n]];
    }
  }

  lemma {:induction false} ZerosSpellLess(n: nat, ds: seq<digit>)
    ensures Spelled(ZeroDigits(n) + ds) == Spelled(ds)
  {
    if n == 0 {
      assert ZeroDigits(0) + ds == ds;
    } else {
      ZerosSpellLess(n - 1, ds);
      assert ZeroDigits(n) + ds == [0] + (ZeroDigits(n - 1) + ds);
      ZeroInFront(ZeroDigits(n - 1) + ds);
    }
  }

  function ZeroDigits(n: nat): seq<digit> {
    seq(n, i => 0)
  }

  /** Of two spellings of a number, one with no zero in front is no longer. */
  lemma NoZeroIsShorter(a: seq<digit>, b: seq<digit>)
    requires Spelled(a) == Spelled(b) && a != [] && a[0] != 0
    ensures |a| <= |b|
  {
    if |a| > |b| {
      var n := |a| - |b|;
      assert (ZeroDigits(n) + b)[0] == 0;
      ZerosSpellLess(n, b);
      SameLengthSameDigits(a, ZeroDigits(n) + b);
    }
  }

  lemma NoLeadingZero(d: Decimal) returns (sign: string, whole: string, fraction: string)
    requires Normal(d)
    ensures Written(Format(d), sign, whole, fraction) && sign == (if d.unscaled < 0 then "-" else "")
    ensures |fraction| == d.scale && (fraction != "" ==> fraction[|fraction| - 1] != '0')
    ensures Spelled(Values(whole + fraction)) == Abs(d.unscaled)
    ensures |whole| > 1 ==> whole[0] != '0'
  {
    sign := if d.unscaled < 0 then "-" else "";
    var bare := Bare(Abs(d.unscaled));
    BareSpells(d);
    PaddedSpells(bare, d.scale);
    whole, fraction := PointedSplits(Padded(bare, d.scale), d.scale);
    if |whole| > 1 {
      assert Padded(bare, d.scale) == bare && whole[0] == bare[0];
      SpelledDigits(Abs(d.unscaled));
    }
  }

  /** What a text that parses to `d` must look like. */
  lemma ParsedParts(d: Decimal, text: string) returns (sign: string, whole: string, fraction: string)
    requires Parse(text) == Ok(d)
    ensures Written(text, sign, whole, fraction) && (d.unscaled < 0 ==> sign == "-")
    ensures |TrimEnd(fraction)| == d.scale && Spelled(Values(whole + TrimEnd(fraction))) == Abs(d.unscaled)
  {
    sign, whole, fraction := ParsedIsWritten(text);
    WrittenParses(text, sign, whole, fraction);
    PartsAre(whole, fraction, sign == "-", d);
  }

  lemma PartsAre(whole: string, fraction: string, negative: bool, d: Decimal)
    requires IsDigits(whole) && IsDigits(fraction) && ParseParts(whole, fraction, negative) == Ok(d)
    ensures |TrimEnd(fraction)| == d.scale && Spelled(Values(whole + TrimEnd(fraction))) == Abs(d.unscaled)
    ensures d.unscaled < 0 ==> negative
  {
    var kept := TrimEnd(fraction);
    LastKept(whole, kept);
    ScaledIs(Spelled(Values(whole + kept)), negative, |kept|, d);
  }

  lemma ScaledIs(m: nat, negative: bool, s: nat, d: Decimal)
    requires s <= MAX_DECIMAL_SCALE && (s > 0 ==> m % 10 != 0) && Scaled(m, negative, s) == Ok(d)
    ensures d.scale == s && Abs(d.unscaled) == m && (d.unscaled < 0 ==> negative)
  {
    SignedInRange(m, negative);
    assert New(Negated(m, negative), s) == Decimal(Negated(m, negative), s);
  }

  /** The written text is the one shortest text that parses to the decimal: no sign
      on what is not negative, no zero in front of the digits before the point but
      one that stands alone, and none at the end. */
  lemma FormatIsShortest(d: Decimal, text: string)
    requires Normal(d) && Parse(text) == Ok(d)
    ensures |Format(d)| <= |text|
    ensures |text| == |Format(d)| ==> text == Format(d)
  {
    var sign, whole, fraction := NoLeadingZero(d);
    var sign', whole', fraction' := ParsedParts(d, text);
    var kept := TrimEnd(fraction');
    WholeIsShorter(whole, fraction, whole', kept);
    if |whole| == |whole'| { SamePartsSame(whole, fraction, whole', kept); }
    PartsCompare(Format(d), sign, whole, fraction, text, sign', whole', fraction');
  }

  lemma PartsCompare(s: string, sign: string, whole: string, fraction: string,
                     t: string, sign': string, whole': string, fraction': string)
    requires Written(s, sign, whole, fraction) && Written(t, sign', whole', fraction')
    requires sign == "-" ==> sign' == "-"
    requires sign == "" || sign == "-"
    requires |whole| <= |whole'| && |fraction| <= |fraction'|
    requires |whole| == |whole'| && |fraction| == |fraction'| ==> whole == whole' && fraction == fraction'
    ensures |s| <= |t| && (|s| == |t| ==> s == t)
  {
    BehindLength(fraction, fraction');
  }

  lemma BehindLength(a: string, b: string)
    requires |a| <= |b|
    ensures |Behind(a)| <= |Behind(b)| && (|Behind(a)| == |Behind(b)| ==> |a| == |b|)
  {
  }

  lemma SamePartsSame(whole: string, fraction: string, whole': string, kept: string)
    requires IsDigits(whole) && IsDigits(fraction) && IsDigits(whole') && IsDigits(kept)
    requires |whole| == |whole'| && |fraction| == |kept| && Spelled(Values(whole' + kept)) == Spelled(Values(whole + fraction))
    ensures whole == whole' && fraction == kept
  {
    SameLengthSameDigits(Values(whole' + kept), Values(whole + fraction));
    SameValuesSame(whole' + kept, whole + fraction);
    assert whole' == (whole' + kept)[..|whole|] && kept == (whole' + kept)[|whole|..];
    assert whole == (whole + fraction)[..|whole|] && fraction == (whole + fraction)[|whole|..];
  }

  lemma WholeIsShorter(whole: string, fraction: string, whole': string, kept: string)
    requires IsDigits(whole) && IsDigits(fraction) && IsDigits(whole') && IsDigits(kept) && whole' != ""
    requires |kept| == |fraction| && Spelled(Values(whole' + kept)) == Spelled(Values(whole + fraction))
    requires |whole| > 1 ==> whole[0] != '0'
    ensures |whole| <= |whole'|
  {
    if |whole| > 1 {
      assert (whole + fraction)[0] == whole[0];
      NoZeroIsShorter(Values(whole + fraction), Values(whole' + kept));
    }
  }

  lemma SameValuesSame(s: string, t: string)
    requires IsDigits(s) && IsDigits(t) && Values(s) == Values(t)
    ensures s == t
  {
    forall i | 0 <= i < |s| ensures s[i] == t[i] {
      assert ValueOf(s[i]) == Values(s)[i] == Values(t)[i] == ValueOf(t[i]);
    }
  }

  // ----- the code -----

  /** The checked accumulation over the whole and the kept digits. */
  method AccumulateText(digits: string) returns (r: Result<nat, NumericError>)
    requires IsDigits(digits)
    ensures r == if Spelled(Values(digits)) >= U128_BOUND then Err(Overflow) else Ok(Spelled(Values(digits)))
  {
    var magnitude: nat := 0;
    ghost var ds := Values(digits);
    for i := 0 to |digits|
      invariant magnitude == Spelled(ds[..i]) && magnitude < U128_BOUND
    {
      SpelledStep(ds, i);
      SpelledPrefix(ds, i + 1);
      magnitude := magnitude * 10;
      if magnitude >= U128_BOUND { return Err(Overflow); }
      magnitude := magnitude + ValueOf(digits[i]);
      if magnitude >= U128_BOUND { return Err(Overflow); }
    }
    assert ds[..|digits|] == ds;
    r := Ok(magnitude);
  }

  method DecimalParse(text: string) returns (r: Result<Decimal, NumericError>)
    ensures r == Parse(text)
  {
    var parts := SplitUnsigned(Unsigned(text));
    if parts.Err? { return Err(parts.error); }
    var (whole, fraction) := parts.value;
    r := ParseDigits(whole, fraction, text != "" && text[0] == '-');
  }

  method ParseDigits(whole: string, fraction: string, negative: bool) returns (r: Result<Decimal, NumericError>)
    requires IsDigits(whole) && IsDigits(fraction)
    ensures r == ParseParts(whole, fraction, negative)
  {
    var kept := TrimEnd(fraction);
    if |kept| > MAX_DECIMAL_SCALE { return Err(ScaleOutOfRange); }
    var magnitude := AccumulateText(whole + kept);
    if magnitude.Err? { return Err(magnitude.error); }
    r := Scaled(magnitude.value, negative, |kept|);
  }
}
