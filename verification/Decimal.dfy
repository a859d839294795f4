/** Exact decimals and their order-preserving canonical encoding: a sign byte,
    the exponent of the leading digit, the digits, a terminator; negatives write
    all but the sign complemented. */
module Decimal {
  import opened CanonBytes
  import opened IntCodec
  import opened DecimalDigits

  const SIGN_NEG: byte := 0
  const SIGN_ZERO: byte := 1
  const SIGN_POS: byte := 2

  type u8 = x: int | 0 <= x < 256

  /** `unscaled * 10^-scale`. */
  datatype Decimal = Decimal(unscaled: i128, scale: u8)

  /** No trailing zero is kept behind the decimal point. */
  predicate Normal(d: Decimal) {
    d.scale > 0 ==> d.unscaled % 10 != 0
  }

  /** The number a coefficient and a scale denote. */
  ghost function Number(unscaled: int, scale: nat): real {
    Shift(unscaled as real, -(scale as int))
  }

  ghost function NumberOf(d: Decimal): real {
    Number(d.unscaled, d.scale)
  }

  lemma NumberIsQuotient(unscaled: int, scale: nat)
    ensures Number(unscaled, scale) == unscaled as real / Pow10(scale) as real
  {
    ShiftIsQuotient(unscaled as real, scale);
  }

  // ----- normalization -----

  function New(unscaled: i128, scale: u8): Decimal
    decreases scale
  {
    if scale > 0 && unscaled != 0 && unscaled % 10 == 0 then New(unscaled / 10, scale - 1)
    else Decimal(unscaled, if unscaled == 0 then 0 else scale)
  }

  method NewDecimal(unscaled: i128, scale: u8) returns (d: Decimal)
    ensures d == New(unscaled, scale)
  {
    var u, s := unscaled, scale;
    while s > 0 && u != 0 && u % 10 == 0
      invariant New(u, s) == New(unscaled, scale)
      decreases s
    {
      u := u / 10;
      s := s - 1;
    }
    if u == 0 {
      s := 0;
    }
    d := Decimal(u, s);
  }

  /** Normalizing keeps the number, never raises the scale, and leaves nothing
      to normalize. */
  lemma {:induction false} NewDenotes(u: i128, s: u8)
    ensures Normal(New(u, s)) && New(u, s).scale <= s
    ensures NumberOf(New(u, s)) == Number(u, s)
    decreases s
  {
    if s > 0 && u != 0 && u % 10 == 0 {
      NewDenotes(u / 10, s - 1);
      assert (u / 10) as real == u as real / 10.0;
    } else if u == 0 {
      ShiftSign(0.0, -(s as int));
    }
  }

  /** A number has one normal form. */
  lemma NormalUnique(a: Decimal, b: Decimal)
    requires Normal(a) && Normal(b)
    ensures NumberOf(a) == NumberOf(b) <==> a == b
  {
    if NumberOf(a) == NumberOf(b) {
      if a.scale <= b.scale { NormalScale(a, b); } else { NormalScale(b, a); }
    }
  }

  lemma NormalScale(a: Decimal, b: Decimal)
    requires Normal(a) && Normal(b) && a.scale <= b.scale && NumberOf(a) == NumberOf(b)
    ensures a == b
  {
    ShiftTwice(a.unscaled as real, -(a.scale as int), b.scale);
    ShiftTwice(b.unscaled as real, -(b.scale as int), b.scale);
    var w := ShiftWhole(a.unscaled, b.scale - a.scale);
    assert w == b.unscaled;
  }

  // ----- the encoding -----

  function DigitByte(d: digit): byte { 1 + d }

  function DigitBytes(ds: seq<digit>): (r: seq<byte>)
    ensures |r| == |ds|
  {
    if ds == [] then [] else [DigitByte(ds[0])] + DigitBytes(ds[1..])
  }

  function Terminated(ds: seq<digit>): seq<byte> {
    DigitBytes(ds) + [0]
  }

  lemma TerminatedStep(ds: seq<digit>)
    requires ds != []
    ensures Terminated(ds) == [DigitByte(ds[0])] + Terminated(ds[1..])
    ensures Terminated(ds)[1..] == Terminated(ds[1..])
  {
  }

  function Exponent(m: nat, scale: u8): int {
    |Digits(m)| - 1 - scale
  }

  /** The coefficients an i128 holds have at most 39 digits. */
  lemma ExponentRange(m: nat, scale: u8)
    requires m <= I128_BOUND
    ensures |Digits(m)| <= 39 && -256 <= Exponent(m, scale) <= 38
  {
    DigitCount(m, 39);
    Pow10Of39();
  }

  lemma Pow10Of39()
    ensures Pow10(39) > I128_BOUND
  {
    Pow10Of36();
    assert Pow10(39) == 1000 * Pow10(36);
  }

  function MagnitudeBytes(m: nat, scale: u8): seq<byte>
    requires m <= I128_BOUND
  {
    ExponentRange(m, scale);
    IntBytes(Exponent(m, scale)) + Terminated(Digits(m))
  }

  function DecimalBytes(d: Decimal): seq<byte> {
    if d.unscaled == 0 then [SIGN_ZERO] else SignedBytes(d)
  }

  function SignedBytes(d: Decimal): seq<byte> {
    if d.unscaled < 0 then [SIGN_NEG] + Complement(MagnitudeBytes(Abs(d.unscaled), d.scale))
    else [SIGN_POS] + MagnitudeBytes(d.unscaled, d.scale)
  }

  // ----- order -----

  /** Digit strings compare as fractions the way their terminated bytes do. */
  lemma {:induction false} FractionOrder(a: seq<digit>, b: seq<digit>)
    requires Fraction(a) < Fraction(b)
    ensures SplitBelow(Terminated(a), Terminated(b))
  {
    TerminatedStep(b);
    if a != [] {
      TerminatedStep(a);
      if a[0] == b[0] { FractionOrder(a[1..], b[1..]); }
    }
  }

  lemma NumberByExponent(m: nat, s: u8)
    ensures Number(m, s) == Shift(Fraction(Digits(m)), Exponent(m, s) + 1)
  {
    FractionOfDigits(m);
    ShiftTwice(Fraction(Digits(m)), |Digits(m)|, -(s as int));
  }

  /** A larger exponent is a larger number. */
  lemma ExponentDominates(x: real, e: int, y: real, f: int)
    requires e > f && 0.1 <= x && y < 1.0
    ensures Shift(x, e) > Shift(y, f)
  {
    ShiftOrder(y, 1.0, f);
    ShiftUpTo(0.1, 1.0, f, e);
    if 0.1 < x { ShiftOrder(0.1, x, e); }
  }

  /** Moving the point further never makes a positive number smaller. */
  lemma {:induction false} ShiftUpTo(x: real, y: real, f: int, e: int)
    requires x > 0.0 && y == 10.0 * x && f < e
    ensures Shift(y, f) <= Shift(x, e)
    decreases e - f
  {
    ShiftUp(x, f);
    if f + 1 < e {
      ShiftOrder(x, y, f + 1);
      ShiftUpTo(x, y, f + 1, e);
    }
  }

  lemma MagnitudeSplit(m: nat, s: u8, n: nat, t: u8)
    requires 0 < m <= I128_BOUND && 0 < n <= I128_BOUND
    requires Number(m, s) < Number(n, t)
    ensures SplitBelow(MagnitudeBytes(m, s), MagnitudeBytes(n, t))
  {
    ExponentRange(m, s);
    ExponentRange(n, t);
    var e, f := Exponent(m, s), Exponent(n, t);
    ExponentsOrdered(m, s, n, t);
    if e < f {
      IntSplit(e, f);
      SplitAppend(IntBytes(e), IntBytes(f), Terminated(Digits(m)), Terminated(Digits(n)));
    } else {
      SplitPrefix(IntBytes(e), Terminated(Digits(m)), Terminated(Digits(n)));
    }
  }

  lemma ExponentsOrdered(m: nat, s: u8, n: nat, t: u8)
    requires 0 < m && 0 < n && Number(m, s) < Number(n, t)
    ensures Exponent(m, s) <= Exponent(n, t)
    ensures Exponent(m, s) == Exponent(n, t) ==> SplitBelow(Terminated(Digits(m)), Terminated(Digits(n)))
  {
    NumberByExponent(m, s);
    NumberByExponent(n, t);
    SpelledDigits(m);
    var e, f := Exponent(m, s) + 1, Exponent(n, t) + 1;
    if e > f {
      ExponentDominates(Fraction(Digits(m)), e, Fraction(Digits(n)), f);
    } else if e == f {
      ShiftOrder(Fraction(Digits(m)), Fraction(Digits(n)), e);
      FractionOrder(Digits(m), Digits(n));
    }
  }

  /** Below, for all coefficients and scales, normal or not. */
  lemma DecimalSplit(a: Decimal, b: Decimal)
    requires NumberOf(a) < NumberOf(b)
    ensures SplitBelow(DecimalBytes(a), DecimalBytes(b))
  {
    ShiftSign(a.unscaled as real, -(a.scale as int));
    ShiftSign(b.unscaled as real, -(b.scale as int));
    if b.unscaled < 0 {
      var m, n := MagnitudeBytes(Abs(a.unscaled), a.scale), MagnitudeBytes(Abs(b.unscaled), b.scale);
      MagnitudeSplit(Abs(b.unscaled), b.scale, Abs(a.unscaled), a.scale);
      ComplementReverses(n, m);
      SplitPrefix([SIGN_NEG], Complement(m), Complement(n));
    } else if 0 < a.unscaled {
      MagnitudeSplit(a.unscaled, a.scale, b.unscaled, b.scale);
      SplitPrefix([SIGN_POS], MagnitudeBytes(a.unscaled, a.scale), MagnitudeBytes(b.unscaled, b.scale));
    }
  }

  /** Lexicographic order of the bytes is the order of the numbers, whatever
      follows them, and equal bytes mean equal numbers. */
  lemma DecimalOrder(u: i128, s: u8, v: i128, t: u8, x: seq<byte>, y: seq<byte>)
    ensures DecimalBytes(New(u, s)) == DecimalBytes(New(v, t)) <==> Number(u, s) == Number(v, t)
    ensures LexLess(DecimalBytes(New(u, s)), DecimalBytes(New(v, t))) <==> Number(u, s) < Number(v, t)
    ensures Number(u, s) != Number(v, t) ==>
              (LexLess(DecimalBytes(New(u, s)) + x, DecimalBytes(New(v, t)) + y) <==> Number(u, s) < Number(v, t))
  {
    var a, b := New(u, s), New(v, t);
    NewDenotes(u, s);
    NewDenotes(v, t);
    LexTrichotomy(DecimalBytes(a), DecimalBytes(b));
    if NumberOf(a) < NumberOf(b) {
      DecimalSplit(a, b);
      SplitBothWays(DecimalBytes(a), DecimalBytes(b), x, y);
    } else if NumberOf(b) < NumberOf(a) {
      DecimalSplit(b, a);
      SplitBothWays(DecimalBytes(b), DecimalBytes(a), y, x);
    } else {
      NormalUnique(a, b);
    }
  }

  lemma SplitBothWays(a: seq<byte>, b: seq<byte>, x: seq<byte>, y: seq<byte>)
    requires SplitBelow(a, b)
    ensures LexLess(a, b) && !LexLess(b, a) && LexLess(a + x, b + y) && !LexLess(b + y, a + x)
  {
    SplitDecides(a, b, x, y);
    SplitDecides(a, b, [], []);
    assert a + [] == a && b + [] == b;
  }

  // ----- writing -----

  method DigitsOf(m: nat) returns (digits: seq<digit>)
    ensures digits == Digits(m)
  {
    var rest := m;
    digits := [];
    while rest > 0
      invariant Digits(rest) + digits == Digits(m)
    {
      digits := [rest % 10] + digits;
      rest := rest / 10;
    }
  }

  method WriteMagnitude(d: Decimal) returns (bytes: seq<byte>)
    requires d.unscaled != 0
    ensures bytes == MagnitudeBytes(Abs(d.unscaled), d.scale)
  {
    var m := Abs(d.unscaled);
    ExponentRange(m, d.scale);
    var digits := DigitsOf(m);
    var w := new CanonWriter();
    EncodeInt(|digits| - 1 - d.scale, w);
    var tail := WriteDigits(digits);
    w.WriteRaw(tail);
    bytes := w.buf;
  }

  method WriteDigits(digits: seq<digit>) returns (tail: seq<byte>)
    ensures tail == Terminated(digits)
  {
    tail := [];
    for i := 0 to |digits|
      invariant tail + DigitBytes(digits[i..]) == DigitBytes(digits)
    {
      tail := tail + [DigitByte(digits[i])];
      assert digits[i..][1..] == digits[i + 1..];
    }
    tail := tail + [0];
  }

  method CanonWrite(d: Decimal, w: CanonWriter)
    modifies w
    ensures w.buf == old(w.buf) + DecimalBytes(d)
  {
    if d.unscaled == 0 {
      w.WriteRaw([SIGN_ZERO]);
    } else {
      var sign, magnitude := SignAndMagnitude(d);
      w.WriteTagged(sign, magnitude);
    }
  }

  method SignAndMagnitude(d: Decimal) returns (sign: byte, magnitude: seq<byte>)
    requires d.unscaled != 0
    ensures SignedBytes(d) == [sign] + magnitude
  {
    magnitude := WriteMagnitude(d);
    if d.unscaled < 0 {
      magnitude := ComplementBytes(magnitude);
      sign := SIGN_NEG;
    } else {
      sign := SIGN_POS;
    }
  }

  /** The cross-check script's encoder trims the digit string instead, and writes
      the same bytes for every coefficient and scale. */
  method ScriptDecimal(unscaled: i128, scale: u8) returns (bytes: seq<byte>)
    ensures bytes == DecimalBytes(New(unscaled, scale))
  {
    if unscaled == 0 { return [SIGN_ZERO]; }
    var digits, s := TrimZeros(unscaled, scale);
    ScriptMagnitudeAgrees(Abs(New(unscaled, scale).unscaled), s);
    var magnitude := ScriptInt(|digits| - 1 - s).value + Terminated(digits);
    if unscaled < 0 {
      bytes := [SIGN_NEG] + Complement(magnitude);
    } else {
      bytes := [SIGN_POS] + magnitude;
    }
  }

  lemma ScriptMagnitudeAgrees(m: nat, scale: u8)
    requires m <= I128_BOUND
    ensures ScriptInt(Exponent(m, scale)).Ok?
    ensures ScriptInt(Exponent(m, scale)).value + Terminated(Digits(m)) == MagnitudeBytes(m, scale)
  {
    ExponentRange(m, scale);
    ScriptIntAgrees(Exponent(m, scale));
  }

  /** Trimming the digit string is normalizing the coefficient. */
  method TrimZeros(unscaled: i128, scale: u8) returns (digits: seq<digit>, s: u8)
    requires unscaled != 0
    ensures var d := New(unscaled, scale);
            d.unscaled != 0 && (d.unscaled < 0 <==> unscaled < 0) && digits == Digits(Abs(d.unscaled)) && s == d.scale
  {
    digits, s := Digits(Abs(unscaled)), scale;
    ghost var u: i128 := unscaled;
    LastDigit(u);
    while |digits| > 1 && digits[|digits| - 1] == 0 && s > 0
      invariant u != 0 && (u < 0 <==> unscaled < 0) && digits == Digits(Abs(u)) && digits != []
      invariant New(u, s) == New(unscaled, scale)
      decreases s
    {
      LastDigit(u);
      digits := digits[..|digits| - 1];
      u := u / 10;
      s := s - 1;
      LastDigit(u);
    }
    LastDigit(u);
  }

  lemma LastDigit(u: int)
    requires u != 0
    ensures var ds := Digits(Abs(u));
            && ds != [] && (ds[|ds| - 1] == 0 <==> u % 10 == 0) && (|ds| == 1 ==> u % 10 != 0)
            && (u % 10 == 0 ==> u / 10 != 0 && (u / 10 < 0 <==> u < 0) && Digits(Abs(u / 10)) == ds[..|ds| - 1])
  {
    SpelledDigits(Abs(u));
    if u % 10 == 0 { assert Abs(u / 10) == Abs(u) / 10; }
  }
}
