/** Division as the code runs it, and what exact division decides: it succeeds
    precisely on the quotients that are decimals. */
module DecimalDivision {
  import opened CanonBytes
  import opened IntCodec
  import opened DecimalDigits
  import opened Decimal
  import opened Fractions
  import opened DecimalMath

  // ----- exact division decides representability -----

  lemma DivExactIsQuotient(a: Decimal, b: Decimal)
    requires DivExact(a, b).Ok?
    ensures b.unscaled != 0
    ensures var r := DivExact(a, b).value; Normal(r) && Admitted(r) && NumberOf(r) == Quotient(a, b)
  {
    StartDivision(a, b);
    var (n, d, negative) := Ratio(a, b, 0).value;
    FinishMeans(n as real / d as real, d, LongDivision(n, d), negative);
  }

  lemma FinishMeans(x: real, d: nat, division: Result<(nat, nat), NumericError>, negative: bool)
    requires Outcome(x, d, 0, division) && Finish(division, negative).Ok?
    ensures var r := Finish(division, negative).value; Normal(r) && Admitted(r) && NumberOf(r) == SignedReal(x, negative)
  {
    var (c, s) := division.value;
    SignedInRange(c, negative);
    NewDenotes(Negated(c, negative), s);
    BackToQuotient(x, c, s, negative);
  }

  lemma StartDivision(a: Decimal, b: Decimal)
    requires Ratio(a, b, 0).Ok?
    ensures b.unscaled != 0
    ensures var (n, d, negative) := Ratio(a, b, 0).value;
            && d > 0 && Coprime(n, d) && Quotient(a, b) == SignedReal(n as real / d as real, negative)
            && Outcome(n as real / d as real, d, 0, LongDivision(n, d))
  {
    var (n, d, negative) := Ratio(a, b, 0).value;
    RatioIsExact(a, b, 0);
    LongDivisionMeans(n, d);
  }

  lemma LongDivisionMeans(n: nat, d: nat)
    requires d > 0
    ensures Outcome(n as real / d as real, d, 0, LongDivision(n, d))
  {
    WholePlusPart(n, d, n / d, n % d, (n % d) as real / d as real);
    LongDivideMeans(n as real / d as real, n / d, n % d, d, 0);
  }

  lemma BackToQuotient(x: real, c: nat, s: nat, negative: bool)
    requires Shift(x, s) == c as real
    ensures Number(Negated(c, negative), s) == SignedReal(x, negative)
  {
    ShiftTwice(x, s, -(s as int));
    ShiftSign(c as real, -(s as int));
    if negative { assert Negated(c, negative) as real == -(c as real); }
  }

  /** A refusal as inexact means no decimal of scale at most 18 is the quotient,
      whatever the size of its coefficient. */
  lemma InexactMeansNoDecimal(a: Decimal, b: Decimal, u: int, s: nat)
    requires DivExact(a, b) == Err(InexactDivision) && s <= MAX_DECIMAL_SCALE
    ensures b.unscaled != 0 && Number(u, s) != Quotient(a, b)
  {
    StartDivision(a, b);
    var (n, d, negative) := Ratio(a, b, 0).value;
    var x := n as real / d as real;
    if Number(u, s) == Quotient(a, b) {
      WholeAt(x, negative, u, s);
      WholeLater(x, s, MAX_DECIMAL_SCALE, Abs(u));
    }
  }

  /** A coefficient for the quotient is one, up to sign, for its magnitude. */
  lemma WholeAt(x: real, negative: bool, u: int, s: nat)
    requires x >= 0.0 && Number(u, s) == SignedReal(x, negative)
    ensures Shift(x, s) == Abs(u) as real
    ensures u == Negated(Abs(u), negative)
  {
    ShiftTwice(u as real, -(s as int), s);
    ShiftSign(x, s);
    if x == 0.0 { ShiftSign(0.0, s); }
  }

  lemma WholeLater(x: real, s: nat, t: nat, m: int)
    requires s <= t && Shift(x, s) == m as real
    ensures !NotWhole(x, t)
  {
    ShiftTwice(x, s, t - s);
    var w := ShiftWhole(m, t - s);
  }

  lemma {:induction false} ShiftGrows(x: real, s: nat, t: nat)
    requires x >= 0.0 && s <= t
    ensures Shift(x, s) <= Shift(x, t)
    decreases t - s
  {
    if s < t {
      ShiftGrows(x, s + 1, t);
      ShiftUp(x, s);
      ShiftOrder(x, 10.0 * x, s);
    }
  }

  /** In lowest terms, a decimal of scale `s` has a denominator dividing `10^s`
      and a coefficient no smaller than the numerator. */
  lemma LowestTermsAreSmall(n: nat, d: nat, s: nat, m: nat)
    requires d > 0 && Coprime(n, d) && Shift(n as real / d as real, s) == m as real
    ensures n <= m && d <= Pow10(s)
  {
    var x := n as real / d as real;
    ShiftIsProduct(x, s);
    RealQuotientBack(n as real, d as real);
    CrossMultiply(x, n, d, Pow10(s), m);
    var j := CoprimeDivides(n, d, Pow10(s), m);
    PositiveQuotient(Pow10(s), j, d);
    MultipleAtLeast(n, d, m, j);
  }

  lemma CrossMultiply(x: real, n: nat, d: nat, p: nat, m: nat)
    requires x * d as real == n as real && x * p as real == m as real
    ensures n * p == m * d
  {
    assert (x * d as real) * p as real == (x * p as real) * d as real;
    CastProducts(n, p, m, d);
  }

  lemma PositiveQuotient(p: nat, j: int, d: nat)
    requires p > 0 && p == j * d
    ensures j >= 1 && d <= p
  {
    assert j <= 0 ==> j * d <= 0;
    assert j >= 1 ==> (j - 1) * d >= 0 && j * d == (j - 1) * d + d;
  }

  lemma MultipleAtLeast(n: nat, d: nat, m: nat, j: int)
    requires d > 0 && j >= 1 && n * (j * d) == m * d
    ensures n <= m
  {
    assert n * (j * d) == (n * j) * d;
    SameMultiple(n * j, m, d);
    assert n * (j - 1) >= 0 && n * j == n * (j - 1) + n;
  }

  lemma SameMultiple(x: int, y: int, d: int)
    requires d > 0 && x * d == y * d
    ensures x == y
  {
    assert (x - y) * d == x * d - y * d;
    MultipleBelow(x - y, d, 0);
  }

  lemma SmallPower(s: nat)
    requires s <= MAX_DECIMAL_SCALE
    ensures Pow10(s) <= 1_000_000_000_000_000_000
  {
    Pow10Monotone(s, 18);
    Pow10Of18();
  }

  /** If any i128 coefficient of scale at most 18 is the quotient, exact division
      finds it: no intermediate of a representable quotient overflows. */
  lemma DivExactFinds(a: Decimal, b: Decimal, u: i128, s: nat)
    requires Admitted(a) && Admitted(b) && b.unscaled != 0 && s <= MAX_DECIMAL_SCALE
    requires Number(u, s) == Quotient(a, b)
    ensures DivExact(a, b) == Ok(New(u, s))
  {
    var (n, d) := ExactRatio(a, b, 0);
    var negative := (a.unscaled < 0) != (b.unscaled < 0);
    RatioIsExact(a, b, 0);
    var x := n as real / d as real;
    WholeAt(x, negative, u, s);
    LowestTermsAreSmall(n, d, s, Abs(u));
    SmallPower(s);
    StartDivision(a, b);
    DivisionFinds(x, d, LongDivision(n, d), s, u, negative);
    DivExactIsQuotient(a, b);
    NewDenotes(u, s);
    NormalUnique(DivExact(a, b).value, New(u, s));
  }

  lemma DivisionFinds(x: real, d: nat, division: Result<(nat, nat), NumericError>, s: nat, u: i128, negative: bool)
    requires x >= 0.0 && d * 10 <= U128_BOUND && s <= MAX_DECIMAL_SCALE
    requires Shift(x, s) == Abs(u) as real && u == Negated(Abs(u), negative)
    requires Outcome(x, d, 0, division)
    ensures Finish(division, negative).Ok?
  {
    if division == Err(InexactDivision) {
      WholeLater(x, s, MAX_DECIMAL_SCALE, Abs(u));
    } else if division == Err(Overflow) {
      var t :| TooLargeAt(x, 0, t);
      if s < t { WholeLater(x, s, t - 1, Abs(u)); } else { ShiftGrows(x, t, s); }
    } else {
      var (c, t) := division.value;
      if s < t { WholeLater(x, s, t - 1, Abs(u)); }
      ShiftGrows(x, t, s);
      SignedInRange(c, negative);
    }
  }

  /** Exact division in full: it returns `r` if and only if `r` is the normal
      decimal of scale at most 18 that equals `a / b`. */
  lemma DivExactDecides(a: Decimal, b: Decimal, r: Decimal)
    requires Admitted(a) && Admitted(b) && b.unscaled != 0
    ensures DivExact(a, b) == Ok(r) <==> Normal(r) && Admitted(r) && NumberOf(r) == Quotient(a, b)
  {
    if DivExact(a, b) == Ok(r) {
      DivExactIsQuotient(a, b);
    } else if Normal(r) && Admitted(r) && NumberOf(r) == Quotient(a, b) {
      DivExactFinds(a, b, r.unscaled, r.scale);
      NormalStays(r);
    }
  }

  lemma NormalStays(r: Decimal)
    requires Normal(r)
    ensures New(r.unscaled, r.scale) == r
  {
  }

  // ----- the code -----

  method CancelMagnitudes(x: nat, y: nat) returns (p: nat, q: nat)
    requires x > 0 || y > 0
    ensures (p, q) == Cancel(x, y)
    ensures p <= x && q <= y
  {
    ghost var g := CancelMeans(x, y);
    var common := GcdLoop(x, y);
    p, q := x / common, y / common;
    SmallerFactor(p, g);
    SmallerFactor(q, g);
  }

  lemma SmallerFactor(p: nat, g: nat)
    requires g > 0
    ensures p <= p * g
  {
    assert p * g == p * (g - 1) + p;
    assert p * (g - 1) >= 0;
  }

  /** Cancel, scale by the power of ten, and cancel again; the powers and the
      quotients always fit, and each product is checked. */
  method RatioOf(a: Decimal, b: Decimal, outputScale: nat) returns (r: Result<(nat, nat, bool), NumericError>)
    requires outputScale <= MAX_DECIMAL_SCALE
    ensures r == Ratio(a, b, outputScale)
  {
    if a.scale > MAX_DECIMAL_SCALE || b.scale > MAX_DECIMAL_SCALE { return Err(ScaleOutOfRange); }
    if b.unscaled == 0 { return Err(DivisionByZero); }
    ghost var g := CancelMeans(Abs(a.unscaled), Abs(b.unscaled));
    var numerator, denominator := CancelMagnitudes(Abs(a.unscaled), Abs(b.unscaled));
    ghost var reduced := ScaleBy((numerator, denominator), b.scale + outputScale - a.scale);
    var fits;
    numerator, denominator, fits := ScaleChecked(numerator, denominator, b.scale + outputScale - a.scale);
    if !fits { return Err(Overflow); }
    r := Ok((numerator, denominator, (a.unscaled < 0) != (b.unscaled < 0)));
  }

  method ScaleChecked(n: u128, d: u128, exponent: int) returns (n': nat, d': nat, fits: bool)
    requires -36 <= exponent <= 36
    ensures (n', d') == ScaleBy((n, d), exponent)
    ensures fits <==> n' < U128_BOUND && d' < U128_BOUND
  {
    var size: nat := if exponent < 0 then -exponent else exponent;
    Pow10Monotone(size, 36);
    Pow10Of36();
    var factor: u128 := Pow10(size);
    if exponent >= 0 {
      n', d', fits := ScaleSide(n, factor, d);
    } else {
      d', n', fits := ScaleSide(d, factor, n);
    }
  }

  /** Cancel the factor against one side before multiplying it into the other. */
  method ScaleSide(x: u128, factor: u128, y: u128) returns (product: nat, rest: u128, fits: bool)
    requires factor > 0
    ensures product == x * Cancel(factor, y).0 && rest == Cancel(factor, y).1
    ensures fits <==> product < U128_BOUND
  {
    var part: u128;
    part, rest := CancelMagnitudes(factor, y);
    product := x * part;
    fits := product < U128_BOUND;
  }

  method DivMod(n: nat, d: nat) returns (q: nat, r: nat)
    requires d > 0
    ensures q == n / d && r == n % d
  {
    q, r := n / d, n % d;
  }

  method LongDivisionLoop(numerator: nat, denominator: nat) returns (r: Result<(nat, nat), NumericError>)
    requires denominator > 0
    ensures r == LongDivision(numerator, denominator)
  {
    ghost var goal := LongDivision(numerator, denominator);
    var coefficient, remainder := DivMod(numerator, denominator);
    var scale := 0;
    while remainder != 0
      invariant scale <= MAX_DECIMAL_SCALE && coefficient >= 0 && remainder >= 0
      invariant LongDivide(coefficient, remainder, denominator, scale) == goal
      decreases MAX_DECIMAL_SCALE - scale
    {
      if scale == MAX_DECIMAL_SCALE { return Err(InexactDivision); }
      remainder := remainder * 10;
      if remainder >= U128_BOUND { return Err(Overflow); }
      var digit, rest := DivMod(remainder, denominator);
      coefficient := coefficient * 10 + digit;
      if coefficient >= U128_BOUND { return Err(Overflow); }
      remainder := rest;
      scale := scale + 1;
    }
    r := Ok((coefficient, scale));
  }

  method DecimalDivExact(a: Decimal, b: Decimal) returns (r: Result<Decimal, NumericError>)
    ensures r == DivExact(a, b)
  {
    var fraction := RatioOf(a, b, 0);
    if fraction.Err? { return Err(fraction.error); }
    var (numerator, denominator, negative) := fraction.value;
    RatioIsExact(a, b, 0);
    var division := LongDivisionLoop(numerator, denominator);
    r := Finish(division, negative);
  }

  method DecimalDivRound(a: Decimal, b: Decimal, scale: nat, mode: string) returns (r: Result<Decimal, NumericError>)
    ensures r == DivRound(a, b, scale, mode)
  {
    if scale > MAX_DECIMAL_SCALE { return Err(ScaleOutOfRange); }
    if !RoundingMode(mode) { return Err(InvalidRoundingMode); }
    var fraction := RatioOf(a, b, scale);
    if fraction.Err? { return Err(fraction.error); }
    var (numerator, denominator, negative) := fraction.value;
    RatioIsExact(a, b, scale);
    var coefficient, remainder := numerator / denominator, numerator % denominator;
    if RoundAway(mode, negative, coefficient, remainder, denominator) {
      coefficient := coefficient + 1;
    }
    if coefficient >= U128_BOUND { return Err(Overflow); }
    var signed := SignedOf(coefficient, negative);
    if signed.Err? { return Err(signed.error); }
    var d := NewDecimal(signed.value, scale);
    r := Ok(d);
  }
}
