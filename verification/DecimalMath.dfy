/** Checked exact-decimal arithmetic: sums and products that never round, exact
    division by long division, and division under four rounding modes. */
module DecimalMath {
  import opened CanonBytes
  import opened IntCodec
  import opened DecimalDigits
  import opened Decimal
  import opened Fractions

  const MAX_DECIMAL_SCALE: nat := 18

  datatype NumericError =
    | InvalidNumber | NonFinite | Overflow | ScaleOutOfRange | DivisionByZero | InexactDivision | InvalidRoundingMode

  predicate Admitted(d: Decimal) {
    d.scale <= MAX_DECIMAL_SCALE
  }

  predicate InI128(x: int) {
    -I128_BOUND <= x < I128_BOUND
  }

  function Negated(m: nat, negative: bool): int {
    if negative then 0 - m else m
  }

  /** A magnitude and a sign, if an i128 holds them. */
  function SignedOf(m: nat, negative: bool): Result<i128, NumericError> {
    if negative && m == I128_BOUND then Ok(-I128_BOUND)
    else if m >= I128_BOUND then Err(Overflow)
    else Ok(Negated(m, negative))
  }

  lemma SignedInRange(m: nat, negative: bool)
    ensures SignedOf(m, negative) ==
            if InI128(Negated(m, negative)) then Ok(Negated(m, negative)) else Err(Overflow)
  {
  }

  // ----- sums, differences, products -----

  function Align(a: Decimal, b: Decimal): Result<(i128, i128, nat), NumericError> {
    if !Admitted(a) || !Admitted(b) then Err(ScaleOutOfRange)
    else
      var scale := if a.scale < b.scale then b.scale else a.scale;
      var x, y := a.unscaled * Pow10(scale - a.scale), b.unscaled * Pow10(scale - b.scale);
      if InI128(x) && InI128(y) then Ok((x, y, scale)) else Err(Overflow)
  }

  function Add(a: Decimal, b: Decimal): Result<Decimal, NumericError> {
    match Align(a, b)
    case Err(e) => Err(e)
    case Ok(x) => if InI128(x.0 + x.1) then Ok(New(x.0 + x.1, x.2)) else Err(Overflow)
  }

  function Sub(a: Decimal, b: Decimal): Result<Decimal, NumericError> {
    match Align(a, b)
    case Err(e) => Err(e)
    case Ok(x) => if InI128(x.0 - x.1) then Ok(New(x.0 - x.1, x.2)) else Err(Overflow)
  }

  function Neg(a: Decimal): Result<Decimal, NumericError> {
    if !Admitted(a) then Err(ScaleOutOfRange)
    else if a.unscaled == -I128_BOUND then Err(Overflow)
    else Ok(New(-a.unscaled, a.scale))
  }

  function Mul(a: Decimal, b: Decimal): Result<Decimal, NumericError> {
    Product(a, b, a.unscaled * b.unscaled)
  }

  /** The product of two decimals whose coefficients multiply to `product`. */
  function Product(a: Decimal, b: Decimal, product: int): Result<Decimal, NumericError> {
    if !Admitted(a) || !Admitted(b) then Err(ScaleOutOfRange)
    else if !InI128(product) then Err(Overflow)
    else
      var r := New(product, a.scale + b.scale);
      if Admitted(r) then Ok(r) else Err(ScaleOutOfRange)
  }

  lemma AlignKeepsNumbers(a: Decimal, b: Decimal)
    ensures match Align(a, b)
            case Ok(x) => Number(x.0, x.2) == NumberOf(a) && Number(x.1, x.2) == NumberOf(b) && x.2 <= MAX_DECIMAL_SCALE
            case Err(_) => true
  {
    if Align(a, b).Ok? {
      var scale := Align(a, b).value.2;
      RescaleKeeps(a, scale);
      RescaleKeeps(b, scale);
    }
  }

  lemma RescaleKeeps(a: Decimal, scale: nat)
    requires a.scale <= scale
    ensures Number(a.unscaled * Pow10(scale - a.scale), scale) == NumberOf(a)
  {
    var k := scale - a.scale;
    ShiftIsProduct(a.unscaled as real, k);
    assert (a.unscaled * Pow10(k)) as real == a.unscaled as real * Pow10(k) as real;
    ShiftTwice(a.unscaled as real, k, -(scale as int));
  }

  /** Sums, differences and products never round. */
  lemma SumsAreExact(a: Decimal, b: Decimal)
    ensures Add(a, b).Ok? ==> NumberOf(Add(a, b).value) == NumberOf(a) + NumberOf(b) && Admitted(Add(a, b).value)
    ensures Sub(a, b).Ok? ==> NumberOf(Sub(a, b).value) == NumberOf(a) - NumberOf(b) && Admitted(Sub(a, b).value)
    ensures Normal(a) && Add(a, b).Ok? && Sub(Add(a, b).value, b).Ok? ==> Sub(Add(a, b).value, b).value == a
  {
    SumIsExact(a, b);
    DifferenceIsExact(a, b);
    if Normal(a) && Add(a, b).Ok? && Sub(Add(a, b).value, b).Ok? {
      DifferenceIsExact(Add(a, b).value, b);
      DifferenceIsNormal(Add(a, b).value, b);
      NormalUnique(Sub(Add(a, b).value, b).value, a);
    }
  }

  lemma DifferenceIsNormal(a: Decimal, b: Decimal)
    requires Sub(a, b).Ok?
    ensures Normal(Sub(a, b).value)
  {
    var (x, y, scale) := Align(a, b).value;
    NewDenotes(x - y, scale);
  }

  lemma SumIsExact(a: Decimal, b: Decimal)
    ensures Add(a, b).Ok? ==> NumberOf(Add(a, b).value) == NumberOf(a) + NumberOf(b) && Admitted(Add(a, b).value)
  {
    AlignKeepsNumbers(a, b);
    if Add(a, b).Ok? {
      var (x, y, scale) := Align(a, b).value;
      NewDenotes(x + y, scale);
      ShiftSum(x as real, y as real, -(scale as int));
    }
  }

  lemma DifferenceIsExact(a: Decimal, b: Decimal)
    ensures Sub(a, b).Ok? ==> NumberOf(Sub(a, b).value) == NumberOf(a) - NumberOf(b) && Admitted(Sub(a, b).value)
  {
    AlignKeepsNumbers(a, b);
    if Sub(a, b).Ok? {
      var (x, y, scale) := Align(a, b).value;
      NewDenotes(x - y, scale);
      ShiftSum((x - y) as real, y as real, -(scale as int));
    }
  }

  lemma ProductsAreExact(a: Decimal, b: Decimal)
    ensures Mul(a, b).Ok? ==> NumberOf(Mul(a, b).value) == NumberOf(a) * NumberOf(b) && Admitted(Mul(a, b).value)
  {
    if Mul(a, b).Ok? {
      CastProducts(a.unscaled, b.unscaled, 0, 0);
      var product := MulNumber(a, b);
      ProductIsExact(a, b, product, Mul(a, b).value);
    }
  }

  ghost predicate FitsI128(x: real) {
    -(I128_BOUND as real) <= x < I128_BOUND as real
  }

  ghost function LargerScale(a: Decimal, b: Decimal): nat {
    if a.scale < b.scale then b.scale else a.scale
  }

  /** At a scale no smaller than its own a decimal is a whole number. */
  lemma WholeAtScale(a: Decimal, scale: nat)
    requires a.scale <= scale
    ensures Shift(NumberOf(a), scale) == (a.unscaled * Pow10(scale - a.scale)) as real
  {
    var k := a.unscaled * Pow10(scale - a.scale);
    RescaleKeeps(a, scale);
    ShiftTwice(k as real, -(scale as int), scale);
  }

  /** A sum is refused just when a scale is not admitted or when, at the larger of
      the two scales, one of the numbers or the sum leaves the i128 range. */
  lemma SumsDecide(a: Decimal, b: Decimal)
    ensures var s := LargerScale(a, b);
            var x, y := Shift(NumberOf(a), s), Shift(NumberOf(b), s);
            var aligned := Admitted(a) && Admitted(b) && FitsI128(x) && FitsI128(y);
            && (Add(a, b).Ok? <==> aligned && FitsI128(Shift(NumberOf(a) + NumberOf(b), s)))
            && (Sub(a, b).Ok? <==> aligned && FitsI128(Shift(NumberOf(a) - NumberOf(b), s)))
    ensures Neg(a).Ok? <==> Admitted(a) && FitsI128(-Shift(NumberOf(a), a.scale))
    ensures Neg(a).Ok? ==> NumberOf(Neg(a).value) == -NumberOf(a) && Normal(Neg(a).value)
  {
    var s := LargerScale(a, b);
    WholeAtScale(a, s);
    WholeAtScale(b, s);
    ShiftSum(NumberOf(a), NumberOf(b), s);
    ShiftSum(NumberOf(a) - NumberOf(b), NumberOf(b), s);
    NegDecides(a);
  }

  lemma NegDecides(a: Decimal)
    ensures Neg(a).Ok? <==> Admitted(a) && FitsI128(-Shift(NumberOf(a), a.scale))
    ensures Neg(a).Ok? ==> NumberOf(Neg(a).value) == -NumberOf(a) && Normal(Neg(a).value)
  {
    WholeAtScale(a, a.scale);
    if Neg(a).Ok? {
      NewDenotes(-a.unscaled, a.scale);
      ShiftSign(a.unscaled as real, -(a.scale as int));
    }
  }

  /** A product is `r` if and only if `r` is the normal decimal of scale at most 18
      that equals it, and the product of the coefficients is an i128. */
  lemma ProductsDecide(a: Decimal, b: Decimal, r: Decimal)
    ensures Mul(a, b) == Ok(r) <==>
            && Admitted(a) && Admitted(b) && InI128(a.unscaled * b.unscaled)
            && Normal(r) && Admitted(r) && NumberOf(r) == NumberOf(a) * NumberOf(b)
  {
    var product, x := a.unscaled * b.unscaled, NumberOf(a) * NumberOf(b);
    CastProducts(a.unscaled, b.unscaled, 0, 0);
    NumbersMultiply(product, a.unscaled, a.scale, b.unscaled, b.scale);
    ProductIs(a, b, product, x, r);
  }

  lemma ProductIs(a: Decimal, b: Decimal, product: int, x: real, r: Decimal)
    requires x == Number(product, a.scale + b.scale)
    ensures Product(a, b, product) == Ok(r) <==>
            Admitted(a) && Admitted(b) && InI128(product) && Normal(r) && Admitted(r) && NumberOf(r) == x
  {
    if Admitted(a) && Admitted(b) && InI128(product) { NormalIs(product, a.scale + b.scale, r); }
  }

  lemma NormalIs(u: i128, s: u8, r: Decimal)
    ensures New(u, s) == r <==> Normal(r) && NumberOf(r) == Number(u, s)
  {
    NewDenotes(u, s);
    if Normal(r) && NumberOf(r) == Number(u, s) { NormalUnique(New(u, s), r); }
  }

  lemma MulNumber(a: Decimal, b: Decimal) returns (product: int)
    requires Mul(a, b).Ok?
    ensures product == a.unscaled * b.unscaled
    ensures Admitted(Mul(a, b).value) && NumberOf(Mul(a, b).value) == Number(product, a.scale + b.scale)
  {
    product := a.unscaled * b.unscaled;
    NewDenotes(product, a.scale + b.scale);
  }

  lemma ProductIsExact(a: Decimal, b: Decimal, product: int, r: Decimal)
    requires product as real == a.unscaled as real * b.unscaled as real
    requires NumberOf(r) == Number(product, a.scale + b.scale)
    ensures NumberOf(r) == NumberOf(a) * NumberOf(b)
  {
    NumbersMultiply(product, a.unscaled, a.scale, b.unscaled, b.scale);
  }

  lemma NumbersMultiply(product: int, u: int, s: nat, v: int, t: nat)
    requires product as real == u as real * v as real
    ensures Number(product, s + t) == Number(u, s) * Number(v, t)
  {
    ProductShift(u as real, v as real, -(s as int), -(t as int));
    assert -((s + t) as int) == -(s as int) + -(t as int);
  }

  lemma ProductShift(x: real, y: real, s: int, t: int)
    ensures Shift(x * y, s + t) == Shift(x, s) * Shift(y, t)
  {
    var u, v := Shift(x, s), Shift(y, t);
    ShiftTimes(x, y, s);
    Commutes(u, y);
    assert Shift(x * y, s) == y * u;
    ShiftTwice(x * y, s, t);
    ShiftTimes(y, u, t);
    Commutes(v, u);
  }

  lemma Commutes(x: real, y: real)
    ensures x * y == y * x
  {
  }

  lemma {:induction false} ShiftTimes(x: real, y: real, k: int)
    ensures Shift(x * y, k) == Shift(x, k) * y
    decreases if k < 0 then -k else k
  {
    if k > 0 {
      var z, w := 10.0 * x, 10.0 * (x * y);
      TenfoldTimes(x, y);
      assert z * y == w;
      ShiftTimes(z, y, k - 1);
      assert Shift(w, k - 1) == Shift(x * y, k);
      assert Shift(z, k - 1) == Shift(x, k);
    } else if k < 0 {
      var z, w := x / 10.0, (x * y) / 10.0;
      TenthTimes(x, y);
      assert z * y == w;
      ShiftTimes(z, y, k + 1);
      assert Shift(w, k + 1) == Shift(x * y, k);
      assert Shift(z, k + 1) == Shift(x, k);
    }
  }

  lemma TenfoldTimes(x: real, y: real)
    ensures 10.0 * x * y == 10.0 * (x * y)
  {
  }

  lemma TenthTimes(x: real, y: real)
    ensures x / 10.0 * y == (x * y) / 10.0
  {
    var z := x / 10.0;
    assert x == 10.0 * z;
    assert x * y == 10.0 * (z * y);
  }

  // ----- the exact ratio -----

  /** `|a/b| * 10^outputScale` in lowest terms, within 128 bits, and its sign. */
  function Ratio(a: Decimal, b: Decimal, outputScale: nat): Result<(nat, nat, bool), NumericError> {
    if !Admitted(a) || !Admitted(b) then Err(ScaleOutOfRange)
    else if b.unscaled == 0 then Err(DivisionByZero)
    else
      var (n, d) := ExactRatio(a, b, outputScale);
      if n >= U128_BOUND || d >= U128_BOUND then Err(Overflow)
      else Ok((n, d, (a.unscaled < 0) != (b.unscaled < 0)))
  }

  function ExactRatio(a: Decimal, b: Decimal, outputScale: nat): (nat, nat)
    requires b.unscaled != 0
  {
    Reduced(Abs(a.unscaled), Abs(b.unscaled), b.scale + outputScale - a.scale)
  }

  /** The exact quotient. */
  ghost function Quotient(a: Decimal, b: Decimal): real
    requires b.unscaled != 0
  {
    ShiftSign(b.unscaled as real, -(b.scale as int));
    ShiftSign(-(b.unscaled as real), -(b.scale as int));
    NumberOf(a) / NumberOf(b)
  }

  ghost function SignedReal(x: real, negative: bool): real {
    if negative then -x else x
  }

  lemma QuotientByCoefficients(a: Decimal, b: Decimal)
    requires b.unscaled != 0
    ensures Quotient(a, b) == Shift(a.unscaled as real / b.unscaled as real, b.scale - a.scale)
  {
    var x, y := a.unscaled as real, b.unscaled as real;
    var z := x / y;
    var w := Shift(z, b.scale - a.scale);
    ShiftTimes(z, y, -(a.scale as int));
    assert z * y == x;
    ShiftTwice(z, b.scale - a.scale, -(b.scale as int));
    ShiftTimes(w, y, -(b.scale as int));
    ShiftTimes(y, w, -(b.scale as int));
    assert w * y == y * w;
    ShiftSign(y, -(b.scale as int));
    ShiftSign(-y, -(b.scale as int));
    RealQuotient(NumberOf(a), NumberOf(b), w);
  }

  lemma RealQuotient(x: real, y: real, w: real)
    requires y != 0.0 && x == w * y
    ensures x / y == w
  {
  }

  /** The reduced fraction is the exact quotient, moved to the output scale. */
  lemma RatioIsExact(a: Decimal, b: Decimal, outputScale: nat)
    requires b.unscaled != 0
    ensures var (n, d) := ExactRatio(a, b, outputScale);
            && d > 0 && Coprime(n, d)
            && Shift(Quotient(a, b), outputScale) ==
               SignedReal(n as real / d as real, (a.unscaled < 0) != (b.unscaled < 0))
  {
    var e := b.scale + outputScale - a.scale;
    var z := a.unscaled as real / b.unscaled as real;
    QuotientByCoefficients(a, b);
    ShiftTwice(z, b.scale - a.scale, outputScale);
    var p := Abs(a.unscaled) as real / Abs(b.unscaled) as real;
    QuotientSign(a.unscaled, b.unscaled);
    ShiftSign(p, e);
    ReducedMeans(Abs(a.unscaled), Abs(b.unscaled), e);
    ReducedIsShift(Abs(a.unscaled), Abs(b.unscaled), e);
  }

  lemma QuotientSign(x: int, y: int)
    requires y != 0
    ensures x as real / y as real == SignedReal(Abs(x) as real / Abs(y) as real, (x < 0) != (y < 0))
  {
    var p := Abs(x) as real / Abs(y) as real;
    var z := SignedReal(p, (x < 0) != (y < 0));
    assert p * Abs(y) as real == Abs(x) as real;
    SignedProduct(p, Abs(y) as real);
    RealQuotient(x as real, y as real, z);
  }

  lemma SignedProduct(p: real, y: real)
    ensures -p * y == -(p * y) && p * -y == -(p * y) && -p * -y == p * y
  {
  }

  lemma ReducedIsShift(a: nat, b: nat, e: int)
    requires b > 0
    ensures var (n, d) := Reduced(a, b, e); d > 0 && n as real / d as real == Shift(a as real / b as real, e)
  {
    var (n, d) := Reduced(a, b, e);
    ReducedMeans(a, b, e);
    if e >= 0 { ShiftedUp(n, d, a, b, e); } else { ShiftedDown(n, d, a, b, -e); }
  }

  lemma ShiftedUp(n: nat, d: nat, a: nat, b: nat, e: nat)
    requires b > 0 && d > 0 && n * b == d * a * Pow10(e)
    ensures n as real / d as real == Shift(a as real / b as real, e)
  {
    var q := a as real / b as real;
    RealQuotientBack(a as real, b as real);
    WholeRatioUp(n, d, a, b, Pow10(e), q);
    ShiftIsProduct(q, e);
  }

  lemma ShiftedDown(n: nat, d: nat, a: nat, b: nat, e: nat)
    requires b > 0 && d > 0 && n * b * Pow10(e) == d * a
    ensures n as real / d as real == Shift(a as real / b as real, -(e as int))
  {
    var q := a as real / b as real;
    RealQuotientBack(a as real, b as real);
    WholeRatioDown(n, d, a, b, Pow10(e), q);
    ShiftIsQuotient(q, e);
  }

  lemma RealQuotientBack(x: real, y: real)
    requires y != 0.0
    ensures x / y * y == x
  {
  }

  lemma WholeRatioUp(n: nat, d: nat, a: nat, b: nat, p: nat, q: real)
    requires b > 0 && d > 0 && q * b as real == a as real && n * b == d * a * p
    ensures n as real / d as real == q * p as real
  {
    CastProducts(n, b, d * a, p);
    CastProducts(d, a, 0, 0);
    RatioUp(n as real, d as real, a as real, b as real, p as real, q);
  }

  lemma WholeRatioDown(n: nat, d: nat, a: nat, b: nat, p: nat, q: real)
    requires b > 0 && d > 0 && p > 0 && q * b as real == a as real && n * b * p == d * a
    ensures n as real / d as real == q / p as real
  {
    CastProducts(n * b, p, d, a);
    CastProducts(n, b, 0, 0);
    RatioDown(n as real, d as real, a as real, b as real, p as real, q);
  }

  lemma CastProducts(x: int, y: int, z: int, w: int)
    ensures (x * y) as real == x as real * y as real
    ensures (z * w) as real == z as real * w as real
  {
  }

  lemma RatioUp(n: real, d: real, a: real, b: real, p: real, q: real)
    requires b > 0.0 && d > 0.0 && q * b == a && n * b == d * a * p
    ensures n / d == q * p
  {
    assert d * a * p == (q * p * d) * b;
    CancelRight(n, q * p * d, b);
    RealQuotient(n, d, q * p);
  }

  lemma RatioDown(n: real, d: real, a: real, b: real, p: real, q: real)
    requires b > 0.0 && d > 0.0 && p > 0.0 && q * b == a && n * b * p == d * a
    ensures n / d == q / p
  {
    var r := q / p;
    assert r * p == q;
    assert d * a == d * (r * p * b);
    assert d * (r * p * b) == (r * d) * b * p;
    CancelRight(n * b, (r * d) * b, p);
    CancelRight(n, r * d, b);
    RealQuotient(n, d, r);
  }

  lemma CancelRight(x: real, y: real, k: real)
    requires k > 0.0 && x * k == y * k
    ensures x == y
  {
    RealQuotient(x * k, k, x);
    RealQuotient(y * k, k, y);
  }

  // ----- rounded division -----

  predicate RoundingMode(mode: string) {
    mode == "floor" || mode == "ceil" || mode == "half_even" || mode == "trunc"
  }

  /** The integer each mode prescribes for an exact value. */
  ghost predicate RoundsTo(mode: string, x: real, k: int) {
    var r := k as real;
    if mode == "floor" then r <= x < r + 1.0
    else if mode == "ceil" then r - 1.0 < x <= r
    else if mode == "half_even" then r - 0.5 <= x <= r + 0.5 && (x == r - 0.5 || x == r + 0.5 ==> k % 2 == 0)
    else if x >= 0.0 then r <= x < r + 1.0 else r - 1.0 < x <= r
  }

  lemma RoundingIsUnique(mode: string, x: real, j: int, k: int)
    requires RoundsTo(mode, x, j) && RoundsTo(mode, x, k)
    ensures j == k
  {
    assert mode == "half_even" ==> j == k || j == k + 1 || k == j + 1;
  }

  predicate RoundAway(mode: string, negative: bool, coefficient: nat, remainder: nat, d: nat) {
    remainder != 0 &&
    if mode == "floor" then negative
    else if mode == "ceil" then !negative
    else if mode == "half_even" then
      remainder > d - remainder || (remainder == d - remainder && coefficient % 2 == 1)
    else false
  }

  function Rounded(n: nat, d: nat, negative: bool, mode: string): nat
    requires d > 0
  {
    n / d + if RoundAway(mode, negative, n / d, n % d, d) then 1 else 0
  }

  function DivRound(a: Decimal, b: Decimal, scale: nat, mode: string): Result<Decimal, NumericError> {
    if scale > MAX_DECIMAL_SCALE then Err(ScaleOutOfRange)
    else if !RoundingMode(mode) then Err(InvalidRoundingMode)
    else
      match Ratio(a, b, scale)
      case Err(e) => Err(e)
      case Ok(x) =>
        if x.1 == 0 || Rounded(x.0, x.1, x.2, mode) >= U128_BOUND then Err(Overflow)
        else
          match SignedOf(Rounded(x.0, x.1, x.2, mode), x.2)
          case Err(e) => Err(e)
          case Ok(k) => Ok(New(k, scale))
  }

  /** The whole and the fractional part of `n/d`. */
  lemma WholeAndPart(n: nat, d: nat) returns (part: real)
    requires d > 0
    ensures n as real / d as real == (n / d) as real + part && 0.0 <= part < 1.0
    ensures n % d == 0 <==> part == 0.0
    ensures n % d > d - n % d <==> part > 0.5
    ensures n % d == d - n % d <==> part == 0.5
  {
    part := (n % d) as real / d as real;
    WholePlusPart(n, d, n / d, n % d, part);
    PartCompares(n % d, d, part);
  }

  lemma WholePlusPart(n: nat, d: nat, c: nat, r: nat, part: real)
    requires d > 0 && n == c * d + r && part == r as real / d as real
    ensures n as real / d as real == c as real + part
  {
    RealQuotientBack(r as real, d as real);
    CastProducts(c, d, 0, 0);
    Distribute(c as real, part, d as real);
    RealQuotient(n as real, d as real, c as real + part);
  }

  lemma Distribute(x: real, y: real, d: real)
    ensures (x + y) * d == x * d + y * d
  {
  }

  lemma PartCompares(r: nat, d: nat, part: real)
    requires r < d && part == r as real / d as real
    ensures 0.0 <= part < 1.0
    ensures r == 0 <==> part == 0.0
    ensures r > d - r <==> part > 0.5
    ensures r == d - r <==> part == 0.5
  {
    RealQuotientBack(r as real, d as real);
    PartOrder(part, 0.0, d as real);
    PartOrder(0.0, part, d as real);
    PartOrder(part, 0.5, d as real);
    PartOrder(0.5, part, d as real);
    PartOrder(part, 1.0, d as real);
  }

  lemma PartOrder(x: real, y: real, d: real)
    requires d > 0.0
    ensures x < y <==> x * d < y * d
    ensures x == y <==> x * d == y * d
  {
    if x < y { assert (y - x) * d > 0.0; }
    if y < x { assert (x - y) * d > 0.0; }
  }

  lemma RoundedMeans(n: nat, d: nat, negative: bool, mode: string)
    requires d > 0
    ensures RoundingMode(mode) && (negative ==> n > 0) ==>
              RoundsTo(mode, SignedReal(n as real / d as real, negative), Negated(Rounded(n, d, negative, mode), negative))
  {
    var part := WholeAndPart(n, d);
  }

  /** Rounded division: on every admitted pair the result is the prescribed
      rounding of the exact quotient, and it is refused just when the reduced
      fraction or the rounding does not fit. */
  lemma DivRoundIsRounding(a: Decimal, b: Decimal, scale: nat, mode: string) returns (k: int)
    requires Admitted(a) && Admitted(b) && b.unscaled != 0 && scale <= MAX_DECIMAL_SCALE && RoundingMode(mode)
    ensures RoundsTo(mode, Shift(Quotient(a, b), scale), k)
    ensures var (n, d) := ExactRatio(a, b, scale);
            DivRound(a, b, scale, mode) ==
            if n < U128_BOUND && d < U128_BOUND && InI128(k) then Ok(New(k, scale)) else Err(Overflow)
  {
    RatioIsExact(a, b, scale);
    var (n, d) := ExactRatio(a, b, scale);
    var negative := (a.unscaled < 0) != (b.unscaled < 0);
    k := Negated(Rounded(n, d, negative, mode), negative);
    SignedInRange(Rounded(n, d, negative, mode), negative);
    RoundedMeans(n, d, negative, mode);
    if n == 0 { ZeroRounds(d, mode); }
  }

  lemma ZeroRounds(d: nat, mode: string)
    requires d > 0
    ensures Rounded(0, d, false, mode) == 0 && Rounded(0, d, true, mode) == 0
    ensures 0 as real / d as real == 0.0 && RoundsTo(mode, 0.0, 0) && RoundsTo(mode, -0.0, 0)
  {
  }

  // ----- exact division -----

  /** Long division, one decimal digit at a time, up to scale 18. */
  function LongDivide(coefficient: nat, remainder: nat, d: nat, scale: nat): Result<(nat, nat), NumericError>
    requires d > 0 && scale <= MAX_DECIMAL_SCALE
    decreases MAX_DECIMAL_SCALE - scale
  {
    if remainder == 0 then Ok((coefficient, scale))
    else if scale == MAX_DECIMAL_SCALE then Err(InexactDivision)
    else if remainder * 10 >= U128_BOUND then Err(Overflow)
    else
      var next := coefficient * 10 + remainder * 10 / d;
      if next >= U128_BOUND then Err(Overflow)
      else LongDivide(next, remainder * 10 % d, d, scale + 1)
  }

  /** Put the sign back and normalize. */
  function Finish(division: Result<(nat, nat), NumericError>, negative: bool): Result<Decimal, NumericError> {
    match division
    case Err(e) => Err(e)
    case Ok(c) =>
      match SignedOf(c.0, negative)
      case Err(e) => Err(e)
      case Ok(k) => if c.1 <= MAX_DECIMAL_SCALE then Ok(New(k, c.1)) else Err(ScaleOutOfRange)
  }

  function DivExact(a: Decimal, b: Decimal): Result<Decimal, NumericError> {
    match Ratio(a, b, 0)
    case Err(e) => Err(e)
    case Ok(x) => Finish(LongDivision(x.0, x.1), x.2)
  }

  function LongDivision(n: nat, d: nat): Result<(nat, nat), NumericError> {
    if d == 0 then Err(Overflow) else LongDivide(n / d, n % d, d, 0)
  }

  /** `x` has no exact coefficient at this scale. */
  ghost predicate NotWhole(x: real, scale: int) {
    Shift(x, scale) != Shift(x, scale).Floor as real
  }

  /** What long division on `x` ends in, and why. */
  ghost predicate Outcome(x: real, d: nat, scale: nat, r: Result<(nat, nat), NumericError>) {
    match r
    case Ok(c) =>
      && scale <= c.1 <= MAX_DECIMAL_SCALE && Shift(x, c.1) == c.0 as real
      && (c.1 > scale ==> NotWhole(x, c.1 - 1))
    case Err(InexactDivision) => NotWhole(x, MAX_DECIMAL_SCALE)
    case Err(Overflow) => d * 10 > U128_BOUND || exists s :: TooLargeAt(x, scale, s)
    case Err(_) => false
  }

  ghost predicate TooLargeAt(x: real, scale: int, s: int) {
    scale < s <= MAX_DECIMAL_SCALE && NotWhole(x, s - 1) && Shift(x, s) >= U128_BOUND as real
  }

  /** At every scale the coefficient and the remainder make up the quotient. */
  lemma {:induction false} LongDivideMeans(x: real, coefficient: nat, remainder: nat, d: nat, scale: nat)
    requires scale <= MAX_DECIMAL_SCALE && remainder < d
    requires Shift(x, scale) == coefficient as real + remainder as real / d as real
    ensures Outcome(x, d, scale, LongDivide(coefficient, remainder, d, scale))
    decreases MAX_DECIMAL_SCALE - scale
  {
    if remainder != 0 {
      ProperPart(remainder, d);
      PartNotWhole(x, scale, coefficient, remainder as real / d as real);
      if scale < MAX_DECIMAL_SCALE && remainder * 10 < U128_BOUND {
        var next := coefficient * 10 + remainder * 10 / d;
        NextDigit(x, scale, coefficient, remainder, d);
        if next >= U128_BOUND {
          assert TooLargeAt(x, scale, scale + 1);
        } else {
          LongDivideMeans(x, next, remainder * 10 % d, d, scale + 1);
          WidenOutcome(x, d, scale, LongDivide(next, remainder * 10 % d, d, scale + 1));
        }
      }
    } else {
      assert 0 as real / d as real == 0.0;
    }
  }

  lemma WidenOutcome(x: real, d: nat, scale: nat, r: Result<(nat, nat), NumericError>)
    requires Outcome(x, d, scale + 1, r) && NotWhole(x, scale)
    ensures Outcome(x, d, scale, r)
  {
    if r == Err(Overflow) && d * 10 <= U128_BOUND {
      var s :| TooLargeAt(x, scale + 1, s);
      assert TooLargeAt(x, scale, s);
    }
  }

  lemma ProperPart(r: nat, d: nat)
    requires 0 < r < d
    ensures 0.0 < r as real / d as real < 1.0
  {
    var part := r as real / d as real;
    assert part * d as real == r as real;
    PartOrder(0.0, part, d as real);
    PartOrder(part, 1.0, d as real);
  }

  lemma PartNotWhole(x: real, scale: int, c: int, part: real)
    requires Shift(x, scale) == c as real + part && 0.0 < part < 1.0
    ensures NotWhole(x, scale)
  {
    assert Shift(x, scale).Floor == c;
  }

  lemma NextDigit(x: real, scale: nat, c: nat, r: nat, d: nat)
    requires d > 0 && Shift(x, scale) == c as real + r as real / d as real
    ensures var next := c * 10 + r * 10 / d;
            && Shift(x, scale + 1) == next as real + (r * 10 % d) as real / d as real
            && Shift(x, scale + 1) >= next as real && r * 10 % d < d
  {
    ShiftTwice(x, scale, 1);
    var part := WholeAndPart(r * 10, d);
    var rest := WholeAndPart(r * 10 % d, d);
    TenParts(r, d);
    SmallQuotient(r * 10 % d, d);
    SplitTen(r * 10, d, part);
  }

  lemma TenParts(r: nat, d: nat)
    requires d > 0
    ensures (r * 10) as real / d as real == 10.0 * (r as real / d as real)
  {
    var p := r as real / d as real;
    RealQuotientBack(r as real, d as real);
    assert 10.0 * p * d as real == 10.0 * (p * d as real);
    RealQuotient((r * 10) as real, d as real, 10.0 * p);
  }

  lemma SmallQuotient(r: nat, d: nat)
    requires r < d
    ensures r / d == 0 && r % d == r
  {
  }

  lemma SplitTen(n: nat, d: nat, part: real)
    requires d > 0 && n as real / d as real == (n / d) as real + part
    ensures (n % d) as real / d as real == part
  {
    WholePlusPart(n, d, n / d, n % d, (n % d) as real / d as real);
  }
}
