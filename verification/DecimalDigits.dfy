/** Decimal digits of natural numbers, and moving a decimal point. */
module DecimalDigits {
  type digit = d: int | 0 <= d < 10

  function Pow10(n: nat): (r: nat)
    ensures r >= 1
  {
    if n == 0 then 1 else 10 * Pow10(n - 1)
  }

  lemma {:induction false} Pow10Monotone(m: nat, n: nat)
    requires m <= n
    ensures Pow10(m) <= Pow10(n)
  {
    if m < n { Pow10Monotone(m, n - 1); }
  }

  lemma Pow10Of18()
    ensures Pow10(18) == 1_000_000_000_000_000_000
  {
    assert Pow10(3) == 1_000;
    assert Pow10(6) == 1_000_000;
    assert Pow10(9) == 1_000_000_000;
    assert Pow10(12) == 1_000_000_000_000;
    assert Pow10(15) == 1_000_000_000_000_000;
  }

  lemma Pow10Of36()
    ensures Pow10(36) == 1_000_000_000_000_000_000_000_000_000_000_000_000
  {
    Pow10Of18();
    assert Pow10(21) == 1_000_000_000_000_000_000_000;
    assert Pow10(24) == 1_000_000_000_000_000_000_000_000;
    assert Pow10(27) == 1_000_000_000_000_000_000_000_000_000;
    assert Pow10(30) == 1_000_000_000_000_000_000_000_000_000_000;
    assert Pow10(33) == 1_000_000_000_000_000_000_000_000_000_000_000;
  }

  // ----- moving the point -----

  /** `x * 10^k`, for a `k` of either sign. */
  ghost function Shift(x: real, k: int): real
    decreases if k < 0 then -k else k
  {
    if k == 0 then x else if k > 0 then Shift(10.0 * x, k - 1) else Shift(x / 10.0, k + 1)
  }

  lemma {:induction false} ShiftIsProduct(x: real, n: nat)
    ensures Shift(x, n) == x * Pow10(n) as real
    decreases n
  {
    if n > 0 {
      ShiftIsProduct(10.0 * x, n - 1);
      TenfoldProduct(x, Pow10(n - 1) as real);
    }
  }

  lemma ShiftIsQuotient(x: real, n: nat)
    ensures Shift(x, -(n as int)) == x / Pow10(n) as real
  {
    var y := Shift(x, -(n as int));
    ShiftTwice(x, -(n as int), n);
    ShiftIsProduct(y, n);
    QuotientOf(y, Pow10(n) as real, x);
  }

  lemma QuotientOf(y: real, p: real, x: real)
    requires y * p == x && p > 0.0
    ensures y == x / p
  {
  }

  lemma TenfoldProduct(x: real, p: real)
    ensures 10.0 * x * p == x * (10.0 * p)
  {
  }

  lemma {:induction false} ShiftUp(x: real, k: int)
    ensures Shift(x, k + 1) == Shift(10.0 * x, k)
    decreases if k < 0 then -k else k
  {
    assert x == 10.0 * x / 10.0;
  }

  lemma {:induction false} ShiftTwice(x: real, j: int, k: int)
    ensures Shift(Shift(x, j), k) == Shift(x, j + k)
    decreases if j < 0 then -j else j
  {
    if j > 0 {
      ShiftTwice(10.0 * x, j - 1, k);
      ShiftUp(x, j - 1 + k);
    } else if j < 0 {
      ShiftTwice(x / 10.0, j + 1, k);
      ShiftUp(x / 10.0, j + k);
    }
  }

  lemma {:induction false} ShiftOrder(x: real, y: real, k: int)
    ensures x < y <==> Shift(x, k) < Shift(y, k)
    ensures x == y <==> Shift(x, k) == Shift(y, k)
    decreases if k < 0 then -k else k
  {
    if k > 0 {
      ShiftOrder(10.0 * x, 10.0 * y, k - 1);
    } else if k < 0 {
      ShiftOrder(x / 10.0, y / 10.0, k + 1);
    }
  }

  lemma {:induction false} ShiftSum(x: real, y: real, k: int)
    ensures Shift(x + y, k) == Shift(x, k) + Shift(y, k)
    decreases if k < 0 then -k else k
  {
    if k > 0 {
      ShiftSum(10.0 * x, 10.0 * y, k - 1);
      assert 10.0 * (x + y) == 10.0 * x + 10.0 * y;
    } else if k < 0 {
      ShiftSum(x / 10.0, y / 10.0, k + 1);
      assert (x + y) / 10.0 == x / 10.0 + y / 10.0;
    }
  }

  lemma ShiftSign(x: real, k: int)
    ensures Shift(0.0, k) == 0.0 && Shift(-x, k) == -Shift(x, k)
    ensures x > 0.0 <==> Shift(x, k) > 0.0
  {
    ShiftSum(0.0, 0.0, k);
    ShiftSum(x, -x, k);
    ShiftOrder(0.0, x, k);
  }

  /** A whole number moved left is still whole, and ends in zero. */
  lemma {:induction false} ShiftWhole(v: int, k: nat) returns (w: int)
    ensures Shift(v as real, k) == w as real
    ensures k > 0 ==> w % 10 == 0
    decreases k
  {
    if k == 0 {
      w := v;
    } else {
      assert (10 * v) as real == 10.0 * v as real;
      w := ShiftWhole(10 * v, k - 1);
    }
  }

  // ----- digits -----

  /** The digits of `n`, most significant first: none for zero. */
  function Digits(n: nat): seq<digit> {
    if n == 0 then [] else Digits(n / 10) + [n % 10]
  }

  /** The number a digit string spells. */
  function Spelled(ds: seq<digit>): nat {
    if ds == [] then 0 else 10 * Spelled(ds[..|ds| - 1]) + ds[|ds| - 1]
  }

  lemma SpelledAppend(ds: seq<digit>, d: digit)
    ensures Spelled(ds + [d]) == 10 * Spelled(ds) + d
  {
    assert (ds + [d])[..|ds|] == ds;
  }

  lemma SpelledStep(ds: seq<digit>, i: nat)
    requires i < |ds|
    ensures Spelled(ds[..i + 1]) == 10 * Spelled(ds[..i]) + ds[i]
  {
    SpelledAppend(ds[..i], ds[i]);
    assert ds[..i + 1] == ds[..i] + [ds[i]];
  }

  lemma {:induction false} SpelledPrefix(ds: seq<digit>, k: nat)
    requires k <= |ds|
    ensures Spelled(ds[..k]) <= Spelled(ds)
    decreases |ds| - k
  {
    if k < |ds| {
      SpelledPrefix(ds, k + 1);
      SpelledStep(ds, k);
    } else {
      assert ds[..k] == ds;
    }
  }

  lemma {:induction false} SpelledDigits(n: nat)
    ensures Spelled(Digits(n)) == n
    ensures n > 0 ==> Digits(n) != [] && Digits(n)[0] != 0
  {
    if n > 0 {
      SpelledDigits(n / 10);
      SpelledAppend(Digits(n / 10), n % 10);
    }
  }

  lemma {:induction false} DigitCount(n: nat, k: nat)
    ensures |Digits(n)| <= k <==> n < Pow10(k)
  {
    if n > 0 && k > 0 { DigitCount(n / 10, k - 1); }
  }

  /** The digit string read as a fraction `0.d1d2...`. */
  ghost function Fraction(ds: seq<digit>): (r: real)
    ensures 0.0 <= r < 1.0
    ensures ds != [] && ds[0] != 0 ==> r >= 0.1
  {
    if ds == [] then 0.0 else (ds[0] as real + Fraction(ds[1..])) / 10.0
  }

  lemma {:induction false} FractionAppend(ds: seq<digit>, d: digit)
    ensures Fraction(ds + [d]) == Fraction(ds) + Shift(d as real, -|ds| - 1)
  {
    if ds == [] {
      assert (ds + [d])[1..] == [];
    } else {
      FractionAppend(ds[1..], d);
      assert (ds + [d])[1..] == ds[1..] + [d];
      ShiftTwice(d as real, -|ds|, -1);
    }
  }

  /** A whole number is the fraction of its digits, moved left by their count. */
  lemma {:induction false} FractionOfDigits(n: nat)
    ensures Shift(Fraction(Digits(n)), |Digits(n)|) == n as real
  {
    if n > 0 {
      var ds, d, k := Digits(n / 10), n % 10, |Digits(n)|;
      FractionOfDigits(n / 10);
      FractionAppend(ds, d);
      ShiftSum(Fraction(ds), Shift(d as real, -k), k);
      ShiftTwice(d as real, -k, k);
      ShiftTwice(Fraction(ds), k - 1, 1);
    }
  }
}
