/** Greatest common divisors and fractions in lowest terms. */
module Fractions {
  import opened DecimalDigits

  function Gcd(a: nat, b: nat): (g: nat)
    ensures a > 0 || b > 0 ==> g > 0
    decreases b
  {
    if b == 0 then a else Gcd(b, a % b)
  }

  method GcdLoop(x: nat, y: nat) returns (g: nat)
    ensures g == Gcd(x, y)
  {
    var a, b := x, y;
    while b != 0
      invariant Gcd(a, b) == Gcd(x, y)
      decreases b
    {
      a, b := b, a % b;
    }
    g := a;
  }

  /** `g` divides both, `x` and `y` times, and is a combination of them. */
  ghost predicate Parts(a: int, b: int, g: int, x: int, y: int, s: int, t: int) {
    a == x * g && b == y * g && a * s + b * t == g
  }

  lemma {:induction false} GcdParts(a: nat, b: nat) returns (x: nat, y: nat, s: int, t: int)
    requires a > 0 || b > 0
    ensures Gcd(a, b) > 0 && Parts(a, b, Gcd(a, b), x, y, s, t)
    decreases b
  {
    if b == 0 {
      x, y, s, t := 1, 0, 1, 0;
    } else {
      var x', y', s', t' := GcdParts(b, a % b);
      x, y, s, t := GcdStep(a, b, Gcd(a, b), x', y', s', t');
    }
  }

  lemma GcdStep(a: nat, b: nat, g: nat, x': nat, y': nat, s': int, t': int) returns (x: nat, y: nat, s: int, t: int)
    requires b > 0 && Parts(b, a % b, g, x', y', s', t')
    ensures Parts(a, b, g, x, y, s, t)
  {
    var q := a / b;
    DivisionWithRemainder(a, b);
    NatProduct(q, x');
    x, y, s, t := q * x' + y', x', t', s' - q * t';
    StepParts(a, b, q, a % b, g, x', y', s', t');
  }

  lemma DivisionWithRemainder(a: nat, b: nat)
    requires b > 0
    ensures a == (a / b) * b + a % b
  {
  }

  lemma NatProduct(x: nat, y: nat)
    ensures x * y >= 0
  {
  }

  lemma StepParts(a: int, b: int, q: int, r: int, g: int, x: int, y: int, s: int, t: int)
    requires a == q * b + r && Parts(b, r, g, x, y, s, t)
    ensures Parts(a, b, g, q * x + y, x, t, s - q * t)
  {
    assert q * b == q * x * g;
    assert (q * x + y) * g == q * x * g + y * g;
    assert (q * b + r) * t == q * b * t + r * t;
    assert b * (s - q * t) == b * s - q * b * t;
  }

  ghost predicate Coprime(n: int, d: int) {
    exists s, t :: Combines(n, d, s, t)
  }

  ghost predicate Combines(n: int, d: int, s: int, t: int) {
    n * s + d * t == 1
  }

  /** Divide out the common factor. */
  function Cancel(a: nat, b: nat): (nat, nat)
    requires a > 0 || b > 0
  {
    var g := Gcd(a, b);
    NatQuotient(a, g);
    NatQuotient(b, g);
    (a / g, b / g)
  }

  lemma NatQuotient(a: nat, g: nat)
    requires g > 0
    ensures a / g >= 0
  {
  }

  lemma CancelMeans(a: nat, b: nat) returns (g: nat)
    requires a > 0 || b > 0
    ensures g == Gcd(a, b) && g > 0
    ensures a == Cancel(a, b).0 * g && b == Cancel(a, b).1 * g
    ensures Coprime(Cancel(a, b).0, Cancel(a, b).1)
  {
    var x, y, s, t := GcdParts(a, b);
    g := Gcd(a, b);
    QuotientOfProduct(x, g);
    QuotientOfProduct(y, g);
    UnitCombination(x, y, s, t, g);
    assert Combines(x, y, s, t);
  }

  lemma QuotientOfProduct(x: nat, g: nat)
    requires g > 0
    ensures (x * g) / g == x
  {
    var q, r := (x * g) / g, (x * g) % g;
    assert x * g == q * g + r;
    MultipleBelow(x - q, g, r);
  }

  /** The only multiple of `g` in `[0, g)` is zero. */
  lemma MultipleBelow(k: int, g: int, r: int)
    requires k * g == r && 0 <= r < g
    ensures k == 0 && r == 0
  {
    assert k >= 1 ==> k * g >= g;
    assert k <= -1 ==> k * g <= -g;
  }

  lemma UnitCombination(x: int, y: int, s: int, t: int, g: int)
    requires g > 0 && (x * g) * s + (y * g) * t == g
    ensures x * s + y * t == 1
  {
    assert (x * g) * s + (y * g) * t == (x * s + y * t) * g;
    var c := x * s + y * t - 1;
    assert c * g == 0;
    MultipleBelow(c, g, 0);
  }

  /** `a/b * 10^e` in lowest terms: cancel before scaling, and again with the
      power of ten. */
  function Reduced(a: nat, b: nat, e: int): (nat, nat)
    requires b > 0
  {
    ScaleBy(Cancel(a, b), e)
  }

  function ScaleBy(f: (nat, nat), e: int): (nat, nat) {
    if e >= 0 then
      var c := Cancel(Pow10(e), f.1);
      (f.0 * c.0, c.1)
    else
      var c := Cancel(Pow10(-e), f.0);
      (c.1, f.1 * c.0)
  }

  lemma ReducedMeans(a: nat, b: nat, e: int)
    requires b > 0
    ensures var (n, d) := Reduced(a, b, e);
            && d > 0 && Coprime(n, d)
            && (e >= 0 ==> n * b == d * a * Pow10(e))
            && (e < 0 ==> n * b * Pow10(-e) == d * a)
  {
    var g := CancelMeans(a, b);
    var (n0, d0) := Cancel(a, b);
    if e >= 0 {
      var c := CancelMeans(Pow10(e), d0);
      var (p, d) := Cancel(Pow10(e), d0);
      ScaledUp(n0, d, p, g, c);
      assert d > 0 by { PositiveFactors(d, c, g, b); }
      CoprimeFactor(n0, d, c);
      CoprimeProduct(n0, p, d);
    } else {
      var c := CancelMeans(Pow10(-e), n0);
      var (p, n) := Cancel(Pow10(-e), n0);
      ScaledDown(n, d0, p, g, c);
      PositiveProduct(d0, g);
      PositiveProduct(p, c);
      assert d0 * p > 0;
      CoprimeSwap(n0, d0);
      CoprimeFactor(d0, n, c);
      CoprimeProduct(d0, p, n);
      CoprimeSwap(d0 * p, n);
    }
  }

  lemma PositiveFactors(d: nat, c: nat, g: nat, b: nat)
    requires b == d * c * g && b > 0
    ensures d > 0
  {
  }

  lemma PositiveProduct(x: nat, y: nat)
    requires x * y > 0
    ensures x > 0
  {
  }

  lemma ScaledUp(n0: nat, d: nat, p: nat, g: nat, c: nat)
    ensures (n0 * p) * ((d * c) * g) == d * (n0 * g) * (p * c)
  {
    var u, v := n0 * p, d * c;
    assert (n0 * p) * ((d * c) * g) == ((n0 * p) * (d * c)) * g;
    assert (n0 * p) * (d * c) == (n0 * d) * (p * c);
    assert d * (n0 * g) == (n0 * d) * g;
    Swap(n0 * d, p * c, g);
  }

  lemma Swap(x: int, y: int, z: int)
    ensures (x * y) * z == (x * z) * y
  {
  }

  lemma ScaledDown(n: nat, d0: nat, p: nat, g: nat, c: nat)
    ensures n * (d0 * g) * (p * c) == (d0 * p) * ((n * c) * g)
  {
    ScaledUp(d0, n, p, g, c);
  }

  lemma CoprimeSwap(n: int, d: int)
    requires Coprime(n, d)
    ensures Coprime(d, n)
  {
    var s, t :| Combines(n, d, s, t);
    assert Combines(d, n, t, s);
  }

  lemma CoprimeFactor(n: int, d: int, c: int)
    requires Coprime(n, d * c)
    ensures Coprime(n, d)
  {
    var s, t :| Combines(n, d * c, s, t);
    assert d * c * t == d * (c * t);
    assert Combines(n, d, s, c * t);
  }

  lemma CoprimeProduct(n: int, p: int, d: int)
    requires Coprime(n, d) && Coprime(p, d)
    ensures Coprime(n * p, d)
  {
    var s, t :| Combines(n, d, s, t);
    var u, v :| Combines(p, d, u, v);
    ProductCombines(n, p, d, s, t, u, v);
    assert Combines(n * p, d, s * u, n * s * v + t * (p * u + d * v));
  }

  lemma ProductCombines(n: int, p: int, d: int, s: int, t: int, u: int, v: int)
    requires n * s + d * t == 1 && p * u + d * v == 1
    ensures (n * p) * (s * u) + d * (n * s * v + t * (p * u + d * v)) == 1
  {
    var x := n * s;
    assert (n * p) * (s * u) == x * (p * u);
    assert d * (x * v + t) == x * (d * v) + d * t;
    assert x * (p * u) + x * (d * v) == x * (p * u + d * v);
  }

  /** A divisor of `n * p` that shares no factor with `n` divides `p`. */
  lemma CoprimeDivides(n: int, d: int, p: int, k: int) returns (m: int)
    requires Coprime(n, d) && n * p == k * d
    ensures p == m * d
  {
    var s, t :| Combines(n, d, s, t);
    m := k * s + p * t;
    assert p == p * (n * s + d * t);
    assert p * (n * s) == (n * p) * s;
    assert (k * d) * s == k * s * d;
    assert p * (d * t) == p * t * d;
    assert (k * s + p * t) * d == k * s * d + p * t * d;
    assert p * (n * s + d * t) == p * (n * s) + p * (d * t);
  }
}
