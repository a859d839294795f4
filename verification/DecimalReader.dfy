/** Reading a canonical decimal back. Negatives are complemented byte by byte as
    they are read, with no length known in advance. */
module DecimalReader {
  import opened CanonBytes
  import opened IntCodec
  import opened DecimalDigits
  import opened Decimal

  function Xf(negate: bool, s: seq<byte>): (r: seq<byte>)
    ensures |r| == |s|
  {
    if negate then Complement(s) else s
  }

  /** The digits up to the terminator, and the bytes they took with it. */
  function ScanDigits(src: seq<byte>): Result<(seq<digit>, nat), CanonError> {
    if src == [] then Err(UnexpectedEof)
    else if src[0] == 0 then Ok(([], 1))
    else if src[0] > 10 then Err(BadLength)
    else Prepend([src[0] - 1], ScanDigits(src[1..]))
  }

  function Prepend(ds: seq<digit>, scan: Result<(seq<digit>, nat), CanonError>): Result<(seq<digit>, nat), CanonError> {
    match scan
    case Err(e) => Err(e)
    case Ok(x) => Ok((ds + x.0, |ds| + x.1))
  }

  lemma PrependTwice(ds: seq<digit>, d: digit, scan: Result<(seq<digit>, nat), CanonError>)
    ensures Prepend(ds, Prepend([d], scan)) == Prepend(ds + [d], scan)
    ensures Prepend([], scan) == scan
  {
    if scan.Ok? {
      assert ds + ([d] + scan.value.0) == ds + [d] + scan.value.0;
      assert [] + scan.value.0 == scan.value.0;
    }
  }

  function Signed(negate: bool, ds: seq<digit>): int {
    if negate then 0 - Spelled(ds) else Spelled(ds)
  }

  /** The number a sign and a digit string denote, if an i128 holds it. */
  function Coefficient(negate: bool, ds: seq<digit>): Result<i128, CanonError> {
    var v := Signed(negate, ds);
    if -I128_BOUND <= v < I128_BOUND then Ok(v) else Err(BadLength)
  }

  function ScanExponent(src: seq<byte>): (r: Result<(int, nat), CanonError>)
    ensures r.Ok? ==> r.value.1 <= |src|
  {
    match DecodeInt(src)
    case Err(e) => Err(e)
    case Ok(e) => if -I64_BOUND <= e.0 < I64_BOUND then Ok(e) else Err(BadLength)
  }

  /** The exponent and digits of an uncomplemented magnitude, and its length. */
  function ScanParts(src: seq<byte>): Result<(int, seq<digit>, nat), CanonError> {
    match ScanExponent(src)
    case Err(e) => Err(e)
    case Ok(exponent) =>
      match ScanDigits(src[exponent.1..])
      case Err(e) => Err(e)
      case Ok(digits) => Ok((exponent.0, digits.0, exponent.1 + digits.1))
  }

  function ScanMagnitude(negate: bool, src: seq<byte>): Result<(Decimal, nat), CanonError> {
    match ScanParts(src)
    case Err(e) => Err(e)
    case Ok(parts) =>
      match Assemble(negate, parts.1, parts.0)
      case Err(e) => Err(e)
      case Ok(d) => Ok((d, parts.2))
  }

  function Assemble(negate: bool, digits: seq<digit>, exponent: int): Result<Decimal, CanonError> {
    var scale := |digits| - 1 - exponent;
    if digits == [] || !(0 <= scale < 256) then Err(BadLength)
    else
      match Coefficient(negate, digits)
      case Err(e) => Err(e)
      case Ok(v) => Ok(New(v, scale))
  }

  /** A decimal at the front of `buf`, and how many bytes it took. */
  function ReadDecimal(buf: seq<byte>): Result<(Decimal, nat), CanonError> {
    if buf == [] then Err(UnexpectedEof)
    else if buf[0] == SIGN_ZERO then Ok((Decimal(0, 0), 1))
    else if buf[0] != SIGN_NEG && buf[0] != SIGN_POS then Err(BadLength)
    else
      match ScanMagnitude(buf[0] == SIGN_NEG, Xf(buf[0] == SIGN_NEG, buf[1..]))
      case Err(e) => Err(e)
      case Ok(d) => Ok((d.0, 1 + d.1))
  }

  // ----- round trip -----

  /** Reading any canonical encoding, i128::MIN included, gives the value back
      and takes exactly its bytes, whatever comes after. */
  lemma ReadBack(d: Decimal, rest: seq<byte>)
    requires Normal(d)
    ensures ReadDecimal(DecimalBytes(d) + rest) == Ok((d, |DecimalBytes(d)|))
  {
    if d.unscaled == 0 { ReadBackZero(d, rest); } else { ReadBackSigned(d, rest); }
  }

  lemma ReadBackZero(d: Decimal, rest: seq<byte>)
    requires Normal(d) && d.unscaled == 0
    ensures ReadDecimal(DecimalBytes(d) + rest) == Ok((d, |DecimalBytes(d)|))
  {
    assert d == Decimal(0, 0);
    assert ([SIGN_ZERO] + rest)[0] == SIGN_ZERO;
  }

  lemma ReadBackSigned(d: Decimal, rest: seq<byte>)
    requires Normal(d) && d.unscaled != 0
    ensures ReadDecimal(DecimalBytes(d) + rest) == Ok((d, |DecimalBytes(d)|))
  {
    var magnitude := MagnitudeBytes(Abs(d.unscaled), d.scale);
    ScanPartsBack(Abs(d.unscaled), d.scale, Xf(d.unscaled < 0, rest));
    ReadSigned(d, magnitude, rest);
    BytesBySign(d);
  }

  lemma BytesBySign(d: Decimal)
    requires d.unscaled != 0
    ensures DecimalBytes(d) ==
            [if d.unscaled < 0 then SIGN_NEG else SIGN_POS] + Xf(d.unscaled < 0, MagnitudeBytes(Abs(d.unscaled), d.scale))
  {
  }

  /** Reading back from the sign, for any bytes that scan to the right parts. */
  lemma ReadSigned(d: Decimal, magnitude: seq<byte>, rest: seq<byte>)
    requires Normal(d) && d.unscaled != 0
    requires ScanParts(magnitude + Xf(d.unscaled < 0, rest)) ==
             Ok((Exponent(Abs(d.unscaled), d.scale), Digits(Abs(d.unscaled)), |magnitude|))
    ensures var sign := if d.unscaled < 0 then SIGN_NEG else SIGN_POS;
            ReadDecimal([sign] + Xf(d.unscaled < 0, magnitude) + rest) == Ok((d, 1 + |magnitude|))
  {
    var negate := d.unscaled < 0;
    var sign := if negate then SIGN_NEG else SIGN_POS;
    Front(sign, Xf(negate, magnitude), rest);
    Uncomplement(negate, magnitude, rest);
    AssembleBack(d);
  }

  lemma AssembleBack(d: Decimal)
    requires Normal(d) && d.unscaled != 0
    ensures Assemble(d.unscaled < 0, Digits(Abs(d.unscaled)), Exponent(Abs(d.unscaled), d.scale)) == Ok(d)
  {
    SpelledDigits(Abs(d.unscaled));
    assert New(d.unscaled, d.scale) == d;
  }

  lemma Front(b: byte, s: seq<byte>, t: seq<byte>)
    ensures ([b] + s + t)[0] == b && ([b] + s + t)[1..] == s + t
  {
  }

  lemma Uncomplement(negate: bool, magnitude: seq<byte>, rest: seq<byte>)
    ensures Xf(negate, Xf(negate, magnitude) + rest) == magnitude + Xf(negate, rest)
  {
  }

  lemma ScanPartsBack(m: nat, scale: u8, rest: seq<byte>)
    requires m <= I128_BOUND
    ensures ScanParts(MagnitudeBytes(m, scale) + rest) ==
            Ok((Exponent(m, scale), Digits(m), |MagnitudeBytes(m, scale)|))
  {
    MagnitudeIs(m, scale, Exponent(m, scale), Digits(m));
    BytesScanned(MagnitudeBytes(m, scale), Exponent(m, scale), Digits(m), rest);
  }

  lemma BytesScanned(bytes: seq<byte>, e: int, ds: seq<digit>, rest: seq<byte>)
    requires -I64_BOUND <= e < I64_BOUND && bytes == IntBytes(e) + Terminated(ds)
    ensures ScanParts(bytes + rest) == Ok((e, ds, |bytes|))
  {
    PartsScanned(e, ds, rest);
  }

  lemma MagnitudeIs(m: nat, scale: u8, e: int, ds: seq<digit>)
    requires m <= I128_BOUND && e == Exponent(m, scale) && ds == Digits(m)
    ensures -256 <= e <= 38 && MagnitudeBytes(m, scale) == IntBytes(e) + Terminated(ds)
  {
    ExponentRange(m, scale);
  }

  lemma PartsScanned(e: i128, ds: seq<digit>, rest: seq<byte>)
    requires -I64_BOUND <= e < I64_BOUND
    ensures ScanParts(IntBytes(e) + Terminated(ds) + rest) == Ok((e, ds, |IntBytes(e)| + |Terminated(ds)|))
  {
    var tail := Terminated(ds) + rest;
    ScanExponentBack(e, tail);
    ScanDigitsBack(ds, rest);
    ScanPartsOf(IntBytes(e) + tail, e, |IntBytes(e)|, ds, |Terminated(ds)|);
    Regroup(IntBytes(e), Terminated(ds), rest);
  }

  lemma ScanPartsOf(src: seq<byte>, e: int, k: nat, ds: seq<digit>, n: nat)
    requires ScanExponent(src) == Ok((e, k)) && ScanDigits(src[k..]) == Ok((ds, n))
    ensures ScanParts(src) == Ok((e, ds, k + n))
  {
  }

  lemma Regroup(a: seq<byte>, b: seq<byte>, c: seq<byte>)
    ensures a + b + c == a + (b + c)
  {
  }

  lemma ScanExponentBack(e: i128, tail: seq<byte>)
    requires -I64_BOUND <= e < I64_BOUND
    ensures ScanExponent(IntBytes(e) + tail) == Ok((e, |IntBytes(e)|))
    ensures (IntBytes(e) + tail)[|IntBytes(e)|..] == tail
  {
    DecodeIntExact(IntBytes(e) + tail, e, |IntBytes(e)|);
  }

  lemma {:induction false} ScanDigitsBack(ds: seq<digit>, rest: seq<byte>)
    ensures ScanDigits(Terminated(ds) + rest) == Ok((ds, |Terminated(ds)|))
  {
    if ds == [] {
      assert (Terminated(ds) + rest)[0] == 0;
    } else {
      ScanDigitsBack(ds[1..], rest);
      TerminatedStep(ds);
      assert (Terminated(ds) + rest)[1..] == Terminated(ds[1..]) + rest;
      assert [ds[0]] + ds[1..] == ds;
    }
  }

  // ----- everything that is read -----

  /** The bytes of an exponent and digits, behind a sign. */
  function PartsBytes(negate: bool, e: i128, ds: seq<digit>): seq<byte> {
    [if negate then SIGN_NEG else SIGN_POS] + Xf(negate, IntBytes(e) + Terminated(ds))
  }

  /** An exponent and at least one digit, zeros anywhere included, whose scale is a
      byte and whose coefficient is an i128. */
  predicate Admissible(negate: bool, e: i128, ds: seq<digit>) {
    -I64_BOUND <= e < I64_BOUND && ds != [] && 0 <= |ds| - 1 - e < 256 && -I128_BOUND <= Signed(negate, ds) < I128_BOUND
  }

  ghost predicate Spells(buf: seq<byte>, d: Decimal, n: nat, negate: bool, e: i128, ds: seq<digit>) {
    && Admissible(negate, e, ds) && n == |PartsBytes(negate, e, ds)| && PartsBytes(negate, e, ds) <= buf
    && d == New(Signed(negate, ds), |ds| - 1 - e)
  }

  lemma {:induction false} ScanDigitsTaken(src: seq<byte>)
    requires ScanDigits(src).Ok?
    ensures var (ds, n) := ScanDigits(src).value; n == |Terminated(ds)| && Terminated(ds) <= src
  {
    var (ds, n) := ScanDigits(src).value;
    if src[0] == 0 {
      assert Terminated([]) == [0];
    } else {
      ScanDigitsTaken(src[1..]);
      TerminatedStep(ds);
      assert ds[1..] == ScanDigits(src[1..]).value.0;
      assert src == [src[0]] + src[1..];
    }
  }

  lemma ScanPartsExact(src: seq<byte>, e: i128, ds: seq<digit>, n: nat)
    ensures ScanParts(src) == Ok((e, ds, n)) <==>
            -I64_BOUND <= e < I64_BOUND && n == |IntBytes(e) + Terminated(ds)| && IntBytes(e) + Terminated(ds) <= src
  {
    if ScanParts(src) == Ok((e, ds, n)) { ScanPartsTaken(src, e, ds, n); }
    if -I64_BOUND <= e < I64_BOUND && IntBytes(e) + Terminated(ds) <= src {
      var rest := src[|IntBytes(e) + Terminated(ds)|..];
      assert src == IntBytes(e) + Terminated(ds) + rest;
      PartsScanned(e, ds, rest);
    }
  }

  lemma ScanPartsTaken(src: seq<byte>, e: i128, ds: seq<digit>, n: nat)
    requires ScanParts(src) == Ok((e, ds, n))
    ensures -I64_BOUND <= e < I64_BOUND && n == |IntBytes(e) + Terminated(ds)| && IntBytes(e) + Terminated(ds) <= src
  {
    var k := ScanExponent(src).value.1;
    DecodeIntExact(src, e, k);
    ScanDigitsTaken(src[k..]);
    assert src == src[..k] + src[k..];
  }

  lemma XfTwice(negate: bool, s: seq<byte>)
    ensures Xf(negate, Xf(negate, s)) == s
  {
  }

  lemma XfPrefix(negate: bool, s: seq<byte>, t: seq<byte>)
    requires s <= t
    ensures Xf(negate, s) <= Xf(negate, t)
  {
    assert Xf(negate, t)[..|s|] == Xf(negate, t[..|s|]);
  }

  /** The reader accepts exactly these bytes: the zero sign; or a sign, an exponent,
      digits and the terminator, complemented behind the negative sign. */
  lemma ReadExact(buf: seq<byte>, d: Decimal, n: nat)
    ensures ReadDecimal(buf) == Ok((d, n)) <==>
            (buf != [] && buf[0] == SIGN_ZERO && d == Decimal(0, 0) && n == 1) || exists negate, e, ds :: Spells(buf, d, n, negate, e, ds)
  {
    if ReadDecimal(buf) == Ok((d, n)) && buf[0] != SIGN_ZERO {
      var e, ds := ReadTaken(buf, d, n);
    }
    forall negate, e, ds | Spells(buf, d, n, negate, e, ds) ensures ReadDecimal(buf) == Ok((d, n)) {
      SpelledReads(buf, d, n, negate, e, ds);
    }
  }

  /** Behind a sign, reading is scanning and assembling. */
  lemma ReadScans(buf: seq<byte>, negate: bool, src: seq<byte>)
    requires buf != [] && buf[0] == (if negate then SIGN_NEG else SIGN_POS) && src == Xf(negate, buf[1..])
    ensures ReadDecimal(buf).Ok? <==> ScanParts(src).Ok? && Assemble(negate, ScanParts(src).value.1, ScanParts(src).value.0).Ok?
    ensures ReadDecimal(buf).Ok? ==>
              ReadDecimal(buf).value == (Assemble(negate, ScanParts(src).value.1, ScanParts(src).value.0).value, 1 + ScanParts(src).value.2)
  {
  }

  lemma AssembleExact(negate: bool, ds: seq<digit>, e: i128, d: Decimal)
    requires -I64_BOUND <= e < I64_BOUND
    ensures Assemble(negate, ds, e) == Ok(d) <==> Admissible(negate, e, ds) && d == New(Signed(negate, ds), |ds| - 1 - e)
  {
  }

  lemma ReadTaken(buf: seq<byte>, d: Decimal, n: nat) returns (e: i128, ds: seq<digit>)
    requires ReadDecimal(buf) == Ok((d, n)) && buf[0] != SIGN_ZERO
    ensures Spells(buf, d, n, buf[0] == SIGN_NEG, e, ds)
  {
    var negate := buf[0] == SIGN_NEG;
    var src := Xf(negate, buf[1..]);
    ReadScans(buf, negate, src);
    var parts := ScanParts(src).value;
    e, ds := parts.0, parts.1;
    ScanPartsExact(src, e, ds, parts.2);
    AssembleExact(negate, ds, e, d);
    XfPrefix(negate, IntBytes(e) + Terminated(ds), src);
    XfTwice(negate, buf[1..]);
    SignInFront(buf, buf[0], Xf(negate, IntBytes(e) + Terminated(ds)));
  }

  lemma SignInFront(buf: seq<byte>, sign: byte, body: seq<byte>)
    requires buf != []
    ensures [sign] + body <= buf <==> buf[0] == sign && body <= buf[1..]
  {
    if [sign] + body <= buf {
      assert buf[0] == ([sign] + body)[0] && body == ([sign] + body)[1..];
      assert body == buf[1..][..|body|];
    }
    if buf[0] == sign && body <= buf[1..] { assert buf == [sign] + buf[1..]; }
  }

  lemma SpelledReads(buf: seq<byte>, d: Decimal, n: nat, negate: bool, e: i128, ds: seq<digit>)
    requires Spells(buf, d, n, negate, e, ds)
    ensures ReadDecimal(buf) == Ok((d, n))
  {
    var body := IntBytes(e) + Terminated(ds);
    var src := Xf(negate, buf[1..]);
    SignInFront(buf, if negate then SIGN_NEG else SIGN_POS, Xf(negate, body));
    XfPrefix(negate, Xf(negate, body), buf[1..]);
    XfTwice(negate, body);
    ScanPartsExact(src, e, ds, |body|);
    AssembleExact(negate, ds, e, d);
    ReadScans(buf, negate, src);
  }

  lemma DigitsStep(n: nat, d: digit)
    requires n > 0 || d > 0
    ensures Digits(10 * n + d) == Digits(n) + [d]
  {
    assert (10 * n + d) / 10 == n && (10 * n + d) % 10 == d;
  }

  lemma DigitsAppend(ds: seq<digit>, d: digit)
    requires Digits(Spelled(ds)) == ds && (ds != [] || d > 0)
    ensures Digits(Spelled(ds + [d])) == ds + [d] && Spelled(ds + [d]) > 0
  {
    SpelledAppend(ds, d);
    if ds != [] { assert Spelled(ds) != 0; }
    DigitsStep(Spelled(ds), d);
  }

  lemma {:induction false} DigitsSpelled(ds: seq<digit>)
    requires ds != [] && ds[0] != 0
    ensures Digits(Spelled(ds)) == ds && Spelled(ds) > 0
  {
    var k := |ds| - 1;
    if k > 0 { DigitsSpelled(ds[..k]); }
    DigitsAppend(ds[..k], ds[k]);
    assert ds == ds[..k] + [ds[k]];
  }

  /** Of the bytes that are read, those with no zero in front of the digits and none
      behind the point at the end are the encoder's, and only those. */
  lemma CanonicalBytes(buf: seq<byte>, d: Decimal, n: nat, negate: bool, e: i128, ds: seq<digit>)
    requires Spells(buf, d, n, negate, e, ds)
    ensures buf[..n] == DecimalBytes(d) <==> ds[0] != 0 && (|ds| - 1 > e ==> ds[|ds| - 1] != 0)
  {
    var scale := |ds| - 1 - e;
    NewDenotes(Signed(negate, ds), scale);
    if ds[0] != 0 && (scale > 0 ==> ds[|ds| - 1] != 0) { SpelledIsEncoded(d, negate, e, ds); }
    if PartsBytes(negate, e, ds) == DecimalBytes(d) { EncodedIsCanonical(d, negate, e, ds); }
  }

  lemma SpelledIsEncoded(d: Decimal, negate: bool, e: i128, ds: seq<digit>)
    requires Admissible(negate, e, ds) && d == New(Signed(negate, ds), |ds| - 1 - e)
    requires ds[0] != 0 && (|ds| - 1 > e ==> ds[|ds| - 1] != 0)
    ensures PartsBytes(negate, e, ds) == DecimalBytes(d)
  {
    SignedDigits(negate, ds);
    if |ds| - 1 > e { LastOf(negate, ds); }
    NormalEncoded(d, Signed(negate, ds), |ds| - 1 - e, e, ds);
  }

  lemma NormalEncoded(d: Decimal, v: i128, scale: u8, e: i128, ds: seq<digit>)
    requires v != 0 && (scale > 0 ==> v % 10 != 0) && d == New(v, scale)
    requires Digits(Abs(v)) == ds && e == |ds| - 1 - scale
    ensures DecimalBytes(d) == PartsBytes(v < 0, e, ds)
  {
    NewStays(v, scale);
    EncodedOf(v, scale, e, ds);
  }

  lemma SignedDigits(negate: bool, ds: seq<digit>)
    requires ds != [] && ds[0] != 0
    ensures var v := Signed(negate, ds); v != 0 && (v < 0 <==> negate) && Digits(Abs(v)) == ds
  {
    DigitsSpelled(ds);
  }

  lemma EncodedOf(v: i128, scale: u8, e: i128, ds: seq<digit>)
    requires v != 0 && Digits(Abs(v)) == ds && e == |ds| - 1 - scale
    ensures DecimalBytes(Decimal(v, scale)) == PartsBytes(v < 0, e, ds)
  {
    BytesBySign(Decimal(v, scale));
  }

  lemma NewStays(u: i128, s: u8)
    requires u != 0 && (s > 0 ==> u % 10 != 0)
    ensures New(u, s) == Decimal(u, s)
  {
  }

  lemma LastOf(negate: bool, ds: seq<digit>)
    requires ds != [] && ds[|ds| - 1] != 0
    ensures Signed(negate, ds) % 10 != 0
  {
  }

  lemma EncodedIsCanonical(d: Decimal, negate: bool, e: i128, ds: seq<digit>)
    requires Admissible(negate, e, ds) && Normal(d) && PartsBytes(negate, e, ds) == DecimalBytes(d)
    ensures ds[0] != 0 && (|ds| - 1 > e ==> ds[|ds| - 1] != 0)
  {
    var m := Abs(d.unscaled);
    assert PartsBytes(negate, e, ds)[0] != SIGN_ZERO;
    BytesBySign(d);
    assert PartsBytes(negate, e, ds)[0] == DecimalBytes(d)[0];
    var src := IntBytes(e) + Terminated(ds);
    assert Xf(negate, src) == PartsBytes(negate, e, ds)[1..] == Xf(negate, MagnitudeBytes(m, d.scale));
    XfTwice(negate, src);
    XfTwice(negate, MagnitudeBytes(m, d.scale));
    ScanPartsExact(src, e, ds, |src|);
    ExponentRange(m, d.scale);
    ScanPartsExact(src, Exponent(m, d.scale), Digits(m), |src|);
    LastDigit(d.unscaled);
    SpelledDigits(m);
  }

  // ----- the reader -----

  method ReadByte(r: CanonReader, negate: bool) returns (res: Result<byte, CanonError>)
    modifies r
    ensures var src := Xf(negate, old(r.Rest()));
            if src == [] then res == Err(UnexpectedEof)
            else res == Ok(src[0]) && Xf(negate, r.Rest()) == src[1..]
  {
    var b := r.ReadU8();
    if b.Err? { return b; }
    res := Ok(if negate then 255 - b.value else b.value);
    assert Xf(negate, r.Rest()) == Xf(negate, old(r.Rest()))[1..];
  }

  method ReadExponent(r: CanonReader, negate: bool) returns (res: Result<int, CanonError>)
    modifies r
    ensures var src := Xf(negate, old(r.Rest()));
            match ScanExponent(src)
            case Err(e) => res == Err(e)
            case Ok(x) => res == Ok(x.0) && x.1 <= |src| && Xf(negate, r.Rest()) == src[x.1..]
  {
    ghost var src := Xf(negate, r.Rest());
    var cat := ReadByte(r, negate);
    if cat.Err? { return Err(cat.error); }
    var ilen := Abs(cat.value - INT_ZERO_CATEGORY);
    if ilen > 16 { return Err(BadLength); }
    var body := ReadBytes(r, negate, ilen);
    if body.Err? { return Err(body.error); }
    SelfDelimiting(src);
    assert src[..1 + ilen] == [cat.value] + body.value;
    var e := ReadInt([cat.value] + body.value);
    if e.Err? { return Err(e.error); }
    if !(-I64_BOUND <= e.value.0 < I64_BOUND) { return Err(BadLength); }
    res := Ok(e.value.0);
  }

  method ReadBytes(r: CanonReader, negate: bool, n: nat) returns (res: Result<seq<byte>, CanonError>)
    modifies r
    ensures var src := Xf(negate, old(r.Rest()));
            if |src| < n then res == Err(UnexpectedEof)
            else res == Ok(src[..n]) && Xf(negate, r.Rest()) == src[n..]
  {
    ghost var src := Xf(negate, r.Rest());
    var bytes: seq<byte> := [];
    for i := 0 to n
      invariant i <= |src| && bytes == src[..i] && Xf(negate, r.Rest()) == src[i..]
    {
      DropStep(src, i);
      var b := ReadByte(r, negate);
      if b.Err? { return Err(b.error); }
      bytes := bytes + [b.value];
    }
    res := Ok(bytes);
  }

  lemma DropStep(src: seq<byte>, k: nat)
    requires k <= |src|
    ensures k == |src| <==> src[k..] == []
    ensures k < |src| ==> src[k..][0] == src[k] && src[k..][1..] == src[k + 1..]
    ensures k == 0 ==> src[k..] == src
  {
  }

  lemma DropTwice(src: seq<byte>, n: nat, m: nat)
    requires n + m <= |src|
    ensures src[n..][m..] == src[n + m..]
  {
  }

  /** An integer encoding's first byte tells where it ends. */
  lemma SelfDelimiting(src: seq<byte>)
    requires src != [] && Abs(src[0] - INT_ZERO_CATEGORY) <= 16 && 1 + Abs(src[0] - INT_ZERO_CATEGORY) <= |src|
    ensures var n := 1 + Abs(src[0] - INT_ZERO_CATEGORY);
            DecodeInt(src[..n]) == DecodeInt(src) && (DecodeInt(src).Ok? ==> DecodeInt(src).value.1 == n)
  {
    var n := 1 + Abs(src[0] - INT_ZERO_CATEGORY);
    assert src[..n][1..n] == src[1..n];
  }

  method ReadDigits(r: CanonReader, negate: bool) returns (res: Result<seq<digit>, CanonError>)
    modifies r
    ensures var src := Xf(negate, old(r.Rest()));
            match ScanDigits(src)
            case Err(e) => res == Err(e)
            case Ok(x) => res == Ok(x.0) && x.1 <= |src| && Xf(negate, r.Rest()) == src[x.1..]
  {
    ghost var src := Xf(negate, r.Rest());
    var digits: seq<digit> := [];
    ghost var left := src;
    ScannedStart(src);
    while true
      invariant Scanned(src, digits, left) && Xf(negate, r.Rest()) == left
      decreases |left|
    {
      var b := ReadByte(r, negate);
      if b.Err? { return Err(b.error); }
      ScannedStep(src, digits, left);
      if b.value == 0 { return Ok(digits); }
      if b.value > 10 { return Err(BadLength); }
      digits := digits + [b.value - 1];
      left := left[1..];
    }
  }

  /** After the digits read so far, the scan goes on with what is left. */
  ghost predicate Scanned(src: seq<byte>, digits: seq<digit>, left: seq<byte>) {
    && |digits| <= |src| && left == src[|digits|..]
    && ScanDigits(src) == Prepend(digits, ScanDigits(left))
  }

  lemma ScannedStart(src: seq<byte>)
    ensures Scanned(src, [], src)
  {
    PrependTwice([], 0, ScanDigits(src));
  }

  lemma ScannedStep(src: seq<byte>, digits: seq<digit>, left: seq<byte>)
    requires Scanned(src, digits, left) && left != []
    ensures |digits| < |src| && left[1..] == src[|digits| + 1..]
    ensures left[0] == 0 ==> ScanDigits(src) == Ok((digits, |digits| + 1))
    ensures left[0] > 10 ==> ScanDigits(src) == Err(BadLength)
    ensures 0 < left[0] <= 10 ==> Scanned(src, digits + [left[0] - 1], left[1..])
  {
    if left[0] == 0 { assert digits + [] == digits; }
    if 0 < left[0] <= 10 { PrependTwice(digits, left[0] - 1, ScanDigits(left[1..])); }
  }

  /** Accumulate with the sign applied to every step, so that i128::MIN needs no
      positive intermediate; a step overflows exactly when the whole does. */
  method AccumulateDigits(negate: bool, digits: seq<digit>) returns (res: Result<i128, CanonError>)
    ensures res == Coefficient(negate, digits)
  {
    var unscaled: i128 := 0;
    for i := 0 to |digits|
      invariant unscaled == Signed(negate, digits[..i])
    {
      SpelledStep(digits, i);
      SpelledPrefix(digits, i + 1);
      var product: int := unscaled * 10;
      if !(-I128_BOUND <= product < I128_BOUND) { return Err(BadLength); }
      var next: int := if negate then product - digits[i] else product + digits[i];
      if !(-I128_BOUND <= next < I128_BOUND) { return Err(BadLength); }
      unscaled := next;
    }
    assert digits[..|digits|] == digits;
    res := Ok(unscaled);
  }

  method Read(r: CanonReader) returns (res: Result<Decimal, CanonError>)
    modifies r
    ensures match ReadDecimal(old(r.Rest()))
            case Err(e) => res == Err(e)
            case Ok(x) => res == Ok(x.0) && x.1 <= |old(r.Rest())| && r.Rest() == old(r.Rest())[x.1..]
  {
    var sign := r.ReadU8();
    if sign.Err? { return Err(sign.error); }
    if sign.value == SIGN_ZERO { return Ok(Decimal(0, 0)); }
    if sign.value != SIGN_NEG && sign.value != SIGN_POS { return Err(BadLength); }
    res := ReadMagnitude(r, sign.value == SIGN_NEG);
  }

  method ReadMagnitude(r: CanonReader, negate: bool) returns (res: Result<Decimal, CanonError>)
    modifies r
    ensures match ScanMagnitude(negate, Xf(negate, old(r.Rest())))
            case Err(e) => res == Err(e)
            case Ok(x) => res == Ok(x.0) && x.1 <= |old(r.Rest())| && r.Rest() == old(r.Rest())[x.1..]
  {
    ghost var before := r.Rest();
    var parts := ReadParts(r, negate);
    if parts.Err? { return Err(parts.error); }
    XfInjective(negate, before, r.Rest(), ScanParts(Xf(negate, before)).value.2);
    res := BuildDecimal(negate, parts.value.1, parts.value.0);
  }

  method ReadParts(r: CanonReader, negate: bool) returns (res: Result<(int, seq<digit>), CanonError>)
    modifies r
    ensures var src := Xf(negate, old(r.Rest()));
            match ScanParts(src)
            case Err(e) => res == Err(e)
            case Ok(x) => res == Ok((x.0, x.1)) && x.2 <= |src| && Xf(negate, r.Rest()) == src[x.2..]
  {
    ghost var src := Xf(negate, r.Rest());
    var exponent := ReadExponent(r, negate);
    if exponent.Err? { return Err(exponent.error); }
    ghost var n := ScanExponent(src).value.1;
    var digits := ReadDigits(r, negate);
    if digits.Err? { return Err(digits.error); }
    DropTwice(src, n, ScanDigits(src[n..]).value.1);
    res := Ok((exponent.value, digits.value));
  }

  /** Equal bytes after complementing were equal before. */
  lemma XfInjective(negate: bool, s: seq<byte>, t: seq<byte>, k: nat)
    requires k <= |s| && Xf(negate, t) == Xf(negate, s)[k..]
    ensures t == s[k..]
  {
    forall i | 0 <= i < |t| ensures t[i] == s[k + i] {
      assert Xf(negate, t)[i] == Xf(negate, s)[k + i];
    }
  }

  method BuildDecimal(negate: bool, digits: seq<digit>, exponent: int) returns (res: Result<Decimal, CanonError>)
    ensures res == Assemble(negate, digits, exponent)
  {
    if digits == [] { return Err(BadLength); }
    var scale := |digits| - 1 - exponent;
    if !(0 <= scale < 256) { return Err(BadLength); }
    var unscaled := AccumulateDigits(negate, digits);
    if unscaled.Err? { return Err(unscaled.error); }
    var d := NewDecimal(unscaled.value, scale);
    res := Ok(d);
  }
}
