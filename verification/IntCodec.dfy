/** Order-preserving minimal-length integer encoding: a length or category byte,
    then the minimal big-endian magnitude. */
module IntCodec {
  import opened CanonBytes

  const U128_BOUND: int := 0x1_0000_0000_0000_0000_0000_0000_0000_0000
  const I128_BOUND: int := 0x8000_0000_0000_0000_0000_0000_0000_0000
  const INT_ZERO_CATEGORY: byte := 0x80
  const MAX_MAG_LEN: nat := 16

  type u128 = x: int | 0 <= x < U128_BOUND
  type i128 = x: int | -I128_BOUND <= x < I128_BOUND

  // ----- magnitudes -----

  /** The minimal big-endian digits of `n` in base 256: none for zero. */
  function BigEndian(n: nat): seq<byte> {
    if n == 0 then [] else BigEndian(n / 256) + [n % 256]
  }

  /** The number a byte string spells. */
  function Magnitude(s: seq<byte>): nat {
    if s == [] then 0 else 256 * Magnitude(s[..|s| - 1]) + s[|s| - 1]
  }

  function Pow256(n: nat): (r: nat)
    ensures r >= 1
  {
    if n == 0 then 1 else 256 * Pow256(n - 1)
  }

  lemma {:induction false} MagnitudeOfBigEndian(n: nat)
    ensures Magnitude(BigEndian(n)) == n
    ensures n > 0 ==> BigEndian(n) != [] && BigEndian(n)[0] != 0
  {
    if n > 0 {
      MagnitudeOfBigEndian(n / 256);
      assert BigEndian(n)[..|BigEndian(n)| - 1] == BigEndian(n / 256);
    }
  }

  lemma {:induction false} BigEndianOfMagnitude(s: seq<byte>)
    requires s != [] ==> s[0] != 0
    ensures BigEndian(Magnitude(s)) == s
    ensures s != [] ==> Magnitude(s) > 0
  {
    if s != [] {
      BigEndianOfMagnitude(s[..|s| - 1]);
    }
  }

  lemma {:induction false} MagnitudeBound(s: seq<byte>)
    ensures Magnitude(s) < Pow256(|s|)
  {
    if s != [] { MagnitudeBound(s[..|s| - 1]); }
  }

  lemma {:induction false} BigEndianLength(n: nat, k: nat)
    ensures |BigEndian(n)| <= k <==> n < Pow256(k)
  {
    if n > 0 && k > 0 { BigEndianLength(n / 256, k - 1); }
  }

  lemma Pow256Sixteen()
    ensures Pow256(16) == U128_BOUND
  {
    assert Pow256(4) == 0x1_0000_0000;
    assert Pow256(8) == 0x1_0000_0000_0000_0000;
    assert Pow256(12) == 0x1_0000_0000_0000_0000_0000_0000;
  }

  lemma U128Length(n: nat)
    ensures |BigEndian(n)| <= 16 <==> n < U128_BOUND
  {
    BigEndianLength(n, 16);
    Pow256Sixteen();
  }

  /** Equal lengths compare as the numbers they spell. */
  lemma {:induction false} SameLengthOrder(a: seq<byte>, b: seq<byte>)
    requires |a| == |b|
    ensures Magnitude(a) < Magnitude(b) ==> SplitBelow(a, b)
    ensures Magnitude(a) == Magnitude(b) ==> a == b
  {
    if a != [] {
      var p, q := a[..|a| - 1], b[..|b| - 1];
      var x, y := a[|a| - 1], b[|b| - 1];
      SameLengthOrder(p, q);
      assert a == p + [x] && b == q + [y];
      if Magnitude(a) < Magnitude(b) {
        if Magnitude(p) < Magnitude(q) {
          SplitAppend(p, q, [x], [y]);
        } else {
          assert SplitBelow([x], [y]);
          SplitPrefix(p, [x], [y]);
        }
      }
    }
  }

  /** A longer magnitude is larger. */
  lemma {:induction false} LengthMonotone(m: nat, n: nat)
    requires m <= n
    ensures |BigEndian(m)| <= |BigEndian(n)|
  {
    if m > 0 { LengthMonotone(m / 256, n / 256); }
  }

  // ----- unsigned -----

  function UintBytes(v: u128): seq<byte> {
    U128Length(v);
    [|BigEndian(v)| as byte] + BigEndian(v)
  }

  function DecodeUint(buf: seq<byte>): Result<(u128, nat), CanonError> {
    if |buf| == 0 then Err(UnexpectedEof)
    else
      var len := buf[0];
      if len == 0 then Ok((0, 1))
      else if len > MAX_MAG_LEN then Err(BadLength)
      else if |buf| < 1 + len then Err(UnexpectedEof)
      else
        var mag := buf[1..1 + len];
        if mag[0] == 0 then Err(NonMinimalInt)
        else
          MagnitudeFits(mag);
          Ok((Magnitude(mag), 1 + len))
  }

  lemma MagnitudeFits(s: seq<byte>)
    requires |s| <= 16
    ensures Magnitude(s) < U128_BOUND
  {
    MagnitudeBound(s);
    Pow256Sixteen();
    Pow256Monotone(|s|, 16);
  }

  lemma {:induction false} Pow256Monotone(i: nat, k: nat)
    requires i <= k
    ensures Pow256(i) <= Pow256(k)
  {
    if i < k { Pow256Monotone(i, k - 1); }
  }

  /** Order-preserving and prefix-free at once: whatever follows two encodings,
      the byte order is the order of the numbers. */
  lemma UintOrder(v: u128, w: u128, s: seq<byte>, t: seq<byte>)
    requires v != w
    ensures LexLess(UintBytes(v) + s, UintBytes(w) + t) <==> v < w
    ensures !(UintBytes(v) <= UintBytes(w) + t)
  {
    if v < w {
      UintSplit(v, w);
      SplitPrefixFree(UintBytes(v), UintBytes(w), t);
      SplitDecides(UintBytes(v), UintBytes(w), s, t);
    } else {
      UintSplit(w, v);
      SplitPrefixFree(UintBytes(v), UintBytes(w), t);
      SplitDecides(UintBytes(w), UintBytes(v), t, s);
    }
  }

  lemma UintSplit(v: u128, w: u128)
    requires v < w
    ensures SplitBelow(UintBytes(v), UintBytes(w))
  {
    LengthMonotone(v, w);
    U128Length(v);
    if |BigEndian(v)| == |BigEndian(w)| {
      MagnitudeOfBigEndian(v);
      MagnitudeOfBigEndian(w);
      SameLengthOrder(BigEndian(v), BigEndian(w));
      SplitPrefix([|BigEndian(v)| as byte], BigEndian(v), BigEndian(w));
    }
  }

  /** The decoder accepts the encoder's output followed by anything, and nothing
      else. */
  lemma DecodeUintExact(buf: seq<byte>, v: u128, n: nat)
    ensures DecodeUint(buf) == Ok((v, n)) <==> n == |UintBytes(v)| && UintBytes(v) <= buf
  {
    U128Length(v);
    if DecodeUint(buf) == Ok((v, n)) {
      var mag := buf[1..1 + buf[0]];
      BigEndianOfMagnitude(mag);
      assert UintBytes(v) == [buf[0]] + mag;
      assert buf[..n] == [buf[0]] + mag;
    }
    if n == |UintBytes(v)| && UintBytes(v) <= buf {
      assert buf[0] == UintBytes(v)[0];
      assert buf[1..1 + buf[0]] == BigEndian(v) by {
        assert buf[..n][1..] == UintBytes(v)[1..];
      }
      MagnitudeOfBigEndian(v);
    }
  }

  // ----- signed -----

  function Abs(v: int): nat {
    if v < 0 then -v else v
  }

  function IntBytes(v: i128): seq<byte> {
    var mag := BigEndian(Abs(v));
    U128Length(Abs(v));
    if v < 0 then [(INT_ZERO_CATEGORY - |mag|) as byte] + Complement(mag)
    else [(INT_ZERO_CATEGORY + |mag|) as byte] + mag
  }

  function DecodeInt(buf: seq<byte>): Result<(i128, nat), CanonError> {
    if |buf| == 0 then Err(UnexpectedEof)
    else
      var cat := buf[0];
      if cat == INT_ZERO_CATEGORY then Ok((0, 1))
      else
        var len := if cat > INT_ZERO_CATEGORY then cat - INT_ZERO_CATEGORY else INT_ZERO_CATEGORY - cat;
        if len > MAX_MAG_LEN then Err(BadLength)
        else if |buf| < 1 + len then Err(UnexpectedEof)
        else if cat > INT_ZERO_CATEGORY then DecodePositive(buf[1..1 + len])
        else DecodeNegative(buf[1..1 + len])
  }

  function DecodePositive(mag: seq<byte>): Result<(i128, nat), CanonError>
    requires mag != []
  {
    if mag[0] == 0 then Err(NonMinimalInt)
    else if Magnitude(mag) >= I128_BOUND then Err(BadLength)
    else Ok((Magnitude(mag), 1 + |mag|))
  }

  function DecodeNegative(comp: seq<byte>): Result<(i128, nat), CanonError>
    requires comp != []
  {
    if comp[0] == 255 then Err(NonMinimalInt)
    else
      var m: int := Magnitude(Complement(comp));
      if m > I128_BOUND then Err(BadLength) else Ok((-m, 1 + |comp|))
  }

  lemma IntOrder(v: i128, w: i128, s: seq<byte>, t: seq<byte>)
    requires v != w
    ensures LexLess(IntBytes(v) + s, IntBytes(w) + t) <==> v < w
    ensures !(IntBytes(v) <= IntBytes(w) + t)
  {
    if v < w {
      IntSplit(v, w);
      SplitPrefixFree(IntBytes(v), IntBytes(w), t);
      SplitDecides(IntBytes(v), IntBytes(w), s, t);
    } else {
      IntSplit(w, v);
      SplitPrefixFree(IntBytes(v), IntBytes(w), t);
      SplitDecides(IntBytes(w), IntBytes(v), t, s);
    }
  }

  lemma IntSplit(v: i128, w: i128)
    requires v < w
    ensures SplitBelow(IntBytes(v), IntBytes(w))
  {
    var m, n := Abs(v), Abs(w);
    U128Length(m);
    U128Length(n);
    MagnitudeOfBigEndian(m);
    MagnitudeOfBigEndian(n);
    if w < 0 {
      LengthMonotone(n, m);
      if |BigEndian(m)| == |BigEndian(n)| {
        SameLengthOrder(BigEndian(n), BigEndian(m));
        ComplementReverses(BigEndian(n), BigEndian(m));
        SplitPrefix([IntBytes(v)[0]], Complement(BigEndian(m)), Complement(BigEndian(n)));
      }
    } else if 0 <= v {
      LengthMonotone(m, n);
      if |BigEndian(m)| == |BigEndian(n)| {
        SameLengthOrder(BigEndian(m), BigEndian(n));
        SplitPrefix([IntBytes(v)[0]], BigEndian(m), BigEndian(n));
      }
    }
  }

  lemma DecodeIntExact(buf: seq<byte>, v: i128, n: nat)
    ensures DecodeInt(buf) == Ok((v, n)) <==> n == |IntBytes(v)| && IntBytes(v) <= buf
  {
    if DecodeInt(buf) == Ok((v, n)) { DecodedIntIsEncoded(buf, v, n); }
    if n == |IntBytes(v)| && IntBytes(v) <= buf { EncodedIntDecodes(buf, v); }
  }

  lemma DecodedIntIsEncoded(buf: seq<byte>, v: i128, n: nat)
    requires DecodeInt(buf) == Ok((v, n))
    ensures n == |IntBytes(v)| && IntBytes(v) <= buf
  {
    if buf[0] != INT_ZERO_CATEGORY {
      var body := buf[1..1 + Abs(buf[0] - INT_ZERO_CATEGORY)];
      assert buf[..1 + |body|] == [buf[0]] + body;
      if buf[0] > INT_ZERO_CATEGORY { PositiveEncodes(body); } else { NegativeEncodes(body); }
      var category, image := IntShape(v);
      assert image == body;
    }
  }

  lemma PositiveEncodes(mag: seq<byte>)
    requires mag != [] && DecodePositive(mag).Ok?
    ensures var r := DecodePositive(mag).value; r.0 > 0 && r.1 == 1 + |mag| && mag == BigEndian(Abs(r.0))
  {
    BigEndianOfMagnitude(mag);
  }

  lemma NegativeEncodes(comp: seq<byte>)
    requires comp != [] && DecodeNegative(comp).Ok?
    ensures var r := DecodeNegative(comp).value; r.0 < 0 && r.1 == 1 + |comp| && comp == Complement(BigEndian(Abs(r.0)))
  {
    BigEndianOfMagnitude(Complement(comp));
    ComplementTwice(comp);
  }

  lemma PositiveDecodes(v: i128)
    requires v > 0
    ensures BigEndian(v) != [] && DecodePositive(BigEndian(v)) == Ok((v, 1 + |BigEndian(v)|))
  {
    MagnitudeOfBigEndian(v);
  }

  lemma NegativeDecodes(v: i128)
    requires v < 0
    ensures var comp := Complement(BigEndian(Abs(v)));
            comp != [] && DecodeNegative(comp) == Ok((v, 1 + |comp|))
  {
    MagnitudeOfBigEndian(Abs(v));
    ComplementTwice(BigEndian(Abs(v)));
  }

  lemma EncodedIntDecodes(buf: seq<byte>, v: i128)
    requires IntBytes(v) <= buf
    ensures DecodeInt(buf) == Ok((v, |IntBytes(v)|))
  {
    var category, body := IntShape(v);
    assert buf[0] == category;
    if v != 0 {
      assert buf[1..1 + |body|] == body;
      if v > 0 { PositiveDecodes(v); } else { NegativeDecodes(v); }
    }
  }

  lemma IntShape(v: i128) returns (category: byte, body: seq<byte>)
    ensures IntBytes(v) == [category] + body && |body| <= 16 && (v != 0 ==> body != [])
    ensures category == INT_ZERO_CATEGORY + (if v < 0 then -|body| else |body|)
    ensures body == if v < 0 then Complement(BigEndian(Abs(v))) else BigEndian(v)
  {
    U128Length(Abs(v));
    MagnitudeOfBigEndian(Abs(v));
    category, body := IntBytes(v)[0], IntBytes(v)[1..];
  }

  // ----- the loops -----

  /** The sixteen bytes of `to_be_bytes`. */
  function FixedBe(v: nat, n: nat): (r: seq<byte>)
    ensures |r| == n
  {
    if n == 0 then [] else FixedBe(v / 256, n - 1) + [v % 256]
  }

  /** Below its leading zeros the fixed-width form is the minimal one. */
  lemma {:induction false} FixedIsPadded(v: nat, n: nat)
    requires |BigEndian(v)| <= n
    ensures FixedBe(v, n)[n - |BigEndian(v)|..] == BigEndian(v)
    ensures forall i :: 0 <= i < n - |BigEndian(v)| ==> FixedBe(v, n)[i] == 0
  {
    if n > 0 {
      FixedIsPadded(v / 256, n - 1);
    }
  }

  method MinimalMagnitude(v: u128) returns (mag: seq<byte>)
    requires v != 0
    ensures mag == BigEndian(v)
  {
    U128Length(v);
    FixedIsPadded(v, 16);
    MagnitudeOfBigEndian(v);
    var be := FixedBe(v, 16);
    ghost var pad := 16 - |BigEndian(v)|;
    assert be[pad..][0] == be[pad];
    var first := 0;
    while be[first] == 0
      invariant 0 <= first <= pad
      decreases pad - first
    {
      first := first + 1;
    }
    mag := be[first..];
  }

  method EncodeUint(v: u128, out: CanonWriter)
    modifies out
    ensures out.buf == old(out.buf) + UintBytes(v)
  {
    if v == 0 {
      out.WriteRaw([0]);
      return;
    }
    var mag := MinimalMagnitude(v);
    U128Length(v);
    out.WriteTagged(|mag|, mag);
  }

  method EncodeInt(v: i128, out: CanonWriter)
    modifies out
    ensures out.buf == old(out.buf) + IntBytes(v)
  {
    if v == 0 {
      out.WriteRaw([INT_ZERO_CATEGORY]);
      return;
    }
    var category, body := IntParts(v);
    out.WriteTagged(category, body);
  }

  method IntParts(v: i128) returns (category: byte, body: seq<byte>)
    requires v != 0
    ensures IntBytes(v) == [category] + body
  {
    U128Length(Abs(v));
    body := MinimalMagnitude(Abs(v));
    if v < 0 {
      body := ComplementBytes(body);
      category := INT_ZERO_CATEGORY - |body|;
    } else {
      category := INT_ZERO_CATEGORY + |body|;
    }
  }

  method ComplementBytes(s: seq<byte>) returns (r: seq<byte>)
    ensures r == Complement(s)
  {
    r := [];
    for i := 0 to |s|
      invariant r == Complement(s[..i])
    {
      r := r + [(255 - s[i]) as byte];
      assert s[..i + 1] == s[..i] + [s[i]];
    }
    assert s[..|s|] == s;
  }

  /** Fold the bytes into a 128-bit accumulator, which sixteen of them cannot
      overflow. */
  method Accumulate(mag: seq<byte>) returns (v: u128)
    requires |mag| <= 16
    ensures v == Magnitude(mag)
  {
    v := 0;
    for i := 0 to |mag|
      invariant v == Magnitude(mag[..i])
    {
      assert mag[..i + 1][..i] == mag[..i];
      MagnitudeFits(mag[..i + 1]);
      v := v * 256 + mag[i];
    }
    assert mag[..|mag|] == mag;
  }

  method ReadUint(buf: seq<byte>) returns (r: Result<(u128, nat), CanonError>)
    ensures r == DecodeUint(buf)
  {
    if |buf| == 0 { return Err(UnexpectedEof); }
    var len := buf[0];
    if len == 0 { return Ok((0, 1)); }
    if len > MAX_MAG_LEN { return Err(BadLength); }
    if |buf| < 1 + len { return Err(UnexpectedEof); }
    var mag := buf[1..1 + len];
    if mag[0] == 0 { return Err(NonMinimalInt); }
    var v := Accumulate(mag);
    r := Ok((v, 1 + len));
  }

  method ReadInt(buf: seq<byte>) returns (r: Result<(i128, nat), CanonError>)
    ensures r == DecodeInt(buf)
  {
    if |buf| == 0 { return Err(UnexpectedEof); }
    var cat := buf[0];
    if cat == INT_ZERO_CATEGORY { return Ok((0, 1)); }
    if cat > INT_ZERO_CATEGORY {
      var len := cat - INT_ZERO_CATEGORY;
      if len > MAX_MAG_LEN { return Err(BadLength); }
      if |buf| < 1 + len { return Err(UnexpectedEof); }
      var mag := buf[1..1 + len];
      if mag[0] == 0 { return Err(NonMinimalInt); }
      var m := Accumulate(mag);
      if m >= I128_BOUND { return Err(BadLength); }
      r := Ok((m, 1 + len));
    } else {
      var len := INT_ZERO_CATEGORY - cat;
      if len > MAX_MAG_LEN { return Err(BadLength); }
      if |buf| < 1 + len { return Err(UnexpectedEof); }
      var comp := buf[1..1 + len];
      if comp[0] == 255 { return Err(NonMinimalInt); }
      var mag := ComplementBytes(comp);
      var m := Accumulate(mag);
      if m == I128_BOUND { return Ok((-I128_BOUND, 1 + len)); }
      if m > I128_BOUND { return Err(BadLength); }
      r := Ok((-m, 1 + len));
    }
  }

  // ----- the second encoder -----

  function BitLength(v: nat): nat {
    if v == 0 then 0 else 1 + BitLength(v / 2)
  }

  lemma {:induction false} BitLengthByByte(v: nat)
    ensures (BitLength(v) + 7) / 8 == |BigEndian(v)|
  {
    if v >= 256 {
      BitLengthByByte(v / 256);
      BitLengthShift(v);
    } else if v > 0 {
      BitLengthSmall(v);
      assert BigEndian(v / 256) == [];
    }
  }

  lemma BitLengthSmall(v: nat)
    requires 0 < v < 256
    ensures 1 <= BitLength(v) <= 8
  {
    BitLengthBelow(v, 8, 256);
  }

  lemma {:induction false} BitLengthBelow(v: nat, k: nat, p: nat)
    requires v < p && p == Pow2(k)
    ensures BitLength(v) <= k
  {
    if v > 0 { BitLengthBelow(v / 2, k - 1, p / 2); }
  }

  function Pow2(k: nat): nat {
    if k == 0 then 1 else 2 * Pow2(k - 1)
  }

  lemma BitLengthShift(v: nat)
    requires v >= 256
    ensures BitLength(v) == 8 + BitLength(v / 256)
  {
    assert v / 2 / 2 == v / 4 && BitLength(v / 2) == 1 + BitLength(v / 4);
    assert v / 4 / 2 == v / 8 && BitLength(v / 4) == 1 + BitLength(v / 8);
    assert v / 8 / 2 == v / 16 && BitLength(v / 8) == 1 + BitLength(v / 16);
    assert v / 16 / 2 == v / 32 && BitLength(v / 16) == 1 + BitLength(v / 32);
    assert v / 32 / 2 == v / 64 && BitLength(v / 32) == 1 + BitLength(v / 64);
    assert v / 64 / 2 == v / 128 && BitLength(v / 64) == 1 + BitLength(v / 128);
    assert v / 128 / 2 == v / 256 && BitLength(v / 128) == 1 + BitLength(v / 256);
  }

  function ScriptBytes(m: nat): seq<byte> {
    FixedBe(m, (BitLength(m) + 7) / 8)
  }

  /** The cross-check script's unsigned encoder, an error outside its domain. */
  function ScriptUint(v: int): Result<seq<byte>, string> {
    if v < 0 then Err("uint cannot encode negative")
    else if v == 0 then Ok([0])
    else
      var mag := ScriptBytes(v);
      if |mag| > MAX_MAG_LEN then Err("magnitude too long") else Ok([|mag| as byte] + mag)
  }

  function ScriptInt(v: int): Result<seq<byte>, string> {
    if v == 0 then Ok([0x80])
    else
      var m := Abs(v);
      var mag := ScriptBytes(m);
      if |mag| > MAX_MAG_LEN then Err("magnitude too long")
      else if v < 0 then Ok([(0x80 - |mag|) as byte] + Complement(mag))
      else Ok([(0x80 + |mag|) as byte] + mag)
  }

  /** Both encoders agree on every value the source can hold; the script also
      refuses exactly what needs more than sixteen bytes. */
  lemma ScriptUintAgrees(v: int)
    ensures 0 <= v < U128_BOUND ==> ScriptUint(v) == Ok(UintBytes(v))
    ensures ScriptUint(v).Err? <==> !(0 <= v < U128_BOUND)
  {
    if v > 0 { ScriptMagnitude(v); }
    if v == 0 { assert UintBytes(0) == [0]; }
  }

  lemma ScriptIntAgrees(v: int)
    ensures -I128_BOUND <= v < I128_BOUND ==> ScriptInt(v) == Ok(IntBytes(v))
    ensures ScriptInt(v).Err? <==> !(-U128_BOUND < v < U128_BOUND)
  {
    ScriptMagnitude(Abs(v));
    if v == 0 { assert IntBytes(0) == [0x80]; }
  }

  lemma ScriptMagnitude(m: nat)
    ensures ScriptBytes(m) == BigEndian(m)
    ensures |BigEndian(m)| <= 16 <==> m < U128_BOUND
  {
    BitLengthByByte(m);
    FixedIsPadded(m, |BigEndian(m)|);
    U128Length(m);
  }
}
