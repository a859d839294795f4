/** UTF-8: how many bytes a text takes, which they are, and that they determine
    the text. */
module Utf8 {
  import opened CanonBytes

  /** The longest metadata file that is parsed, in bytes. */
  const MAX_KB_JSON_BYTES: nat := 1024 * 1024

  /** The encoded length of one scalar (section 3 of RFC 3629). */
  function CharLength(c: char): (n: nat)
    ensures 1 <= n <= 4
  {
    if c as int < 0x80 then 1 else if c as int < 0x800 then 2 else if c as int < 0x10000 then 3 else 4
  }

  /** How many bytes a text takes in UTF-8. */
  function Utf8Length(s: string): nat {
    if s == "" then 0 else CharLength(s[0]) + Utf8Length(s[1..])
  }

  /** A text as memory can hold one. */
  type text = s: string | Utf8Length(s) < I64_BOUND

  function CharBytes(c: char): (r: seq<byte>)
    ensures |r| == CharLength(c)
  {
    var v := c as int;
    if v < 0x80 then [v]
    else if v < 0x800 then [0xC0 + v / 64, 0x80 + v % 64]
    else if v < 0x10000 then [0xE0 + v / 4096, 0x80 + v / 64 % 64, 0x80 + v % 64]
    else [0xF0 + v / 262144, 0x80 + v / 4096 % 64, 0x80 + v / 64 % 64, 0x80 + v % 64]
  }

  function Encode(s: string): (r: seq<byte>)
    ensures |r| == Utf8Length(s)
  {
    if s == "" then [] else CharBytes(s[0]) + Encode(s[1..])
  }

  lemma {:induction false} LengthAppend(s: string, t: string)
    ensures Utf8Length(s + t) == Utf8Length(s) + Utf8Length(t)
  {
    if s == "" {
      assert s + t == t;
    } else {
      assert (s + t)[0] == s[0] && (s + t)[1..] == s[1..] + t;
      LengthAppend(s[1..], t);
    }
  }

  /** Every scalar takes at least a byte and at most four. */
  lemma {:induction false} LengthBounds(s: string)
    ensures |s| <= Utf8Length(s) <= 4 * |s|
  {
    if s != "" { LengthBounds(s[1..]); }
  }

  /** The leading byte tells the length, and the bytes the scalar. */
  lemma CharFront(c: char, d: char, s: seq<byte>, t: seq<byte>)
    requires CharBytes(c) + s == CharBytes(d) + t
    ensures c == d && s == t
  {
    assert CharBytes(c)[0] == (CharBytes(c) + s)[0] == (CharBytes(d) + t)[0] == CharBytes(d)[0];
    LeadTellsLength(c, d);
    var n := CharLength(c);
    assert forall i :: 0 <= i < n ==> CharBytes(c)[i] == (CharBytes(c) + s)[i] == (CharBytes(d) + t)[i] == CharBytes(d)[i];
    BytesTellScalar(c, d);
    assert s == (CharBytes(c) + s)[n..] == (CharBytes(d) + t)[n..] == t;
  }

  lemma LeadTellsLength(c: char, d: char)
    requires CharBytes(c)[0] == CharBytes(d)[0]
    ensures CharLength(c) == CharLength(d)
  {
  }

  lemma BytesTellScalar(c: char, d: char)
    requires CharLength(c) == CharLength(d) && forall i :: 0 <= i < CharLength(c) ==> CharBytes(c)[i] == CharBytes(d)[i]
    ensures c == d
  {
    SixBits(c as int);
    SixBits(d as int);
    var n := CharLength(c);
    assert CharBytes(c)[0] == CharBytes(d)[0];
    assert n > 1 ==> CharBytes(c)[1] == CharBytes(d)[1];
    assert n > 2 ==> CharBytes(c)[2] == CharBytes(d)[2];
    assert n > 3 ==> CharBytes(c)[3] == CharBytes(d)[3];
    assert c as int == d as int;
  }

  lemma SixBits(v: nat)
    ensures v == v / 64 * 64 + v % 64
    ensures v == v / 4096 * 4096 + v / 64 % 64 * 64 + v % 64
    ensures v == v / 262144 * 262144 + v / 4096 % 64 * 4096 + v / 64 % 64 * 64 + v % 64
  {
    assert v / 4096 == v / 64 / 64 && v / 262144 == v / 64 / 64 / 64;
  }

  /** Different texts have different bytes. */
  lemma {:induction false} EncodeInjective(s: string, t: string)
    requires Encode(s) == Encode(t)
    ensures s == t
  {
    if s != "" && t != "" {
      CharFront(s[0], t[0], Encode(s[1..]), Encode(t[1..]));
      EncodeInjective(s[1..], t[1..]);
      assert s == [s[0]] + s[1..] && t == [t[0]] + t[1..];
    }
  }
}
