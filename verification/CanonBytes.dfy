/** Byte strings and their lexicographic order, which canonical encodings are
    built to make agree with the order of the values they encode. */
module CanonBytes {
  type byte = b: int | 0 <= b < 256

  const I64_BOUND: int := 0x8000_0000_0000_0000

  datatype Result<+T, +E> = Ok(value: T) | Err(error: E)

  /** Errors from canonical decoding. */
  datatype CanonError = UnexpectedEof | NonMinimalInt | BadLength

  /** Lexicographic order, as slices compare. */
  predicate LexLess(a: seq<byte>, b: seq<byte>) {
    if b == [] then false
    else if a == [] then true
    else a[0] < b[0] || (a[0] == b[0] && LexLess(a[1..], b[1..]))
  }

  /** `a` is below `b` at the first byte in which they differ. Neither is then a
      prefix of the other, so whatever follows them cannot change the order. */
  predicate SplitBelow(a: seq<byte>, b: seq<byte>) {
    a != [] && b != [] && (a[0] < b[0] || (a[0] == b[0] && SplitBelow(a[1..], b[1..])))
  }

  lemma {:induction false} SplitDecides(a: seq<byte>, b: seq<byte>, s: seq<byte>, t: seq<byte>)
    requires SplitBelow(a, b)
    ensures LexLess(a + s, b + t) && !LexLess(b + t, a + s)
  {
    assert (a + s)[1..] == a[1..] + s && (b + t)[1..] == b[1..] + t;
    if a[0] == b[0] {
      SplitDecides(a[1..], b[1..], s, t);
    } else {
      assert (a + s)[0] == a[0] && (b + t)[0] == b[0];
    }
  }

  lemma {:induction false} FirstDifference(a: seq<byte>, b: seq<byte>) returns (k: nat)
    requires SplitBelow(a, b)
    ensures k < |a| && k < |b| && a[k] < b[k]
  {
    if a[0] < b[0] {
      k := 0;
    } else {
      var j := FirstDifference(a[1..], b[1..]);
      k := j + 1;
    }
  }

  lemma SplitPrefixFree(a: seq<byte>, b: seq<byte>, t: seq<byte>)
    requires SplitBelow(a, b) || SplitBelow(b, a)
    ensures !(a <= b + t)
  {
    var k;
    if SplitBelow(a, b) { k := FirstDifference(a, b); } else { k := FirstDifference(b, a); }
    assert (b + t)[k] != a[k];
  }

  lemma {:induction false} LexTrichotomy(a: seq<byte>, b: seq<byte>)
    ensures !(LexLess(a, b) && LexLess(b, a))
    ensures a != b ==> LexLess(a, b) || LexLess(b, a)
    ensures !LexLess(a, a)
  {
    if a != [] {
      LexTrichotomy(a[1..], a[1..]);
    }
    if a != [] && b != [] {
      LexTrichotomy(a[1..], b[1..]);
      assert a[0] == b[0] && a[1..] == b[1..] ==> a == b by {
        assert a == [a[0]] + a[1..] && b == [b[0]] + b[1..];
      }
    }
  }

  lemma {:induction false} SplitAppend(a: seq<byte>, b: seq<byte>, s: seq<byte>, t: seq<byte>)
    requires SplitBelow(a, b)
    ensures SplitBelow(a + s, b + t)
  {
    assert (a + s)[1..] == a[1..] + s && (b + t)[1..] == b[1..] + t;
    if a[0] == b[0] {
      SplitAppend(a[1..], b[1..], s, t);
    }
  }

  lemma {:induction false} SplitPrefix(p: seq<byte>, a: seq<byte>, b: seq<byte>)
    requires SplitBelow(a, b)
    ensures SplitBelow(p + a, p + b)
  {
    if p == [] {
      assert p + a == a && p + b == b;
    } else {
      SplitPrefix(p[1..], a, b);
      assert (p + a)[1..] == p[1..] + a && (p + b)[1..] == p[1..] + b;
    }
  }

  /** Bitwise complement of every byte. */
  function Complement(s: seq<byte>): (r: seq<byte>)
    ensures |r| == |s| && forall i :: 0 <= i < |s| ==> r[i] == 255 - s[i]
  {
    seq(|s|, i requires 0 <= i < |s| => (255 - s[i]) as byte)
  }

  /** Complementing reverses the order, but only for strings of which neither is
      a prefix of the other. */
  lemma {:induction false} ComplementReverses(a: seq<byte>, b: seq<byte>)
    requires SplitBelow(a, b)
    ensures SplitBelow(Complement(b), Complement(a))
  {
    assert Complement(a)[1..] == Complement(a[1..]) && Complement(b)[1..] == Complement(b[1..]);
    if a[0] == b[0] {
      ComplementReverses(a[1..], b[1..]);
    }
  }

  /** With a strict prefix, complementing keeps the order instead: a shorter
      string stays first. */
  lemma ComplementKeepsPrefixOrder(a: seq<byte>, x: byte)
    ensures LexLess(a, a + [x]) && LexLess(Complement(a), Complement(a + [x]))
  {
    PrefixFirst(a, x);
    PrefixFirst(Complement(a), 255 - x);
    assert Complement(a + [x]) == Complement(a) + [255 - x];
  }

  lemma {:induction false} PrefixFirst(a: seq<byte>, x: byte)
    ensures LexLess(a, a + [x])
  {
    if a != [] {
      PrefixFirst(a[1..], x);
      assert (a + [x])[1..] == a[1..] + [x];
    }
  }

  lemma ComplementTwice(s: seq<byte>)
    ensures Complement(Complement(s)) == s
  {
  }

  lemma ComplementConcat(s: seq<byte>, t: seq<byte>)
    ensures Complement(s + t) == Complement(s) + Complement(t)
  {
  }

  /** The buffer a writer appends to. */
  class CanonWriter {
    var buf: seq<byte>

    constructor ()
      ensures buf == []
    {
      buf := [];
    }

    method WriteRaw(b: seq<byte>)
      modifies this
      ensures buf == old(buf) + b
    {
      buf := buf + b;
    }

    /** A leading byte and what it announces. */
    method WriteTagged(lead: byte, body: seq<byte>)
      modifies this
      ensures buf == old(buf) + ([lead] + body)
    {
      buf := buf + [lead];
      buf := buf + body;
    }
  }

  /** A read position in a byte string. */
  class CanonReader {
    const buf: seq<byte>
    var pos: nat

    constructor (bytes: seq<byte>)
      ensures buf == bytes && pos == 0
    {
      buf, pos := bytes, 0;
    }

    ghost function Rest(): seq<byte>
      reads this
    {
      if pos <= |buf| then buf[pos..] else []
    }

    method ReadU8() returns (r: Result<byte, CanonError>)
      modifies this
      ensures old(Rest()) == [] ==> r == Err(UnexpectedEof) && pos == old(pos)
      ensures old(Rest()) != [] ==> r == Ok(old(Rest())[0]) && Rest() == old(Rest())[1..] && pos == old(pos) + 1
    {
      if pos >= |buf| { return Err(UnexpectedEof); }
      r := Ok(buf[pos]);
      pos := pos + 1;
    }
  }
}
