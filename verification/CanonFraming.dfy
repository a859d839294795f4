/** Framed fields: the writer's self-delimiting forms and the reader that takes
    them off the front of a byte string. */
module CanonFraming {
  import opened CanonBytes
  import opened IntCodec

  const U64_BOUND: int := 0x1_0000_0000_0000_0000

  /** A byte string as memory can hold one. */
  type bytes = s: seq<byte> | |s| < 0x8000_0000_0000_0000

  /** What one frame may hold: a byte string, or the frame of one. */
  type chunk = s: seq<byte> | |s| < 0x1_0000_0000_0000_0000

  function Uint(v: nat): seq<byte>
    requires v < U128_BOUND
  {
    UintBytes(v)
  }

  /** A length-prefixed byte string. */
  function Frame(b: seq<byte>): seq<byte>
    requires |b| < U128_BOUND
  {
    UintBytes(|b|) + b
  }

  lemma FrameLength(b: seq<byte>)
    requires |b| < U128_BOUND
    ensures |b| < |Frame(b)| <= |b| + 17
  {
    U128Length(|b|);
  }

  /** Frames of the items, back to back. */
  function Frames(items: seq<chunk>): seq<byte> {
    if items == [] then [] else Frame(items[0]) + Frames(items[1..])
  }

  /** A count, then the framed items in order. */
  function List(items: seq<chunk>): seq<byte>
    requires |items| < U128_BOUND
  {
    UintBytes(|items|) + Frames(items)
  }

  // ----- reading a written field back from the front -----

  lemma UintFront(v: u128, w: u128, s: seq<byte>, t: seq<byte>)
    requires UintBytes(v) + s == UintBytes(w) + t
    ensures v == w && s == t
  {
    assert UintBytes(v) <= UintBytes(v) + s;
    if v != w { UintOrder(v, w, s, t); }
    SameFront(UintBytes(v), s, t);
  }

  lemma SameFront(p: seq<byte>, s: seq<byte>, t: seq<byte>)
    requires p + s == p + t
    ensures s == t
  {
    assert (p + s)[|p|..] == s && (p + t)[|p|..] == t;
  }

  lemma FrameFront(a: seq<byte>, b: seq<byte>, s: seq<byte>, t: seq<byte>)
    requires |a| < U128_BOUND && |b| < U128_BOUND && Frame(a) + s == Frame(b) + t
    ensures a == b && s == t
  {
    assert Frame(a) + s == UintBytes(|a|) + (a + s);
    assert Frame(b) + t == UintBytes(|b|) + (b + t);
    UintFront(|a|, |b|, a + s, b + t);
    EqualLengthFront(a, b, s, t);
  }

  lemma EqualLengthFront(a: seq<byte>, b: seq<byte>, s: seq<byte>, t: seq<byte>)
    requires |a| == |b| && a + s == b + t
    ensures a == b && s == t
  {
    assert a == (a + s)[..|a|] && b == (b + t)[..|b|];
    SameFront(a, s, t);
  }

  lemma {:induction false} FramesFront(a: seq<chunk>, b: seq<chunk>, s: seq<byte>, t: seq<byte>)
    requires |a| == |b| && Frames(a) + s == Frames(b) + t
    ensures a == b && s == t
  {
    if a != [] {
      assert Frames(a) + s == Frame(a[0]) + (Frames(a[1..]) + s);
      assert Frames(b) + t == Frame(b[0]) + (Frames(b[1..]) + t);
      FrameFront(a[0], b[0], Frames(a[1..]) + s, Frames(b[1..]) + t);
      FramesFront(a[1..], b[1..], s, t);
      assert a == [a[0]] + a[1..] && b == [b[0]] + b[1..];
    } else {
      assert Frames(a) + s == s && Frames(b) + t == t;
    }
  }

  lemma ListFront(a: seq<chunk>, b: seq<chunk>, s: seq<byte>, t: seq<byte>)
    requires |a| < U128_BOUND && |b| < U128_BOUND && List(a) + s == List(b) + t
    ensures a == b && s == t
  {
    assert List(a) + s == UintBytes(|a|) + (Frames(a) + s);
    assert List(b) + t == UintBytes(|b|) + (Frames(b) + t);
    UintFront(|a|, |b|, Frames(a) + s, Frames(b) + t);
    FramesFront(a, b, s, t);
  }

  // ----- the writer -----

  // Each writer is stated in front of whatever is written next.

  method WriteUint(w: CanonWriter, v: nat, ghost tail: seq<byte>)
    requires v < U128_BOUND
    modifies w
    ensures w.buf + tail == old(w.buf) + (Uint(v) + tail)
  {
    EncodeUint(v, w);
  }

  method WriteBytes(w: CanonWriter, b: seq<byte>, ghost tail: seq<byte>)
    requires |b| < U128_BOUND
    modifies w
    ensures w.buf + tail == old(w.buf) + (Frame(b) + tail)
  {
    EncodeUint(|b|, w);
    w.WriteRaw(b);
  }

  method WriteList(w: CanonWriter, items: seq<chunk>, ghost tail: seq<byte>)
    requires |items| < U128_BOUND
    modifies w
    ensures w.buf + tail == old(w.buf) + (List(items) + tail)
  {
    ghost var start := w.buf;
    WriteUint(w, |items|, Frames(items) + tail);
    assert items[0..] == items;
    assert start + (Uint(|items|) + (Frames(items) + tail)) == start + (List(items) + tail);
    for i := 0 to |items|
      invariant w.buf + (Frames(items[i..]) + tail) == start + (List(items) + tail)
    {
      FramesStep(items, i, tail);
      WriteBytes(w, items[i], Frames(items[i + 1..]) + tail);
    }
    assert Frames(items[|items|..]) + tail == tail;
  }

  lemma FramesStep(items: seq<chunk>, i: nat, tail: seq<byte>)
    requires i < |items|
    ensures Frames(items[i..]) + tail == Frame(items[i]) + (Frames(items[i + 1..]) + tail)
  {
    assert items[i..][0] == items[i] && items[i..][1..] == items[i + 1..];
  }

  // ----- the reader -----

  /** A u64 off the front, and how many bytes it took. */
  function TakeUint(src: seq<byte>): (r: Result<(nat, nat), CanonError>)
    ensures r.Ok? ==> r.value.1 <= |src|
  {
    match DecodeUint(src)
    case Err(e) => Err(e)
    case Ok(v) => if v.0 < U64_BOUND then Ok((v.0, v.1)) else Err(BadLength)
  }

  /** A framed byte string off the front, and how many bytes it took. */
  function TakeBytes(src: seq<byte>): (r: Result<(chunk, nat), CanonError>)
    ensures r.Ok? ==> r.value.1 <= |src|
  {
    match TakeUint(src)
    case Err(e) => Err(e)
    case Ok(len) =>
      if len.1 + len.0 <= |src| then Ok((src[len.1..len.1 + len.0], len.1 + len.0)) else Err(BadLength)
  }

  /** The reader takes off exactly what the writer put there. */
  lemma TakeUintExact(src: seq<byte>, v: nat, n: nat)
    ensures TakeUint(src) == Ok((v, n)) <==> v < U64_BOUND && n == |Uint(v)| && Uint(v) <= src
  {
    if v < U64_BOUND { DecodeUintExact(src, v, n); }
  }

  lemma TakeBytesExact(src: seq<byte>, b: chunk, n: nat)
    ensures TakeBytes(src) == Ok((b, n)) <==> n == |Frame(b)| && Frame(b) <= src
  {
    if TakeBytes(src) == Ok((b, n)) {
      var len := TakeUint(src).value;
      TakeUintExact(src, len.0, len.1);
      assert src[..n] == src[..len.1] + src[len.1..n];
    }
    if n == |Frame(b)| && Frame(b) <= src {
      var k := |Uint(|b|)|;
      FramePrefix(src, b);
      TakeUintExact(src, |b|, k);
    }
  }

  lemma FramePrefix(src: seq<byte>, b: seq<byte>)
    requires |b| < U64_BOUND && Frame(b) <= src
    ensures Uint(|b|) <= src && src[|Uint(|b|)|..|Frame(b)|] == b
  {
    assert src[..|Frame(b)|] == Uint(|b|) + b;
  }

  method ReadUint64(r: CanonReader) returns (res: Result<nat, CanonError>)
    modifies r
    ensures match TakeUint(old(r.Rest()))
            case Err(e) => res == Err(e)
            case Ok(x) => res == Ok(x.0) && x.1 <= |old(r.Rest())| && r.Rest() == old(r.Rest())[x.1..]
                          && r.pos == old(r.pos) + x.1 && r.pos <= |r.buf|
  {
    ghost var rest := r.Rest();
    var v := ReadUint(if r.pos <= |r.buf| then r.buf[r.pos..] else []);
    if v.Err? { return Err(v.error); }
    DecodeUintExact(rest, v.value.0, v.value.1);
    assert rest[v.value.1..] == r.buf[r.pos + v.value.1..];
    r.pos := r.pos + v.value.1;
    if v.value.0 >= U64_BOUND { return Err(BadLength); }
    res := Ok(v.value.0);
  }

  method ReadFrame(r: CanonReader) returns (res: Result<chunk, CanonError>)
    modifies r
    ensures match TakeBytes(old(r.Rest()))
            case Err(e) => res == Err(e)
            case Ok(x) => res == Ok(x.0) && x.1 <= |old(r.Rest())| && r.Rest() == old(r.Rest())[x.1..]
  {
    ghost var rest := r.Rest();
    var len := ReadUint64(r);
    if len.Err? { return Err(len.error); }
    ghost var n := TakeUint(rest).value.1;
    var end := r.pos + len.value;
    RestSlices(r.buf, r.pos - n, n, len.value);
    if end > |r.buf| { return Err(BadLength); }
    res := Ok(r.buf[r.pos..end]);
    r.pos := end;
  }

  lemma RestSlices(buf: seq<byte>, start: nat, n: nat, len: nat)
    requires start + n <= |buf|
    ensures start + n + len <= |buf| ==>
              && buf[start..][n..n + len] == buf[start + n..start + n + len]
              && buf[start..][n + len..] == buf[start + n + len..]
  {
  }
}
