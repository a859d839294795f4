/** The certificate envelope: seven framed fields, read back only in the exact
    form the encoder writes. */
module Certificate {
  import opened CanonBytes
  import opened IntCodec
  import opened CanonFraming
  import Revision

  type digest = Revision.digest

  datatype FormatError =
    | BadMarker | UnknownVersion(version: nat) | UnknownProfile | VerifierMismatch | ContextMismatch
    | PropositionMismatch | TermMismatch | TermContextMismatch | Truncated | BadLengthField | NonMinimal | TrailingBytes

  function FromCanon(e: CanonError): FormatError {
    match e case UnexpectedEof => Truncated case NonMinimalInt => NonMinimal case BadLength => BadLengthField
  }

  /** The fields every envelope of one build carries unchanged. */
  datatype Format = Format(marker: bytes, version: nat, profile: bytes, verifier: digest)

  /** The UTF-8 bytes of `brix.kernel.certificate` and `brix.kernel.profile@1.2`. */
  function V1(verifier: digest): Format {
    Format([98, 114, 105, 120, 46, 107, 101, 114, 110, 101, 108, 46, 99, 101, 114, 116, 105, 102, 105, 99, 97, 116, 101], 1,
           [98, 114, 105, 120, 46, 107, 101, 114, 110, 101, 108, 46, 112, 114, 111, 102, 105, 108, 101, 64, 49, 46, 50], verifier)
  }

  /** What an envelope binds: a context, a proposition's bytes, a term's bytes. */
  datatype Fields = Fields(context: digest, proposition: chunk, term: chunk)

  /** A term writes the context it embeds first. */
  datatype Material = Material(context: digest, proposition: bytes, termContext: digest, termBody: bytes)

  function TermBytes(m: Material): chunk {
    FrameLength(m.termContext);
    assert |Frame(m.termContext) + m.termBody| < U64_BOUND;
    Frame(m.termContext) + m.termBody
  }

  function FieldsOf(m: Material): Fields {
    Fields(m.context, m.proposition, TermBytes(m))
  }

  predicate ValidFormat(f: Format) {
    f.version < U64_BOUND
  }

  function Payload(x: Fields): seq<byte> {
    Frame(x.context) + (Frame(x.proposition) + (Frame(x.term) + []))
  }

  function Envelope(f: Format, x: Fields): seq<byte>
    requires ValidFormat(f)
  {
    Frame(f.marker) + (Uint(f.version) + (Frame(f.profile) + (Frame(f.verifier) + Payload(x))))
  }

  function Encode(f: Format, m: Material): seq<byte>
    requires ValidFormat(f)
  {
    Envelope(f, FieldsOf(m))
  }

  // ----- decoding, one field at a time -----

  /** A framed field and what follows it. */
  function TakeField(src: seq<byte>): Result<(chunk, seq<byte>), FormatError> {
    match TakeBytes(src)
    case Err(e) => Err(FromCanon(e))
    case Ok(x) => Ok((x.0, src[x.1..]))
  }

  function TakeDigest(src: seq<byte>): Result<(digest, seq<byte>), FormatError> {
    match TakeField(src)
    case Err(e) => Err(e)
    case Ok(x) => if |x.0| == 32 then Ok((x.0, x.1)) else Err(BadLengthField)
  }

  function DecodePayload(src: seq<byte>): Result<Fields, FormatError> {
    match TakeDigest(src)
    case Err(e) => Err(e)
    case Ok(context) =>
      match TakeField(context.1)
      case Err(e) => Err(e)
      case Ok(proposition) =>
        match TakeField(proposition.1)
        case Err(e) => Err(e)
        case Ok(term) =>
          if term.1 != [] then Err(TrailingBytes)
          else
            match TakeDigest(term.0)
            case Err(e) => Err(e)
            case Ok(embedded) =>
              if embedded.0 != context.0 then Err(TermContextMismatch)
              else Ok(Fields(context.0, proposition.0, term.0))
  }

  function DecodeProfile(f: Format, src: seq<byte>): Result<Fields, FormatError> {
    match TakeField(src)
    case Err(e) => Err(e)
    case Ok(profile) =>
      if profile.0 != f.profile then Err(UnknownProfile)
      else
        match TakeDigest(profile.1)
        case Err(e) => Err(e)
        case Ok(verifier) => if verifier.0 != f.verifier then Err(VerifierMismatch) else DecodePayload(verifier.1)
  }

  function Decode(f: Format, src: seq<byte>): Result<Fields, FormatError> {
    match TakeField(src)
    case Err(e) => Err(e)
    case Ok(marker) =>
      if marker.0 != f.marker then Err(BadMarker)
      else
        match TakeUint(marker.1)
        case Err(e) => Err(FromCanon(e))
        case Ok(version) =>
          if version.0 != f.version then Err(UnknownVersion(version.0))
          else DecodeProfile(f, marker.1[version.1..])
  }

  function Validate<I>(f: Format, id: seq<byte> -> I, src: seq<byte>, m: Material): Result<I, FormatError> {
    match Decode(f, src)
    case Err(e) => Err(e)
    case Ok(x) =>
      if x.context != m.context then Err(ContextMismatch)
      else if x.proposition != m.proposition then Err(PropositionMismatch)
      else if x.term != TermBytes(m) then Err(TermMismatch)
      else Ok(id(src))
  }

  // ----- exactness -----

  lemma TakeFieldExact(src: seq<byte>, b: chunk, rest: seq<byte>)
    ensures TakeField(src) == Ok((b, rest)) <==> src == Frame(b) + rest
  {
    if TakeField(src) == Ok((b, rest)) {
      var x := TakeBytes(src).value;
      TakeBytesExact(src, x.0, x.1);
      assert src == src[..x.1] + src[x.1..];
    }
    if src == Frame(b) + rest {
      TakeBytesExact(src, b, |Frame(b)|);
      assert src[|Frame(b)|..] == rest;
    }
  }

  lemma TakeDigestExact(src: seq<byte>, d: digest, rest: seq<byte>)
    ensures TakeDigest(src) == Ok((d, rest)) <==> src == Frame(d) + rest
  {
    TakeFieldExact(src, d, rest);
    if TakeDigest(src) == Ok((d, rest)) {
      assert TakeField(src) == Ok((d, rest));
    }
  }

  /** The term's own claim about its context. */
  ghost predicate Claims(term: chunk, context: digest) {
    Frame(context) <= term
  }

  lemma ClaimExact(term: chunk, context: digest)
    ensures Claims(term, context) <==> TakeDigest(term).Ok? && TakeDigest(term).value.0 == context
  {
    if Claims(term, context) {
      assert term == Frame(context) + term[|Frame(context)|..];
      TakeDigestExact(term, context, term[|Frame(context)|..]);
    }
    if TakeDigest(term).Ok? {
      TakeDigestExact(term, TakeDigest(term).value.0, TakeDigest(term).value.1);
    }
  }

  lemma PayloadExact(src: seq<byte>, x: Fields)
    ensures DecodePayload(src) == Ok(x) <==> src == Payload(x) && Claims(x.term, x.context)
  {
    if DecodePayload(src) == Ok(x) { DecodedPayload(src, x); }
    if src == Payload(x) && Claims(x.term, x.context) { EncodedPayload(src, x); }
  }

  lemma DecodedPayload(src: seq<byte>, x: Fields)
    requires DecodePayload(src) == Ok(x)
    ensures src == Payload(x) && Claims(x.term, x.context)
  {
    var s1 := TakeDigest(src).value.1;
    var s2 := TakeField(s1).value.1;
    TakeDigestExact(src, x.context, s1);
    TakeFieldExact(s1, x.proposition, s2);
    TakeFieldExact(s2, x.term, []);
    ClaimExact(x.term, x.context);
  }

  lemma EncodedPayload(src: seq<byte>, x: Fields)
    requires src == Payload(x) && Claims(x.term, x.context)
    ensures DecodePayload(src) == Ok(x)
  {
    var s2 := Frame(x.term) + [];
    var s1 := Frame(x.proposition) + s2;
    TakeDigestExact(src, x.context, s1);
    TakeFieldExact(s1, x.proposition, s2);
    TakeFieldExact(s2, x.term, []);
    ClaimExact(x.term, x.context);
  }

  lemma ProfileExact(f: Format, src: seq<byte>, x: Fields)
    ensures DecodeProfile(f, src) == Ok(x) <==>
            src == Frame(f.profile) + (Frame(f.verifier) + Payload(x)) && Claims(x.term, x.context)
  {
    if DecodeProfile(f, src) == Ok(x) {
      var s1 := TakeField(src).value.1;
      var s2 := TakeDigest(s1).value.1;
      TakeFieldExact(src, f.profile, s1);
      TakeDigestExact(s1, f.verifier, s2);
      PayloadExact(s2, x);
    }
    if src == Frame(f.profile) + (Frame(f.verifier) + Payload(x)) && Claims(x.term, x.context) {
      TakeFieldExact(src, f.profile, Frame(f.verifier) + Payload(x));
      TakeDigestExact(Frame(f.verifier) + Payload(x), f.verifier, Payload(x));
      PayloadExact(Payload(x), x);
    }
  }

  lemma TakeVersion(src: seq<byte>, v: nat, rest: seq<byte>)
    requires v < U64_BOUND
    ensures src == Uint(v) + rest <==>
            TakeUint(src).Ok? && TakeUint(src).value.0 == v && TakeUint(src).value.1 <= |src| && src[TakeUint(src).value.1..] == rest
  {
    if src == Uint(v) + rest {
      TakeUintExact(src, v, |Uint(v)|);
    }
    if TakeUint(src).Ok? {
      TakeUintExact(src, TakeUint(src).value.0, TakeUint(src).value.1);
      assert src == src[..TakeUint(src).value.1] + src[TakeUint(src).value.1..];
    }
  }

  /** Decoding succeeds on the encoder's bytes only: an envelope has one form,
      and the term must claim the envelope's context. */
  lemma DecodeExact(f: Format, src: seq<byte>, x: Fields)
    requires ValidFormat(f)
    ensures Decode(f, src) == Ok(x) <==> src == Envelope(f, x) && Claims(x.term, x.context)
  {
    var tail := Frame(f.profile) + (Frame(f.verifier) + Payload(x));
    if Decode(f, src) == Ok(x) {
      var s1 := TakeField(src).value.1;
      TakeFieldExact(src, f.marker, s1);
      ProfileExact(f, s1[TakeUint(s1).value.1..], x);
      TakeVersion(s1, f.version, tail);
    }
    if src == Envelope(f, x) && Claims(x.term, x.context) {
      TakeFieldExact(src, f.marker, Uint(f.version) + tail);
      TakeVersion(Uint(f.version) + tail, f.version, tail);
      ProfileExact(f, tail, x);
    }
  }

  lemma TermClaims(m: Material)
    ensures Claims(TermBytes(m), m.context) <==> m.termContext == m.context
  {
    TakeDigestExact(TermBytes(m), m.termContext, m.termBody);
    ClaimExact(TermBytes(m), m.context);
  }

  /** Validation returns the identity of the material's encoding exactly on those
      bytes; material whose term embeds another context is never validated. */
  lemma ValidateExact<I>(f: Format, id: seq<byte> -> I, src: seq<byte>, m: Material)
    requires ValidFormat(f)
    ensures Validate(f, id, src, m).Ok? <==> src == Encode(f, m) && m.termContext == m.context
    ensures Validate(f, id, src, m).Ok? ==> Validate(f, id, src, m) == Ok(id(Encode(f, m)))
  {
    TermClaims(m);
    DecodeExact(f, src, FieldsOf(m));
    if Decode(f, src).Ok? { DecodeExact(f, src, Decode(f, src).value); }
  }

  /** No strict prefix and no extension of an envelope decodes. */
  lemma NoPrefixDecodes(f: Format, src: seq<byte>, more: seq<byte>)
    requires ValidFormat(f) && Decode(f, src).Ok? && more != []
    ensures Decode(f, src + more).Err?
  {
    var x := Decode(f, src).value;
    DecodeExact(f, src, x);
    if Decode(f, src + more).Ok? {
      var y := Decode(f, src + more).value;
      DecodeExact(f, src + more, y);
      PayloadFront(f, x, y, more);
    }
  }

  lemma PayloadFront(f: Format, x: Fields, y: Fields, more: seq<byte>)
    requires ValidFormat(f) && Envelope(f, x) + more == Envelope(f, y)
    ensures more == []
  {
    var tail := Frame(f.profile) + (Frame(f.verifier) + Payload(x));
    var tail' := Frame(f.profile) + (Frame(f.verifier) + Payload(y));
    assert Envelope(f, x) + more == Frame(f.marker) + (Uint(f.version) + (tail + more));
    FrameFront(f.marker, f.marker, Uint(f.version) + (tail + more), Uint(f.version) + tail');
    UintFront(f.version, f.version, tail + more, tail');
    assert tail + more == Frame(f.profile) + (Frame(f.verifier) + (Payload(x) + more));
    FrameFront(f.profile, f.profile, Frame(f.verifier) + (Payload(x) + more), Frame(f.verifier) + Payload(y));
    FrameFront(f.verifier, f.verifier, Payload(x) + more, Payload(y));
    FieldsFront(x, y, more);
  }

  lemma FieldsFront(x: Fields, y: Fields, more: seq<byte>)
    requires Payload(x) + more == Payload(y)
    ensures more == []
  {
    var px, py := Frame(x.proposition) + (Frame(x.term) + []), Frame(y.proposition) + (Frame(y.term) + []);
    assert Payload(x) + more == Frame(x.context) + (px + more);
    FrameFront(x.context, y.context, px + more, py);
    assert px + more == Frame(x.proposition) + (Frame(x.term) + more);
    FrameFront(x.proposition, y.proposition, Frame(x.term) + more, Frame(y.term) + []);
    FrameFront(x.term, y.term, more, []);
  }

  // ----- the code -----

  method EncodeMaterial(f: Format, m: Material) returns (envelope: seq<byte>)
    requires ValidFormat(f)
    ensures envelope == Encode(f, m)
  {
    var w := new CanonWriter();
    ghost var payload := Payload(FieldsOf(m));
    ghost var tail := Frame(f.profile) + (Frame(f.verifier) + payload);
    WriteBytes(w, f.marker, Uint(f.version) + tail);
    WriteUint(w, f.version, tail);
    WriteBytes(w, f.profile, Frame(f.verifier) + payload);
    WriteBytes(w, f.verifier, payload);
    WriteBytes(w, m.context, Frame(m.proposition) + (Frame(TermBytes(m)) + []));
    WriteBytes(w, m.proposition, Frame(TermBytes(m)) + []);
    WriteBytes(w, TermBytes(m), []);
    assert w.buf + [] == w.buf && [] + Encode(f, m) == Encode(f, m);
    envelope := w.buf;
  }

  method ReadField(r: CanonReader) returns (res: Result<chunk, FormatError>)
    modifies r
    ensures match TakeField(old(r.Rest()))
            case Err(e) => res == Err(e)
            case Ok(x) => res == Ok(x.0) && r.Rest() == x.1
  {
    var b := ReadFrame(r);
    if b.Err? { return Err(FromCanon(b.error)); }
    res := Ok(b.value);
  }

  method ReadDigest(r: CanonReader) returns (res: Result<digest, FormatError>)
    modifies r
    ensures match TakeDigest(old(r.Rest()))
            case Err(e) => res == Err(e)
            case Ok(x) => res == Ok(x.0) && r.Rest() == x.1
  {
    var b := ReadField(r);
    if b.Err? { return Err(b.error); }
    if |b.value| != 32 { return Err(BadLengthField); }
    res := Ok(b.value);
  }

  method ReadPayload(r: CanonReader) returns (res: Result<Fields, FormatError>)
    modifies r
    ensures res == DecodePayload(old(r.Rest()))
  {
    var context := ReadDigest(r);
    if context.Err? { return Err(context.error); }
    var proposition := ReadField(r);
    if proposition.Err? { return Err(proposition.error); }
    var term := ReadField(r);
    if term.Err? { return Err(term.error); }
    if r.pos < |r.buf| { return Err(TrailingBytes); }
    var inner := new CanonReader(term.value);
    assert inner.Rest() == term.value;
    var embedded := ReadDigest(inner);
    if embedded.Err? { return Err(embedded.error); }
    if embedded.value != context.value { return Err(TermContextMismatch); }
    res := Ok(Fields(context.value, proposition.value, term.value));
  }

  method ReadProfile(f: Format, r: CanonReader) returns (res: Result<Fields, FormatError>)
    modifies r
    ensures res == DecodeProfile(f, old(r.Rest()))
  {
    var profile := ReadField(r);
    if profile.Err? { return Err(profile.error); }
    if profile.value != f.profile { return Err(UnknownProfile); }
    var verifier := ReadDigest(r);
    if verifier.Err? { return Err(verifier.error); }
    if verifier.value != f.verifier { return Err(VerifierMismatch); }
    res := ReadPayload(r);
  }

  method DecodeMaterial(f: Format, envelope: seq<byte>) returns (res: Result<Fields, FormatError>)
    ensures res == Decode(f, envelope)
  {
    var r := new CanonReader(envelope);
    assert r.Rest() == envelope;
    var marker := ReadField(r);
    if marker.Err? { return Err(marker.error); }
    if marker.value != f.marker { return Err(BadMarker); }
    var version := ReadUint64(r);
    if version.Err? { return Err(FromCanon(version.error)); }
    if version.value != f.version { return Err(UnknownVersion(version.value)); }
    res := ReadProfile(f, r);
  }
}
