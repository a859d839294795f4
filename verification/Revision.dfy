/** Revision records and the canonical preimage whose digest names them. */
module Revision {
  import opened Options
  import opened CanonBytes
  import opened IntCodec
  import opened CanonFraming
  import opened Utf8

  /** Names of inputs, as many as memory can hold. */
  type names = s: seq<text> | |s| < 0x8000_0000_0000_0000

  datatype Change<D> =
    | Init
    | Assert(asserted: names)
    | Retract(retracted: names)
    | Program(previous: D, dropped: names)

  datatype Status = Selected | Quiescent | Unknown | MissingInputs {
    function Ordinal(): (r: nat)
      ensures r < 4
    {
      match this case Selected => 0 case Quiescent => 1 case Unknown => 2 case MissingInputs => 3
    }
  }

  datatype RevisionResult<D> =
    RevisionResult(status: Status, candidate: Option<text>, decision: Option<D>, context: Option<D>,
                   facts: Option<D>, outcomes: Option<D>, diagnostics: names)

  datatype RevisionRecord<D> =
    RevisionRecord(seqNo: nat, parent: Option<D>, programId: D, programPath: text, snapshotId: D,
                   snapshotPath: text, change: Change<D>, result: RevisionResult<D>)

  /** A digest as the encoding writes it. */
  type digest = s: seq<byte> | |s| == 32 witness seq(32, _ => 0)

  type Record = RevisionRecord<digest>

  /** Why a revision file is refused. */
  datatype DecodeError = Malformed | SchemaMismatch | DigestMismatch

  /** The UTF-8 bytes of `brix.kb.revision@1`. */
  const REVISION_TAG: bytes := [98, 114, 105, 120, 46, 107, 98, 46, 114, 101, 118, 105, 115, 105, 111, 110, 64, 49]

  // ----- the preimage, each field in front of what follows it -----

  function OptionField(o: Option<text>, tail: seq<byte>): seq<byte> {
    match o
    case None => Uint(0) + tail
    case Some(b) => Uint(1) + (Frame(Encode(b)) + tail)
  }

  function DigestField(o: Option<digest>, tail: seq<byte>): seq<byte> {
    match o
    case None => Uint(0) + tail
    case Some(d) => Uint(1) + (Frame(d) + tail)
  }

  function IdentElement(nfc: text -> text, name: text): chunk {
    FrameLength(Encode(nfc(name)));
    Frame(Encode(nfc(name)))
  }

  function TextElement(t: text): chunk {
    FrameLength(Encode(t));
    Frame(Encode(t))
  }

  function Idents(nfc: text -> text, list: names): (r: seq<chunk>)
    ensures |r| == |list|
  {
    seq(|list|, i requires 0 <= i < |list| => IdentElement(nfc, list[i]))
  }

  function Texts(list: names): (r: seq<chunk>)
    ensures |r| == |list|
  {
    seq(|list|, i requires 0 <= i < |list| => TextElement(list[i]))
  }

  /** The variant a change writes, and everything behind it. */
  function ChangeOrdinal(c: Change<digest>): (r: nat)
    ensures r < 4
  {
    match c case Init => 0 case Assert(_) => 1 case Retract(_) => 2 case Program(_, _) => 3
  }

  function ChangePayload(nfc: text -> text, c: Change<digest>, tail: seq<byte>): seq<byte> {
    match c
    case Init => tail
    case Assert(list) => List(Idents(nfc, list)) + tail
    case Retract(list) => List(Idents(nfc, list)) + tail
    case Program(previous, dropped) => Frame(previous) + (List(Idents(nfc, dropped)) + tail)
  }

  function ChangeField(nfc: text -> text, c: Change<digest>, tail: seq<byte>): seq<byte> {
    Uint(ChangeOrdinal(c)) + ChangePayload(nfc, c, tail)
  }

  function FoldOption(nfc: text -> text, o: Option<text>): Option<text> {
    match o case None => None case Some(b) => Some(nfc(b))
  }

  function ResultField(nfc: text -> text, r: RevisionResult<digest>): seq<byte> {
    Uint(r.status.Ordinal()) +
    OptionField(FoldOption(nfc, r.candidate),
                DigestField(r.decision,
                            DigestField(r.context,
                                        DigestField(r.facts, DigestField(r.outcomes, List(Texts(r.diagnostics)))))))
  }

  predicate Encodable(r: RevisionRecord<digest>) {
    r.seqNo < U64_BOUND
  }

  function Preimage(nfc: text -> text, r: RevisionRecord<digest>): seq<byte>
    requires Encodable(r)
  {
    TaggedPreimage(nfc, REVISION_TAG, r)
  }

  function TaggedPreimage(nfc: text -> text, tag: bytes, r: RevisionRecord<digest>): seq<byte>
    requires Encodable(r)
  {
    Frame(tag) + (Uint(r.seqNo) + DigestField(r.parent, BodyField(nfc, r)))
  }

  function BodyField(nfc: text -> text, r: RevisionRecord<digest>): seq<byte> {
    Frame(r.programId) + (Frame(Encode(r.programPath)) + (Frame(r.snapshotId) + (Frame(Encode(r.snapshotPath)) +
    ChangeField(nfc, r.change, ResultField(nfc, r.result)))))
  }

  // ----- what the preimage determines -----

  /** A record with its names folded as identifiers are. */
  function Folded(nfc: text -> text, r: RevisionRecord<digest>): RevisionRecord<digest> {
    r.(change := FoldChange(nfc, r.change), result := r.result.(candidate := FoldOption(nfc, r.result.candidate)))
  }

  function FoldNames(nfc: text -> text, list: names): (r: names)
    ensures |r| == |list|
  {
    seq(|list|, i requires 0 <= i < |list| => nfc(list[i]))
  }

  function FoldChange(nfc: text -> text, c: Change<digest>): Change<digest> {
    match c
    case Init => Init
    case Assert(list) => Assert(FoldNames(nfc, list))
    case Retract(list) => Retract(FoldNames(nfc, list))
    case Program(previous, dropped) => Program(previous, FoldNames(nfc, dropped))
  }

  lemma TextFront(a: text, b: text, s: seq<byte>, t: seq<byte>)
    requires Frame(Encode(a)) + s == Frame(Encode(b)) + t
    ensures a == b && s == t
  {
    FrameFront(Encode(a), Encode(b), s, t);
    EncodeInjective(a, b);
  }

  lemma OptionFront(a: Option<text>, b: Option<text>, s: seq<byte>, t: seq<byte>)
    requires OptionField(a, s) == OptionField(b, t)
    ensures a == b && s == t
  {
    UintFront(if a.None? then 0 else 1, if b.None? then 0 else 1,
              if a.None? then s else Frame(Encode(a.value)) + s, if b.None? then t else Frame(Encode(b.value)) + t);
    if a.Some? { TextFront(a.value, b.value, s, t); }
  }

  lemma DigestFront(a: Option<digest>, b: Option<digest>, s: seq<byte>, t: seq<byte>)
    requires DigestField(a, s) == DigestField(b, t)
    ensures a == b && s == t
  {
    UintFront(if a.None? then 0 else 1, if b.None? then 0 else 1,
              if a.None? then s else Frame(a.value) + s, if b.None? then t else Frame(b.value) + t);
    if a.Some? { FrameFront(a.value, b.value, s, t); }
  }

  lemma FrameInjective(a: text, b: text)
    requires Frame(Encode(a)) == Frame(Encode(b))
    ensures a == b
  {
    assert Frame(Encode(a)) + [] == Frame(Encode(b)) + [];
    TextFront(a, b, [], []);
  }

  lemma IdentsDetermine(nfc: text -> text, a: names, b: names)
    requires Idents(nfc, a) == Idents(nfc, b)
    ensures FoldNames(nfc, a) == FoldNames(nfc, b)
  {
    assert |a| == |Idents(nfc, a)| == |b|;
    forall i | 0 <= i < |a| ensures nfc(a[i]) == nfc(b[i]) {
      assert Idents(nfc, a)[i] == Idents(nfc, b)[i];
      FrameInjective(nfc(a[i]), nfc(b[i]));
    }
  }

  lemma TextsDetermine(a: names, b: names)
    requires Texts(a) == Texts(b)
    ensures a == b
  {
    assert |a| == |Texts(a)| == |b|;
    forall i | 0 <= i < |a| ensures a[i] == b[i] {
      assert Texts(a)[i] == Texts(b)[i];
      FrameInjective(a[i], b[i]);
    }
  }

  lemma ChangeFront(nfc: text -> text, a: Change<digest>, b: Change<digest>, s: seq<byte>, t: seq<byte>)
    requires ChangeField(nfc, a, s) == ChangeField(nfc, b, t)
    ensures FoldChange(nfc, a) == FoldChange(nfc, b) && s == t
  {
    UintFront(ChangeOrdinal(a), ChangeOrdinal(b), ChangePayload(nfc, a, s), ChangePayload(nfc, b, t));
    match a
    case Init =>
    case Assert(list) => IdentListFront(nfc, list, b.asserted, s, t);
    case Retract(list) => IdentListFront(nfc, list, b.retracted, s, t);
    case Program(previous, dropped) =>
      FrameFront(previous, b.previous, List(Idents(nfc, dropped)) + s, List(Idents(nfc, b.dropped)) + t);
      IdentListFront(nfc, dropped, b.dropped, s, t);
  }

  lemma IdentListFront(nfc: text -> text, a: names, b: names, s: seq<byte>, t: seq<byte>)
    requires List(Idents(nfc, a)) + s == List(Idents(nfc, b)) + t
    ensures FoldNames(nfc, a) == FoldNames(nfc, b) && s == t
  {
    ListFront(Idents(nfc, a), Idents(nfc, b), s, t);
    IdentsDetermine(nfc, a, b);
  }

  lemma ResultDetermined(nfc: text -> text, a: RevisionResult<digest>, b: RevisionResult<digest>)
    requires ResultField(nfc, a) == ResultField(nfc, b)
    ensures a.(candidate := FoldOption(nfc, a.candidate)) == b.(candidate := FoldOption(nfc, b.candidate))
  {
    var a5, b5 := List(Texts(a.diagnostics)), List(Texts(b.diagnostics));
    var a4, b4 := DigestField(a.outcomes, a5), DigestField(b.outcomes, b5);
    var a3, b3 := DigestField(a.facts, a4), DigestField(b.facts, b4);
    var a2, b2 := DigestField(a.context, a3), DigestField(b.context, b3);
    var a1, b1 := DigestField(a.decision, a2), DigestField(b.decision, b2);
    UintFront(a.status.Ordinal(), b.status.Ordinal(),
              OptionField(FoldOption(nfc, a.candidate), a1), OptionField(FoldOption(nfc, b.candidate), b1));
    OptionFront(FoldOption(nfc, a.candidate), FoldOption(nfc, b.candidate), a1, b1);
    DigestFront(a.decision, b.decision, a2, b2);
    DigestFront(a.context, b.context, a3, b3);
    DigestFront(a.facts, b.facts, a4, b4);
    DigestFront(a.outcomes, b.outcomes, a5, b5);
    assert a5 + [] == b5 + [];
    ListFront(Texts(a.diagnostics), Texts(b.diagnostics), [], []);
    TextsDetermine(a.diagnostics, b.diagnostics);
  }

  lemma BodyDetermined(nfc: text -> text, a: RevisionRecord<digest>, b: RevisionRecord<digest>)
    requires BodyField(nfc, a) == BodyField(nfc, b)
    ensures Folded(nfc, a).(seqNo := 0, parent := None) == Folded(nfc, b).(seqNo := 0, parent := None)
  {
    var a4, b4 := ResultField(nfc, a.result), ResultField(nfc, b.result);
    var a3, b3 := ChangeField(nfc, a.change, a4), ChangeField(nfc, b.change, b4);
    var a2, b2 := Frame(Encode(a.snapshotPath)) + a3, Frame(Encode(b.snapshotPath)) + b3;
    var a1, b1 := Frame(a.snapshotId) + a2, Frame(b.snapshotId) + b2;
    FrameFront(a.programId, b.programId, Frame(Encode(a.programPath)) + a1, Frame(Encode(b.programPath)) + b1);
    TextFront(a.programPath, b.programPath, a1, b1);
    FrameFront(a.snapshotId, b.snapshotId, a2, b2);
    TextFront(a.snapshotPath, b.snapshotPath, a3, b3);
    ChangeFront(nfc, a.change, b.change, a4, b4);
    ResultDetermined(nfc, a.result, b.result);
  }

  /** Two records have one preimage exactly when they agree up to the folding of
      names; on names already folded the preimage is injective. */
  lemma PreimageDetermines(nfc: text -> text, a: RevisionRecord<digest>, b: RevisionRecord<digest>)
    requires Encodable(a) && Encodable(b)
    ensures Preimage(nfc, a) == Preimage(nfc, b) <==> Folded(nfc, a) == Folded(nfc, b)
  {
    if Preimage(nfc, a) == Preimage(nfc, b) {
      var a2, b2 := BodyField(nfc, a), BodyField(nfc, b);
      var a1, b1 := DigestField(a.parent, a2), DigestField(b.parent, b2);
      FrameFront(REVISION_TAG, REVISION_TAG, Uint(a.seqNo) + a1, Uint(b.seqNo) + b1);
      UintFront(a.seqNo, b.seqNo, a1, b1);
      DigestFront(a.parent, b.parent, a2, b2);
      BodyDetermined(nfc, a, b);
    }
    if Folded(nfc, a) == Folded(nfc, b) { FoldedFixesPreimage(nfc, a, b); }
  }

  lemma FoldedFixesPreimage(nfc: text -> text, a: RevisionRecord<digest>, b: RevisionRecord<digest>)
    requires Encodable(a) && Encodable(b) && Folded(nfc, a) == Folded(nfc, b)
    ensures Preimage(nfc, a) == Preimage(nfc, b)
  {
    match a.change
    case Init =>
    case Assert(list) => FoldedFixesIdents(nfc, list, b.change.asserted);
    case Retract(list) => FoldedFixesIdents(nfc, list, b.change.retracted);
    case Program(_, dropped) => FoldedFixesIdents(nfc, dropped, b.change.dropped);
  }

  lemma FoldedFixesIdents(nfc: text -> text, a: names, b: names)
    requires FoldNames(nfc, a) == FoldNames(nfc, b)
    ensures Idents(nfc, a) == Idents(nfc, b)
  {
    assert |a| == |FoldNames(nfc, a)| == |b|;
    forall i | 0 <= i < |a| ensures Idents(nfc, a)[i] == Idents(nfc, b)[i] {
      assert FoldNames(nfc, a)[i] == FoldNames(nfc, b)[i];
    }
  }

  // ----- chains -----

  ghost predicate Link<D>(id: RevisionRecord<D> -> D, h: seq<RevisionRecord<D>>, i: nat)
    requires i < |h|
  {
    h[i].seqNo == i + 1 && h[i].parent == if i == 0 then None else Some(id(h[i - 1]))
  }

  /** Revisions numbered from one, each naming its parent by digest. */
  ghost predicate Chained<D>(id: RevisionRecord<D> -> D, h: seq<RevisionRecord<D>>) {
    forall i :: 0 <= i < |h| ==> Link(id, h, i)
  }

  /** Equal digests mean equal records, among the records of these histories. */
  ghost predicate NoCollision<D>(id: RevisionRecord<D> -> D, g: seq<RevisionRecord<D>>, h: seq<RevisionRecord<D>>) {
    forall i, j :: 0 <= i < |g| && 0 <= j < |h| && id(g[i]) == id(h[j]) ==> g[i] == h[j]
  }

  /** The digest of the last revision pins the whole history, its length
      included. */
  lemma HeadPinsHistory<D>(id: RevisionRecord<D> -> D, g: seq<RevisionRecord<D>>, h: seq<RevisionRecord<D>>)
    requires Chained(id, g) && Chained(id, h) && NoCollision(id, g, h)
    requires g != [] && h != [] && id(g[|g| - 1]) == id(h[|h| - 1])
    ensures g == h
  {
    var m, n := |g| - 1, |h| - 1;
    assert Link(id, g, m) && Link(id, h, n) && g[m] == h[n];
    EarlierAgree(id, g, h, m);
  }

  lemma {:induction false} EarlierAgree<D>(id: RevisionRecord<D> -> D, g: seq<RevisionRecord<D>>, h: seq<RevisionRecord<D>>, k: nat)
    requires Chained(id, g) && Chained(id, h) && NoCollision(id, g, h)
    requires k < |g| && k < |h| && g[k] == h[k]
    ensures forall i :: 0 <= i <= k ==> g[i] == h[i]
    decreases k
  {
    if k > 0 {
      assert Link(id, g, k) && Link(id, h, k);
      EarlierAgree(id, g, h, k - 1);
    }
  }

  /** The digest a record is named by. */
  function DigestOf(nfc: text -> text, hash: seq<byte> -> digest, r: RevisionRecord<digest>): digest {
    if Encodable(r) then hash(Preimage(nfc, r)) else hash([])
  }

  /** A hash that does not collide on two preimages names their records apart,
      once their names are folded. */
  lemma SameDigestSameRecord(nfc: text -> text, hash: seq<byte> -> digest, r: RevisionRecord<digest>, q: RevisionRecord<digest>)
    requires Encodable(r) && Encodable(q) && Folded(nfc, r) == r && Folded(nfc, q) == q
    requires hash(Preimage(nfc, r)) == hash(Preimage(nfc, q)) ==> Preimage(nfc, r) == Preimage(nfc, q)
    ensures DigestOf(nfc, hash, r) == DigestOf(nfc, hash, q) <==> r == q
  {
    PreimageDetermines(nfc, r, q);
  }

  /** The hash does not take these two records for one another. */
  predicate ToldApart(nfc: text -> text, hash: seq<byte> -> digest, r: Record, q: Record) {
    Encodable(r) && Encodable(q) && hash(Preimage(nfc, r)) == hash(Preimage(nfc, q)) ==> Preimage(nfc, r) == Preimage(nfc, q)
  }

  ghost predicate NoHashCollision(nfc: text -> text, hash: seq<byte> -> digest, g: seq<Record>, h: seq<Record>) {
    forall i, j :: 0 <= i < |g| && 0 <= j < |h| ==> ToldApart(nfc, hash, g[i], h[j])
  }

  /** The same records but for the folding of names. */
  predicate SameFolded(nfc: text -> text, g: seq<Record>, h: seq<Record>) {
    |g| == |h| && forall i :: 0 <= i < |g| ==> Folded(nfc, g[i]) == Folded(nfc, h[i])
  }

  lemma SameDigestSameFolded(nfc: text -> text, hash: seq<byte> -> digest, r: Record, q: Record)
    requires Encodable(r) && Encodable(q) && ToldApart(nfc, hash, r, q) && DigestOf(nfc, hash, r) == DigestOf(nfc, hash, q)
    ensures Folded(nfc, r) == Folded(nfc, q)
  {
    PreimageDetermines(nfc, r, q);
  }

  lemma FoldingKeeps(nfc: text -> text, r: Record, q: Record)
    requires Folded(nfc, r) == Folded(nfc, q)
    ensures r.seqNo == q.seqNo && r.parent == q.parent
  {
    assert Folded(nfc, r).seqNo == r.seqNo && Folded(nfc, r).parent == r.parent;
    assert Folded(nfc, q).seqNo == q.seqNo && Folded(nfc, q).parent == q.parent;
  }

  /** Equal digests mean equal records but for the folding of names. */
  ghost predicate DigestsTell(nfc: text -> text, id: Record -> digest, g: seq<Record>, h: seq<Record>) {
    forall i, j :: 0 <= i < |g| && 0 <= j < |h| && id(g[i]) == id(h[j]) ==> Folded(nfc, g[i]) == Folded(nfc, h[j])
  }

  /** Record by record from the last back: equal digests, equal parents. */
  lemma {:induction false} DigestsPin(nfc: text -> text, id: Record -> digest, g: seq<Record>, h: seq<Record>, m: nat, n: nat)
    requires Chained(id, g) && Chained(id, h) && DigestsTell(nfc, id, g, h) && m < |g| && n < |h|
    requires id(g[m]) == id(h[n])
    ensures m == n && forall i :: 0 <= i <= m ==> Folded(nfc, g[i]) == Folded(nfc, h[i])
    decreases m
  {
    assert Link(id, g, m) && Link(id, h, n);
    FoldingKeeps(nfc, g[m], h[n]);
    if m > 0 { DigestsPin(nfc, id, g, h, m - 1, n - 1); }
  }

  // ----- the writer -----

  method WriteOption(w: CanonWriter, o: Option<text>, ghost tail: seq<byte>)
    modifies w
    ensures w.buf + tail == old(w.buf) + OptionField(o, tail)
  {
    match o
    case None => WriteUint(w, 0, tail);
    case Some(b) => WriteUint(w, 1, Frame(Encode(b)) + tail); WriteBytes(w, Encode(b), tail);
  }

  method WriteDigest(w: CanonWriter, o: Option<digest>, ghost tail: seq<byte>)
    modifies w
    ensures w.buf + tail == old(w.buf) + DigestField(o, tail)
  {
    match o
    case None => WriteUint(w, 0, tail);
    case Some(d) => WriteUint(w, 1, Frame(d) + tail); WriteBytes(w, d, tail);
  }

  method WriteChange(nfc: text -> text, w: CanonWriter, c: Change<digest>, ghost tail: seq<byte>)
    modifies w
    ensures w.buf + tail == old(w.buf) + ChangeField(nfc, c, tail)
  {
    WriteUint(w, ChangeOrdinal(c), ChangePayload(nfc, c, tail));
    match c
    case Init =>
    case Assert(list) => WriteList(w, Idents(nfc, list), tail);
    case Retract(list) => WriteList(w, Idents(nfc, list), tail);
    case Program(previous, dropped) =>
      WriteBytes(w, previous, List(Idents(nfc, dropped)) + tail);
      WriteList(w, Idents(nfc, dropped), tail);
  }

  method WriteResult(nfc: text -> text, w: CanonWriter, r: RevisionResult<digest>)
    modifies w
    ensures w.buf == old(w.buf) + ResultField(nfc, r)
  {
    ghost var t5 := List(Texts(r.diagnostics));
    ghost var t4 := DigestField(r.outcomes, t5);
    ghost var t3 := DigestField(r.facts, t4);
    ghost var t2 := DigestField(r.context, t3);
    ghost var t1 := DigestField(r.decision, t2);
    WriteUint(w, r.status.Ordinal(), OptionField(FoldOption(nfc, r.candidate), t1));
    WriteOption(w, FoldOption(nfc, r.candidate), t1);
    WriteDigest(w, r.decision, t2);
    WriteDigest(w, r.context, t3);
    WriteDigest(w, r.facts, t4);
    WriteDigest(w, r.outcomes, t5);
    NothingBehind(w.buf, t5);
    WriteList(w, Texts(r.diagnostics), []);
    NothingBehind(w.buf, []);
  }

  lemma NothingBehind(s: seq<byte>, t: seq<byte>)
    ensures t + [] == t && s + (t + []) == s + t && s + [] == s
  {
  }

  method WriteBody(nfc: text -> text, w: CanonWriter, r: RevisionRecord<digest>)
    modifies w
    ensures w.buf == old(w.buf) + BodyField(nfc, r)
  {
    ghost var t4 := ResultField(nfc, r.result);
    ghost var t3 := ChangeField(nfc, r.change, t4);
    ghost var t2 := Frame(Encode(r.snapshotPath)) + t3;
    ghost var t1 := Frame(r.snapshotId) + t2;
    WriteBytes(w, r.programId, Frame(Encode(r.programPath)) + t1);
    WriteBytes(w, Encode(r.programPath), t1);
    WriteBytes(w, r.snapshotId, t2);
    WriteBytes(w, Encode(r.snapshotPath), t3);
    WriteChange(nfc, w, r.change, t4);
    WriteResult(nfc, w, r.result);
  }

  method WritePreimage(nfc: text -> text, tag: bytes, r: RevisionRecord<digest>) returns (preimage: seq<byte>)
    requires Encodable(r)
    ensures preimage == TaggedPreimage(nfc, tag, r)
  {
    var w := new CanonWriter();
    ghost var t2 := BodyField(nfc, r);
    ghost var t1 := DigestField(r.parent, t2);
    WriteBytes(w, tag, Uint(r.seqNo) + t1);
    WriteUint(w, r.seqNo, t1);
    WriteDigest(w, r.parent, t2);
    WriteBody(nfc, w, r);
    preimage := w.buf;
  }

  /** The record's own digest: the hash of what the writer holds at the end. */
  method Digest(nfc: text -> text, hash: seq<byte> -> digest, r: RevisionRecord<digest>) returns (d: digest)
    requires Encodable(r)
    ensures d == DigestOf(nfc, hash, r)
  {
    var preimage := WritePreimage(nfc, REVISION_TAG, r);
    d := hash(preimage);
  }
}
