/** Revision files: what is written is read back exactly when it is within the
    reader's bounds, and a file whose digest is not that of its other fields is
    refused. How long a file gets is bounded from below by what it reports. */
module RevisionFiles {
  import opened Options
  import opened CanonBytes
  import opened Utf8
  import opened Revision
  import opened StrictJson
  import opened JsonGrammar
  import opened JsonRoundTrip
  import opened RevisionJson

  /** Within the reader's bounds: its numbers are `i64`s and its size is limited. */
  predicate Fits(nfc: text -> text, hash: seq<byte> -> digest, r: Record) {
    r.seqNo < I64_BOUND && Utf8Length(RecordText(nfc, hash, r)) <= MAX_KB_JSON_BYTES
  }

  // ----- the document is one the reader takes -----

  lemma TextsTame(list: names)
    ensures Clean(TextsJson(list)) && Within(TextsJson(list), 1)
  {
  }

  lemma ChangeTame(c: Change<digest>)
    ensures Clean(ChangeJson(c)) && Within(ChangeJson(c), 2)
  {
    var v := ChangeJson(c);
    ChangeKeysApart(c);
    ApartDistinct(v.fields);
    match c
    case Init =>
    case Assert(list) => TextsTame(list);
    case Retract(list) => TextsTame(list);
    case Program(_, dropped) => TextsTame(dropped);
  }

  lemma ResultTame(r: RevisionResult<digest>)
    ensures Clean(ResultJson(r)) && Within(ResultJson(r), 2)
  {
    var v := ResultJson(r);
    ResultKeysApart(r);
    ApartDistinct(v.fields);
    TextsTame(r.diagnostics);
  }

  lemma {:induction false} WithinMore(v: Value, k: nat, n: nat)
    requires Within(v, k) && k <= n
    ensures Within(v, n)
    decreases v
  {
    match v
    case Arr(items) =>
      forall i | 0 <= i < |items| ensures Within(items[i], n - 1) { WithinMore(items[i], k - 1, n - 1); }
    case Obj(fields) =>
      forall i | 0 <= i < |fields| ensures Within(fields[i].value, n - 1) { WithinMore(fields[i].value, k - 1, n - 1); }
    case _ =>
  }

  lemma RecordTame(r: Record, stored: digest)
    requires r.seqNo < I64_BOUND
    ensures Clean(RecordDoc(r, stored)) && Within(RecordDoc(r, stored), MAX_DEPTH)
  {
    var v := RecordDoc(r, stored);
    RecordKeysApart(r, stored);
    ApartDistinct(v.fields);
    ChangeTame(r.change);
    ResultTame(r.result);
    WithinMore(ChangeJson(r.change), 2, MAX_DEPTH - 1);
    WithinMore(ResultJson(r.result), 2, MAX_DEPTH - 1);
    assert forall i :: 0 <= i < 10 ==> Clean(v.fields[i].value) && Within(v.fields[i].value, MAX_DEPTH - 1);
  }

  // ----- reading a file -----

  predicate DocFits(r: Record, stored: digest) {
    r.seqNo < I64_BOUND && Utf8Length(DocText(r, stored)) <= MAX_KB_JSON_BYTES
  }

  /** The fields of `r` with `stored` as the digest read as follows: not at all
      beyond the reader's bounds, as `r` if `stored` is its digest, and as a digest
      mismatch otherwise. */
  lemma StoredDigestDecides(nfc: text -> text, hash: seq<byte> -> digest, r: Record, stored: digest)
    ensures FromText(nfc, hash, DocText(r, stored)) ==
            if !DocFits(r, stored) then Refused(Malformed)
            else if stored == DigestOf(nfc, hash, r) then Decoded(r)
            else Refused(DigestMismatch)
  {
    var v := RecordDoc(r, stored);
    PrettyIsGood();
    if r.seqNo < I64_BOUND { RecordTame(r, stored); } else { WideIsRefused(r, stored); }
    ParseOfPrint(Pretty(), v);
    RecordBack(r, stored);
    ReadsAs(nfc, hash, DocText(r, stored), v, r, stored);
  }

  lemma WideIsRefused(r: Record, stored: digest)
    requires r.seqNo >= I64_BOUND
    ensures !Clean(RecordDoc(r, stored))
  {
    var v := RecordDoc(r, stored);
    assert v.fields[7].value == Int(r.seqNo) && !Clean(v.fields[7].value);
  }

  /** A record's file gives the record back if and only if it is within the
      reader's bounds, and is refused beyond them. */
  lemma WrittenReadsBack(nfc: text -> text, hash: seq<byte> -> digest, r: Record)
    ensures FromText(nfc, hash, RecordText(nfc, hash, r)) == if Fits(nfc, hash, r) then Decoded(r) else Refused(Malformed)
  {
    StoredDigestDecides(nfc, hash, r, DigestOf(nfc, hash, r));
  }

  /** Editing a record without its digest is noticed, unless the hash collides: a
      file with the fields of `r` and the digest of `q` is refused whenever the two
      differ by more than the folding of names. */
  lemma EditIsRefused(nfc: text -> text, hash: seq<byte> -> digest, r: Record, q: Record)
    requires r.seqNo < I64_BOUND && q.seqNo < I64_BOUND && Folded(nfc, r) != Folded(nfc, q)
    requires hash(Preimage(nfc, r)) == hash(Preimage(nfc, q)) ==> Preimage(nfc, r) == Preimage(nfc, q)
    ensures FromText(nfc, hash, DocText(r, DigestOf(nfc, hash, q))).Refused?
  {
    PreimageDetermines(nfc, r, q);
    StoredDigestDecides(nfc, hash, r, DigestOf(nfc, hash, q));
  }

  lemma ReadsAs(nfc: text -> text, hash: seq<byte> -> digest, contents: string, v: Value, r: Record, stored: digest)
    requires DecodeFields(v) == Decoded((r, stored)) && (ParseDocument(contents) == Ok(v) || ParseDocument(contents).Err?)
    ensures FromText(nfc, hash, contents) ==
            if ParseDocument(contents).Err? then Refused(Malformed) else CheckDigest(nfc, hash, (r, stored))
  {
  }

  lemma {:induction false} FoundIsClean(fields: seq<Field>, key: string)
    requires forall i :: 0 <= i < |fields| ==> Clean(fields[i].value)
    ensures Find(fields, key).Some? ==> Clean(Find(fields, key).value)
  {
    if fields != [] && fields[0].key != key { FoundIsClean(fields[1..], key); }
  }

  lemma NumberIsNarrow(v: Value)
    requires Clean(v) && FieldU64(v, "seq").Decoded?
    ensures FieldU64(v, "seq").value < I64_BOUND
  {
    if v.Obj? { FoundIsClean(v.fields, "seq"); }
  }

  lemma NamesAreNarrow(v: Value)
    requires Clean(v) && DecodeNames(v).Decoded?
    ensures DecodeNames(v).value.seqNo < I64_BOUND
  {
    NumberIsNarrow(v);
  }

  lemma FieldsAreNarrow(v: Value)
    requires Clean(v) && DecodeFields(v).Decoded?
    ensures DecodeFields(v).value.0.seqNo < I64_BOUND
  {
    NamesAreNarrow(v);
  }

  /** Whatever file is accepted has a number the reader takes. */
  lemma AcceptedIsNarrow(nfc: text -> text, hash: seq<byte> -> digest, contents: string)
    requires FromText(nfc, hash, contents).Decoded?
    ensures FromText(nfc, hash, contents).value.seqNo < I64_BOUND
  {
    FieldsAreNarrow(ParseDocument(contents).value);
  }

  // ----- how long a file gets -----

  /** A lower bound on the printed length of a value at depth `d`. */
  function Weight(v: Value, d: nat): nat
    decreases v, if v.Arr? then |v.items| + 1 else if v.Obj? then |v.fields| + 1 else 0
  {
    match v
    case Str(s) => |s| + 2
    case Arr(items) => ItemsWeight(v, 0, d + 1)
    case Obj(fields) => FieldsWeight(v, 0, d + 1)
    case _ => 0
  }

  /** Each item stands on a line of its own, behind two spaces a level. */
  function ItemsWeight(v: Value, i: nat, d: nat): nat
    requires v.Arr? && i <= |v.items|
    decreases v, |v.items| - i
  {
    if i == |v.items| then 0 else 1 + 2 * d + Weight(v.items[i], d) + ItemsWeight(v, i + 1, d)
  }

  function FieldsWeight(v: Value, i: nat, d: nat): nat
    requires v.Obj? && i <= |v.fields|
    decreases v, |v.fields| - i
  {
    if i == |v.fields| then 0 else Weight(v.fields[i].value, d) + FieldsWeight(v, i + 1, d)
  }

  lemma Longer(s: string, tail: string)
    ensures Utf8Length(s + tail) == Utf8Length(s) + Utf8Length(tail) >= |s| + Utf8Length(tail)
  {
    LengthAppend(s, tail);
    LengthBounds(s);
  }

  lemma {:induction false} QuoteLength(s: string, tail: string)
    ensures Utf8Length(QuoteOnto(Pretty(), s, tail)) >= |s| + 1 + Utf8Length(tail)
  {
    if s == "" {
      Longer("\"", tail);
    } else {
      QuoteLength(s[1..], tail);
      Longer(CharText(Pretty(), s[0]), QuoteOnto(Pretty(), s[1..], tail));
    }
  }

  lemma {:induction false} IndentLength(n: nat)
    ensures |Indent(n)| == 2 * n
  {
    if n > 0 { IndentLength(n - 1); }
  }

  lemma GapLength(d: nat, tail: string)
    ensures Utf8Length(Pretty().gap(d) + tail) >= 1 + 2 * d + Utf8Length(tail)
  {
    IndentLength(d);
    Longer(Pretty().gap(d), tail);
  }

  lemma {:induction false} PrintLength(v: Value, d: nat, tail: string)
    ensures Utf8Length(PrintOnto(Pretty(), v, d, tail)) >= Weight(v, d) + Utf8Length(tail)
    decreases v, if v.Arr? then |v.items| + 1 else if v.Obj? then |v.fields| + 1 else 0
  {
    match v
    case Null => Longer("null", tail);
    case Bool(b) => Longer(if b then "true" else "false", tail);
    case Int(n) => Longer(IntText(n), tail);
    case Str(s) => QuoteLength(s, tail); Longer("\"", QuoteOnto(Pretty(), s, tail));
    case Arr(items) =>
      if items == [] {
        Longer("]", tail);
        Longer("[", "]" + tail);
      } else {
        ItemsLength(v, 0, d + 1, tail);
        Longer("[", ItemsOnto(Pretty(), v, 0, d + 1, tail));
      }
    case Obj(fields) =>
      if fields == [] {
        Longer("}", tail);
        Longer("{", "}" + tail);
      } else {
        FieldsLength(v, 0, d + 1, tail);
        Longer("{", FieldsOnto(Pretty(), v, 0, d + 1, tail));
      }
  }

  lemma {:induction false} ItemsLength(v: Value, i: nat, d: nat, tail: string)
    requires v.Arr? && i < |v.items| && d > 0
    ensures Utf8Length(ItemsOnto(Pretty(), v, i, d, tail)) >= ItemsWeight(v, i, d) + Utf8Length(tail)
    decreases v, |v.items| - i
  {
    var after := AfterItem(Pretty(), v, i, d, tail);
    if i + 1 < |v.items| {
      ItemsLength(v, i + 1, d, tail);
      Longer(",", ItemsOnto(Pretty(), v, i + 1, d, tail));
    } else {
      Longer("]", tail);
      Longer(Pretty().gap(d - 1), "]" + tail);
    }
    PrintLength(v.items[i], d, after);
    GapLength(d, PrintOnto(Pretty(), v.items[i], d, after));
  }

  lemma {:induction false} FieldsLength(v: Value, i: nat, d: nat, tail: string)
    requires v.Obj? && i < |v.fields| && d > 0
    ensures Utf8Length(FieldsOnto(Pretty(), v, i, d, tail)) >= FieldsWeight(v, i, d) + Utf8Length(tail)
    decreases v, |v.fields| - i
  {
    var st := Pretty();
    var after := AfterField(st, v, i, d, tail);
    if i + 1 < |v.fields| {
      FieldsLength(v, i + 1, d, tail);
      Longer(",", FieldsOnto(st, v, i + 1, d, tail));
    } else {
      Longer("}", tail);
      Longer(st.gap(d - 1), "}" + tail);
    }
    var value := PrintOnto(st, v.fields[i].value, d, after);
    PrintLength(v.fields[i].value, d, after);
    Longer(st.colon, value);
    Longer(":", st.colon + value);
    QuoteLength(v.fields[i].key, ":" + (st.colon + value));
    var quoted := QuoteOnto(st, v.fields[i].key, ":" + (st.colon + value));
    Longer("\"", quoted);
    Longer(st.gap(d), "\"" + quoted);
  }

  lemma {:induction false} FieldWeight(v: Value, i: nat, k: nat, d: nat)
    requires v.Obj? && i <= k < |v.fields|
    ensures FieldsWeight(v, i, d) >= Weight(v.fields[k].value, d)
    decreases k - i
  {
    if i < k { FieldWeight(v, i + 1, k, d); }
  }

  lemma {:induction false} LinesWeigh(v: Value, i: nat, d: nat, n: nat)
    requires v.Arr? && i <= |v.items| && forall j :: 0 <= j < |v.items| ==> v.items[j].Str? && |v.items[j].s| >= n
    ensures ItemsWeight(v, i, d) >= (|v.items| - i) * (n + 3 + 2 * d)
    decreases |v.items| - i
  {
    if i < |v.items| { LinesWeigh(v, i + 1, d, n); }
  }

  lemma RecordWeighs(r: Record, stored: digest, n: nat)
    requires forall j :: 0 <= j < |r.result.diagnostics| ==> |r.result.diagnostics[j]| >= n
    ensures Weight(RecordDoc(r, stored), 0) >= |r.result.diagnostics| * (n + 9)
  {
    var v, result, lines := RecordDoc(r, stored), ResultJson(r.result), TextsJson(r.result.diagnostics);
    FieldWeight(v, 0, 5, 1);
    assert v.fields[5].value == result;
    FieldWeight(result, 0, 3, 2);
    assert result.fields[3].value == lines;
    LinesWeigh(lines, 0, 3, n);
  }

  /** Every diagnostic takes a line: its own length, its quotes, and the
      indentation. */
  lemma DiagnosticsTakeSpace(nfc: text -> text, hash: seq<byte> -> digest, r: Record, n: nat)
    requires forall j :: 0 <= j < |r.result.diagnostics| ==> |r.result.diagnostics[j]| >= n
    ensures Utf8Length(RecordText(nfc, hash, r)) >= |r.result.diagnostics| * (n + 9)
  {
    var stored := DigestOf(nfc, hash, r);
    RecordWeighs(r, stored, n);
    PrintLength(RecordDoc(r, stored), 0, "");
  }
}
