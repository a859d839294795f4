/** Which texts are revision files: a relation between a document and the record and
    digest it spells, written without the decoder, and that exactly the texts of
    such documents are accepted. */
module RevisionGrammar {
  import opened Options
  import opened CanonBytes
  import opened Utf8
  import opened Revision
  import opened StrictJson
  import opened JsonGrammar
  import opened RevisionJson

  // ----- fields -----

  ghost predicate HasField(v: Value, key: string, w: Value) {
    v.Obj? && Field(key, w) in v.fields
  }

  ghost predicate LacksField(v: Value, key: string) {
    v.Obj? && forall f :: f in v.fields ==> f.key != key
  }

  ghost predicate KeysAmong(v: Value, keys: set<string>) {
    v.Obj? && forall f :: f in v.fields ==> f.key in keys
  }

  /** Two hexadecimal digits a byte, in either case. */
  ghost predicate HexOf(s: string, d: digest) {
    |s| == 64 && forall i :: 0 <= i < 32 ==> IsHexOf(s[2 * i], d[i] / 16) && IsHexOf(s[2 * i + 1], d[i] % 16)
  }

  ghost predicate HasHex(v: Value, key: string, d: digest) {
    exists s :: HasField(v, key, Str(s)) && HexOf(s, d)
  }

  /** Nothing is written as null or left out. */
  ghost predicate Nothing(v: Value, key: string) {
    LacksField(v, key) || HasField(v, key, Null)
  }

  ghost predicate HasOptText(v: Value, key: string, o: Option<text>) {
    if o.Some? then HasField(v, key, Str(o.value)) else Nothing(v, key)
  }

  ghost predicate HasOptHex(v: Value, key: string, o: Option<digest>) {
    if o.Some? then HasHex(v, key, o.value) else Nothing(v, key)
  }

  ghost predicate HasTexts(v: Value, key: string, list: names) {
    exists items :: HasField(v, key, Arr(items)) && Lists(items, list)
  }

  predicate Lists(items: seq<Value>, list: names) {
    |items| == |list| && forall i :: 0 <= i < |items| ==> items[i] == Str(list[i])
  }

  // ----- records -----

  ghost predicate SpellsChange(v: Value, c: Change<digest>) {
    match c
    case Init => KeysAmong(v, {"kind"}) && HasField(v, "kind", Str("init"))
    case Assert(list) => KeysAmong(v, {"kind", "names"}) && HasField(v, "kind", Str("assert")) && HasTexts(v, "names", list)
    case Retract(list) => KeysAmong(v, {"kind", "names"}) && HasField(v, "kind", Str("retract")) && HasTexts(v, "names", list)
    case Program(previous, dropped) =>
      && KeysAmong(v, {"kind", "previous_program_id", "dropped_inputs"}) && HasField(v, "kind", Str("program"))
      && HasHex(v, "previous_program_id", previous) && HasTexts(v, "dropped_inputs", dropped)
  }

  ghost predicate SpellsStatus(s: string, status: Status) {
    match status
    case Selected => s == "selected"
    case Quiescent => s == "quiescent"
    case Unknown => s == "unknown"
    case MissingInputs => s == "missing-inputs"
  }

  ghost predicate HasStatus(v: Value, status: Status) {
    exists s :: HasField(v, "status", Str(s)) && SpellsStatus(s, status)
  }

  ghost predicate SpellsResult(v: Value, r: RevisionResult<digest>) {
    && KeysAmong(v, {"status", "candidate", "decision_digest", "context_id", "facts_digest", "outcomes_digest", "diagnostics"})
    && HasStatus(v, r.status) && HasOptText(v, "candidate", r.candidate)
    && HasOptHex(v, "decision_digest", r.decision) && HasOptHex(v, "context_id", r.context)
    && HasOptHex(v, "facts_digest", r.facts) && HasOptHex(v, "outcomes_digest", r.outcomes)
    && HasTexts(v, "diagnostics", r.diagnostics)
  }

  ghost predicate HasChange(v: Value, c: Change<digest>) {
    exists w :: HasField(v, "change", w) && SpellsChange(w, c)
  }

  ghost predicate HasResult(v: Value, r: RevisionResult<digest>) {
    exists w :: HasField(v, "result", w) && SpellsResult(w, r)
  }

  /** The document spells this record and stores this digest with it. Keys come in
      any order, and no others come. */
  ghost predicate SpellsRecord(v: Value, r: Record, stored: digest) {
    && KeysAmong(v, {"schema", "seq", "parent", "program_id", "program_path", "snapshot_id", "snapshot_path", "change", "result", "digest"})
    && HasField(v, "schema", Str(REVISION_SCHEMA))
    && HasField(v, "seq", Int(r.seqNo)) && HasOptHex(v, "parent", r.parent)
    && HasHex(v, "program_id", r.programId) && HasField(v, "program_path", Str(r.programPath))
    && HasHex(v, "snapshot_id", r.snapshotId) && HasField(v, "snapshot_path", Str(r.snapshotPath))
    && HasChange(v, r.change) && HasResult(v, r.result) && HasHex(v, "digest", stored)
  }

  // ----- the accessors -----

  /** An object that names no key twice. */
  predicate IsObject(v: Value) {
    v.Obj? && DistinctKeys(v.fields)
  }

  lemma {:induction false} FindExact(fields: seq<Field>, key: string)
    requires DistinctKeys(fields)
    ensures Find(fields, key).None? <==> forall f :: f in fields ==> f.key != key
    ensures forall w :: Find(fields, key) == Some(w) <==> Field(key, w) in fields
  {
    if fields != [] {
      FindExact(fields[1..], key);
      assert fields == [fields[0]] + fields[1..];
      forall f | f in fields[1..] ensures f.key != fields[0].key {
        var i :| 0 <= i < |fields[1..]| && fields[1..][i] == f;
        assert fields[0].key != fields[i + 1].key;
      }
    }
  }

  lemma GetExact(v: Value, key: string)
    requires IsObject(v)
    ensures Get(v, key).None? <==> LacksField(v, key)
    ensures forall w :: Get(v, key) == Some(w) <==> HasField(v, key, w)
  {
    FindExact(v.fields, key);
  }

  lemma StrExact(v: Value, key: string, s: text)
    requires IsObject(v)
    ensures FieldStr(v, key) == Decoded(s) <==> HasField(v, key, Str(s))
  {
    GetExact(v, key);
  }

  lemma U64Exact(v: Value, key: string, n: nat)
    requires IsObject(v)
    ensures FieldU64(v, key) == Decoded(n) <==> HasField(v, key, Int(n))
  {
    GetExact(v, key);
  }

  lemma OptStrExact(v: Value, key: string, o: Option<text>)
    requires IsObject(v)
    ensures FieldOptStr(v, key) == Decoded(o) <==> HasOptText(v, key, o)
  {
    GetExact(v, key);
  }

  lemma ListExact(items: seq<Value>, list: names)
    ensures TextList(items) == Decoded(list) <==> Lists(items, list)
  {
    if Lists(items, list) {
      assert forall i :: 0 <= i < |items| ==> IsText(items[i]);
      assert TextList(items).value == list;
    }
  }

  lemma TextsExact(v: Value, key: string, list: names)
    requires IsObject(v)
    ensures FieldTexts(v, key) == Decoded(list) <==> HasTexts(v, key, list)
  {
    GetExact(v, key);
    forall items ensures TextList(items) == Decoded(list) <==> Lists(items, list) { ListExact(items, list); }
  }

  lemma UnhexExact(s: string, d: digest)
    ensures Unhex(s) == Some(d) <==> HexOf(s, d)
  {
    if |s| == 64 {
      forall i | 0 <= i < 64 ensures HexDigit(s[i]).Some? ==> IsHexOf(s[i], HexDigit(s[i]).value) {
        if HexDigit(s[i]).Some? { HexDigitIs(s[i], HexDigit(s[i]).value); }
      }
      if Unhex(s) == Some(d) {
        forall i | 0 <= i < 32 ensures IsHexOf(s[2 * i], d[i] / 16) && IsHexOf(s[2 * i + 1], d[i] % 16) {
          assert d[i] == HexByte(s, i);
        }
      }
      if HexOf(s, d) { HexReads(s, d); }
    }
  }

  lemma HexReads(s: string, d: digest)
    requires HexOf(s, d)
    ensures Unhex(s) == Some(d)
  {
    forall i | 0 <= i < 32
      ensures HexDigit(s[2 * i]) == Some(d[i] / 16) && HexDigit(s[2 * i + 1]) == Some(d[i] % 16)
    {
      HexDigitIs(s[2 * i], d[i] / 16);
      HexDigitIs(s[2 * i + 1], d[i] % 16);
    }
    forall j | 0 <= j < 64 ensures HexDigit(s[j]).Some? {
      var i := j / 2;
      assert HexDigit(s[2 * i]).Some? && HexDigit(s[2 * i + 1]).Some? && (j == 2 * i || j == 2 * i + 1);
    }
    assert forall i :: 0 <= i < 32 ==> HexByte(s, i) == d[i];
    assert Unhex(s).value == d;
  }

  lemma DigestExact(v: Value, key: string, d: digest)
    requires IsObject(v)
    ensures FieldDigest(v, key) == Decoded(d) <==> HasHex(v, key, d)
  {
    GetExact(v, key);
    forall s ensures Unhex(s) == Some(d) <==> HexOf(s, d) { UnhexExact(s, d); }
    forall s | HexOf(s, d) ensures Utf8Length(s) < I64_BOUND { LengthBounds(s); }
  }

  lemma OptDigestExact(v: Value, key: string, o: Option<digest>)
    requires IsObject(v)
    ensures FieldOptDigest(v, key) == Decoded(o) <==> HasOptHex(v, key, o)
  {
    GetExact(v, key);
    if o.Some? {
      forall s ensures Unhex(s) == Some(o.value) <==> HexOf(s, o.value) { UnhexExact(s, o.value); }
      forall s | HexOf(s, o.value) ensures Utf8Length(s) < I64_BOUND { LengthBounds(s); }
    }
  }

  lemma OnlyExact(v: Value, allowed: seq<string>, keys: set<string>)
    requires forall k :: k in allowed <==> k in keys
    ensures Only(v, allowed) == Decoded(()) <==> KeysAmong(v, keys)
  {
  }

  // ----- changes and results -----

  lemma ChangeExact(v: Value, c: Change<digest>)
    requires IsObject(v)
    ensures DecodeChange(v) == Decoded(c) <==> SpellsChange(v, c)
  {
    KindDecides(v, c);
    match c
    case Init => OnlyExact(v, ["kind"], {"kind"});
    case Assert(list) => OnlyExact(v, CHANGE_KEYS, {"kind", "names"}); TextsExact(v, "names", list);
    case Retract(list) => OnlyExact(v, CHANGE_KEYS, {"kind", "names"}); TextsExact(v, "names", list);
    case Program(previous, dropped) =>
      OnlyExact(v, PROGRAM_KEYS, {"kind", "previous_program_id", "dropped_inputs"});
      DigestExact(v, "previous_program_id", previous);
      TextsExact(v, "dropped_inputs", dropped);
  }

  function KindOf(c: Change<digest>): text {
    var kind := match c case Init => "init" case Assert(_) => "assert" case Retract(_) => "retract" case Program(_, _) => "program";
    LengthBounds(kind);
    kind
  }

  /** The kind picks the fields that are read. */
  lemma KindDecides(v: Value, c: Change<digest>)
    requires IsObject(v)
    ensures DecodeChange(v) == Decoded(c) <==> HasField(v, "kind", Str(KindOf(c))) && RestDecodes(v, c)
  {
    StrExact(v, "kind", KindOf(c));
    KindsDiffer(c);
    if FieldStr(v, "kind").Decoded? { KindIs(v, c, FieldStr(v, "kind").value); }
  }

  predicate RestDecodes(v: Value, c: Change<digest>) {
    match c
    case Init => OnlyKeys(v, ["kind"])
    case Assert(list) => OnlyKeys(v, CHANGE_KEYS) && FieldTexts(v, "names") == Decoded(list)
    case Retract(list) => OnlyKeys(v, CHANGE_KEYS) && FieldTexts(v, "names") == Decoded(list)
    case Program(previous, dropped) =>
      && OnlyKeys(v, PROGRAM_KEYS) && FieldDigest(v, "previous_program_id") == Decoded(previous)
      && FieldTexts(v, "dropped_inputs") == Decoded(dropped)
  }

  lemma KindIs(v: Value, c: Change<digest>, kind: text)
    requires FieldStr(v, "kind") == Decoded(kind)
    ensures DecodeChange(v) == Decoded(c) <==> kind == KindOf(c) && RestDecodes(v, c)
  {
    KindsDiffer(c);
    if kind == "init" {
      InitKind(v, c);
    } else if kind == "assert" {
      ListKind(v, c, kind);
    } else if kind == "retract" {
      ListKind(v, c, kind);
    } else if kind == "program" {
      ProgramKind(v, c, kind);
    } else {
      assert DecodeChange(v).Refused?;
    }
  }

  lemma InitKind(v: Value, c: Change<digest>)
    requires FieldStr(v, "kind") == Decoded("init")
    ensures DecodeChange(v) == Decoded(c) <==> c.Init? && RestDecodes(v, c)
  {
  }

  lemma ListKind(v: Value, c: Change<digest>, kind: text)
    requires (kind == "assert" || kind == "retract") && FieldStr(v, "kind") == Decoded(kind)
    ensures DecodeChange(v) == Decoded(c) <==> (if kind == "assert" then c.Assert? else c.Retract?) && RestDecodes(v, c)
  {
    assert kind[0] != "init"[0] && "retract"[0] != "assert"[0];
  }

  lemma ProgramKind(v: Value, c: Change<digest>, kind: text)
    requires kind == "program" && FieldStr(v, "kind") == Decoded(kind)
    ensures DecodeChange(v) == Decoded(c) <==> c.Program? && RestDecodes(v, c)
  {
    assert kind[0] != "init"[0] && kind[0] != "assert"[0] && kind[0] != "retract"[0];
  }

  lemma KindsDiffer(c: Change<digest>)
    ensures var k := KindOf(c);
            && (k == "init" <==> c.Init?) && (k == "assert" <==> c.Assert?)
            && (k == "retract" <==> c.Retract?) && (k == "program" <==> c.Program?)
  {
    assert "init"[0] == 'i' && "assert"[0] == 'a' && "retract"[0] == 'r' && "program"[0] == 'p';
  }

  lemma StatusExact(v: Value, status: Status)
    requires IsObject(v)
    ensures (FieldStr(v, "status").Decoded? && DecodeStatus(FieldStr(v, "status").value) == Decoded(status)) <==> HasStatus(v, status)
  {
    GetExact(v, "status");
    forall s ensures DecodeStatus(s) == Decoded(status) <==> SpellsStatus(s, status) { StatusIs(s, status); }
    forall s | SpellsStatus(s, status) ensures Utf8Length(s) < I64_BOUND { LengthBounds(s); }
  }

  lemma StatusIs(s: string, status: Status)
    ensures DecodeStatus(s) == Decoded(status) <==> SpellsStatus(s, status)
  {
    StatusBack(status);
  }

  lemma ResultExact(v: Value, r: RevisionResult<digest>)
    requires IsObject(v)
    ensures DecodeResult(v) == Decoded(r) <==> SpellsResult(v, r)
  {
    OnlyExact(v, RESULT_KEYS,
              {"status", "candidate", "decision_digest", "context_id", "facts_digest", "outcomes_digest", "diagnostics"});
    StatusExact(v, r.status);
    OptStrExact(v, "candidate", r.candidate);
    OptDigestExact(v, "decision_digest", r.decision);
    OptDigestExact(v, "context_id", r.context);
    OptDigestExact(v, "facts_digest", r.facts);
    OptDigestExact(v, "outcomes_digest", r.outcomes);
    TextsExact(v, "diagnostics", r.diagnostics);
    ResultDecides(v, r);
  }

  /** The decoder gives this result just when every accessor gives its part. */
  lemma ResultDecides(v: Value, r: RevisionResult<digest>)
    ensures DecodeResult(v) == Decoded(r) <==>
            && Only(v, RESULT_KEYS) == Decoded(())
            && FieldStr(v, "status").Decoded? && DecodeStatus(FieldStr(v, "status").value) == Decoded(r.status)
            && FieldOptStr(v, "candidate") == Decoded(r.candidate)
            && FieldOptDigest(v, "decision_digest") == Decoded(r.decision)
            && FieldOptDigest(v, "context_id") == Decoded(r.context)
            && FieldOptDigest(v, "facts_digest") == Decoded(r.facts)
            && FieldOptDigest(v, "outcomes_digest") == Decoded(r.outcomes)
            && FieldTexts(v, "diagnostics") == Decoded(r.diagnostics)
  {
  }

  // ----- the record -----

  /** The object under `key` is one that the decoder reads as wanted. */
  lemma ChangeFieldExact(v: Value, c: Change<digest>)
    requires IsObject(v) && Clean(v)
    ensures (FieldObj(v, "change").Decoded? && DecodeChange(FieldObj(v, "change").value) == Decoded(c)) <==> HasChange(v, c)
  {
    GetExact(v, "change");
    forall w | HasField(v, "change", w) && w.Obj? ensures DecodeChange(w) == Decoded(c) <==> SpellsChange(w, c) {
      FieldIsClean(v, "change", w);
      ChangeExact(w, c);
    }
  }

  lemma ResultFieldExact(v: Value, r: RevisionResult<digest>)
    requires IsObject(v) && Clean(v)
    ensures (FieldObj(v, "result").Decoded? && DecodeResult(FieldObj(v, "result").value) == Decoded(r)) <==> HasResult(v, r)
  {
    GetExact(v, "result");
    forall w | HasField(v, "result", w) && w.Obj? ensures DecodeResult(w) == Decoded(r) <==> SpellsResult(w, r) {
      FieldIsClean(v, "result", w);
      ResultExact(w, r);
    }
  }

  lemma FieldIsClean(v: Value, key: string, w: Value)
    requires Clean(v) && HasField(v, key, w)
    ensures Clean(w)
  {
  }

  lemma NamesExact(v: Value, n: Names)
    requires IsObject(v)
    ensures DecodeNames(v) == Decoded(n) <==>
            && HasField(v, "seq", Int(n.seqNo)) && HasOptHex(v, "parent", n.parent)
            && HasHex(v, "program_id", n.programId) && HasField(v, "program_path", Str(n.programPath))
            && HasHex(v, "snapshot_id", n.snapshotId) && HasField(v, "snapshot_path", Str(n.snapshotPath))
  {
    U64Exact(v, "seq", n.seqNo);
    OptDigestExact(v, "parent", n.parent);
    DigestExact(v, "program_id", n.programId);
    StrExact(v, "program_path", n.programPath);
    DigestExact(v, "snapshot_id", n.snapshotId);
    StrExact(v, "snapshot_path", n.snapshotPath);
  }

  lemma AccountExact(v: Value, a: Account)
    requires IsObject(v) && Clean(v)
    ensures DecodeAccount(v) == Decoded(a) <==> HasChange(v, a.change) && HasResult(v, a.result) && HasHex(v, "digest", a.stored)
  {
    ChangeFieldExact(v, a.change);
    ResultFieldExact(v, a.result);
    DigestExact(v, "digest", a.stored);
  }

  lemma SchemaExact(v: Value)
    requires IsObject(v)
    ensures DecodeSchema(v) == Decoded(()) <==> HasField(v, "schema", Str(REVISION_SCHEMA))
  {
    ShortExact(v, "schema", REVISION_SCHEMA);
  }

  lemma ShortExact(v: Value, key: string, s: string)
    requires IsObject(v) && |s| <= 64
    ensures FieldStr(v, key) == Decoded(s) <==> HasField(v, key, Str(s))
  {
    LengthBounds(s);
    GetExact(v, key);
  }

  /** Decoding a document gives a record and a digest if and only if the document
      spells them. */
  lemma RecordExact(v: Value, r: Record, stored: digest)
    requires Clean(v)
    ensures DecodeFields(v) == Decoded((r, stored)) <==> SpellsRecord(v, r, stored)
  {
    if v.Obj? {
      var n := Names(r.seqNo, r.parent, r.programId, r.programPath, r.snapshotId, r.snapshotPath);
      var a := Account(r.change, r.result, stored);
      OnlyExact(v, RECORD_KEYS,
                {"schema", "seq", "parent", "program_id", "program_path", "snapshot_id", "snapshot_path", "change", "result", "digest"});
      SchemaExact(v);
      NamesExact(v, n);
      AccountExact(v, a);
      FieldsDecide(v, r, stored, n, a);
    }
  }

  lemma FieldsDecide(v: Value, r: Record, stored: digest, n: Names, a: Account)
    requires r == RecordIn(n, a) && stored == a.stored
    ensures DecodeFields(v) == Decoded((r, stored)) <==>
            Only(v, RECORD_KEYS) == Decoded(()) && DecodeSchema(v) == Decoded(()) && DecodeNames(v) == Decoded(n) && DecodeAccount(v) == Decoded(a)
  {
    if Only(v, RECORD_KEYS).Decoded? && DecodeSchema(v).Decoded? && DecodeNames(v).Decoded? && DecodeAccount(v).Decoded? {
      PartsDecoded(v, DecodeNames(v).value, DecodeAccount(v).value);
      RecordInInjective(DecodeNames(v).value, DecodeAccount(v).value, n, a);
    }
  }

  lemma PartsDecoded(v: Value, n: Names, a: Account)
    requires Only(v, RECORD_KEYS).Decoded? && DecodeSchema(v).Decoded? && DecodeNames(v) == Decoded(n) && DecodeAccount(v) == Decoded(a)
    ensures DecodeFields(v) == Decoded((RecordIn(n, a), a.stored))
  {
  }

  lemma RecordInInjective(n: Names, a: Account, m: Names, b: Account)
    ensures RecordIn(n, a) == RecordIn(m, b) && a.stored == b.stored <==> n == m && a == b
  {
  }

  // ----- files -----

  /** This document is what the text spells, within the reader's bounds, and the
      digest it stores for the record is the record's. */
  ghost predicate IsFileOf(nfc: text -> text, hash: seq<byte> -> digest, contents: string, r: Record, v: Value) {
    SpelledBy(contents, v) && Clean(v) && Within(v, MAX_DEPTH) && SpellsRecord(v, r, DigestOf(nfc, hash, r))
  }

  /** A text is accepted as the file of a record if and only if it is no longer than
      the limit and spells a document of that record with the record's digest:
      keys in any order, white space and escapes as one likes, hexadecimal in
      either case, null or nothing for what is not there, and no other key. */
  lemma FileExact(nfc: text -> text, hash: seq<byte> -> digest, contents: string, r: Record)
    ensures FromText(nfc, hash, contents) == Decoded(r) <==>
            Utf8Length(contents) <= MAX_KB_JSON_BYTES && exists v :: IsFileOf(nfc, hash, contents, r, v)
  {
    if FromText(nfc, hash, contents) == Decoded(r) { AcceptedIsFile(nfc, hash, contents, r); }
    if Utf8Length(contents) <= MAX_KB_JSON_BYTES {
      forall v | IsFileOf(nfc, hash, contents, r, v) ensures FromText(nfc, hash, contents) == Decoded(r) {
        FileIsAccepted(nfc, hash, contents, r, v);
      }
    }
  }

  lemma AcceptedIsFile(nfc: text -> text, hash: seq<byte> -> digest, contents: string, r: Record)
    requires FromText(nfc, hash, contents) == Decoded(r)
    ensures IsFileOf(nfc, hash, contents, r, ParseDocument(contents).value) && Utf8Length(contents) <= MAX_KB_JSON_BYTES
  {
    ParsedFile(nfc, hash, contents, r, ParseDocument(contents).value);
  }

  lemma FileIsAccepted(nfc: text -> text, hash: seq<byte> -> digest, contents: string, r: Record, v: Value)
    requires IsFileOf(nfc, hash, contents, r, v) && Utf8Length(contents) <= MAX_KB_JSON_BYTES
    ensures FromText(nfc, hash, contents) == Decoded(r)
  {
    DocumentExact(contents, v);
    ParsedFile(nfc, hash, contents, r, v);
  }

  lemma ParsedFile(nfc: text -> text, hash: seq<byte> -> digest, contents: string, r: Record, v: Value)
    requires ParseDocument(contents) == Ok(v)
    ensures FromText(nfc, hash, contents) == Decoded(r) <==> SpellsRecord(v, r, DigestOf(nfc, hash, r))
    ensures SpelledBy(contents, v) && Clean(v) && Within(v, MAX_DEPTH) && Utf8Length(contents) <= MAX_KB_JSON_BYTES
  {
    DocumentExact(contents, v);
    RecordExact(v, r, DigestOf(nfc, hash, r));
    if DecodeFields(v).Decoded? { RecordExact(v, DecodeFields(v).value.0, DecodeFields(v).value.1); }
  }
}
