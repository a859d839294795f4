/** A revision record as the JSON document it is stored as: the document that is
    written, the decoder that reads it, and the digest that the document carries
    of its own other fields. */
module RevisionJson {
  import opened Options
  import opened CanonBytes
  import opened Utf8
  import opened Revision
  import opened StrictJson
  import opened JsonGrammar
  import opened JsonRoundTrip

  const REVISION_SCHEMA: string := "brix.kb.revision@1"

  datatype Decoded<+T> = Decoded(value: T) | Refused(error: DecodeError) {
    predicate IsFailure() { Refused? }
    function PropagateFailure<U>(): Decoded<U> requires Refused? { Refused(error) }
    function Extract(): T requires Decoded? { value }
  }

  // ----- digests in hexadecimal -----

  function Hex(b: seq<byte>): (r: string)
    ensures |r| == 2 * |b|
  {
    seq(2 * |b|, i requires 0 <= i < 2 * |b| => HexChar(if i % 2 == 0 then b[i / 2] / 16 else b[i / 2] % 16))
  }

  predicate AllHex(s: string) {
    forall i :: 0 <= i < |s| ==> HexDigit(s[i]).Some?
  }

  function HexByte(s: string, i: nat): byte
    requires 2 * i + 1 < |s| && AllHex(s)
  {
    HexDigit(s[2 * i]).value * 16 + HexDigit(s[2 * i + 1]).value
  }

  function Unhex(s: string): Option<digest> {
    if |s| == 64 && AllHex(s) then Some(seq(32, i requires 0 <= i < 32 => HexByte(s, i))) else None
  }

  lemma HexBack(d: digest)
    ensures Unhex(Hex(d)) == Some(d)
  {
    var s := Hex(d);
    forall i | 0 <= i < 32
      ensures HexDigit(s[2 * i]) == Some(d[i] / 16) && HexDigit(s[2 * i + 1]) == Some(d[i] % 16)
    {
      assert (2 * i + 1) / 2 == i && (2 * i + 1) % 2 == 1;
      HexCharBack(d[i] / 16);
      HexCharBack(d[i] % 16);
    }
    forall j | 0 <= j < 64 ensures HexDigit(s[j]).Some? {
      assert j == 2 * (j / 2) || j == 2 * (j / 2) + 1;
    }
    assert forall i :: 0 <= i < 32 ==> HexByte(s, i) == d[i];
    assert Unhex(s).value == d;
  }

  /** Two digits a byte into a fixed array. */
  method HexToDigest(s: string) returns (r: Option<digest>)
    ensures r == Unhex(s)
  {
    if |s| != 64 { return None; }
    for i := 0 to 64
      invariant forall j :: 0 <= j < i ==> HexDigit(s[j]).Some?
    {
      if HexDigit(s[i]).None? { return None; }
    }
    var bytes := new byte[32](_ => 0);
    for i := 0 to 32
      invariant forall j :: 0 <= j < i ==> bytes[j] == HexByte(s, j)
    {
      bytes[i] := HexByte(s, i);
    }
    assert bytes[..] == Unhex(s).value;
    r := Some(bytes[..]);
  }

  // ----- the accessors of the decoder -----

  function Find(fields: seq<Field>, key: string): Option<Value> {
    if fields == [] then None
    else if fields[0].key == key then Some(fields[0].value)
    else Find(fields[1..], key)
  }

  function Get(v: Value, key: string): Option<Value> {
    if v.Obj? then Find(v.fields, key) else None
  }

  predicate OnlyKeys(v: Value, allowed: seq<string>) {
    v.Obj? && forall i :: 0 <= i < |v.fields| ==> v.fields[i].key in allowed
  }

  /** No text is longer than memory can hold. */
  function AsText(s: string): Decoded<text> {
    if Utf8Length(s) < I64_BOUND then Decoded(s) else Refused(Malformed)
  }

  function FieldStr(v: Value, key: string): Decoded<text> {
    match Get(v, key) case Some(Str(s)) => AsText(s) case _ => Refused(Malformed)
  }

  /** A field that is absent or null counts as none. */
  function FieldOptStr(v: Value, key: string): Decoded<Option<text>> {
    match Get(v, key)
    case None => Decoded(None)
    case Some(Null) => Decoded(None)
    case Some(Str(s)) => var t :- AsText(s); Decoded(Some(t))
    case _ => Refused(Malformed)
  }

  function FieldU64(v: Value, key: string): Decoded<nat> {
    match Get(v, key) case Some(Int(n)) => if n >= 0 then Decoded(n) else Refused(Malformed) case _ => Refused(Malformed)
  }

  function FieldTexts(v: Value, key: string): Decoded<names> {
    match Get(v, key) case Some(Arr(items)) => TextList(items) case _ => Refused(Malformed)
  }

  predicate IsText(v: Value) {
    v.Str? && Utf8Length(v.s) < I64_BOUND
  }

  function TextIn(v: Value): text
    requires IsText(v)
  {
    v.s
  }

  function TextList(items: seq<Value>): Decoded<names> {
    if |items| < I64_BOUND && forall i :: 0 <= i < |items| ==> IsText(items[i])
    then Decoded(seq(|items|, i requires 0 <= i < |items| && IsText(items[i]) => TextIn(items[i])))
    else Refused(Malformed)
  }

  function FieldObj(v: Value, key: string): Decoded<Value> {
    match Get(v, key) case Some(Obj(fields)) => Decoded(Obj(fields)) case _ => Refused(Malformed)
  }

  function FieldDigest(v: Value, key: string): Decoded<digest> {
    var s :- FieldStr(v, key);
    match Unhex(s) case Some(d) => Decoded(d) case None => Refused(Malformed)
  }

  function FieldOptDigest(v: Value, key: string): Decoded<Option<digest>> {
    var o :- FieldOptStr(v, key);
    match o
    case None => Decoded(None)
    case Some(s) => match Unhex(s) case Some(d) => Decoded(Some(d)) case None => Refused(Malformed)
  }

  // ----- the document, its keys in the printer's order -----

  function HexJson(d: digest): Value {
    Str(Hex(d))
  }

  function OptHexJson(o: Option<digest>): Value {
    if o.Some? then HexJson(o.value) else Null
  }

  function OptJson(o: Option<text>): Value {
    if o.Some? then Str(o.value) else Null
  }

  function TextsJson(list: names): Value {
    Arr(seq(|list|, i requires 0 <= i < |list| => Str(list[i])))
  }

  function ChangeJson(c: Change<digest>): Value {
    match c
    case Init => Obj([Field("kind", Str("init"))])
    case Assert(list) => Obj([Field("kind", Str("assert")), Field("names", TextsJson(list))])
    case Retract(list) => Obj([Field("kind", Str("retract")), Field("names", TextsJson(list))])
    case Program(previous, dropped) =>
      Obj([Field("dropped_inputs", TextsJson(dropped)), Field("kind", Str("program")),
           Field("previous_program_id", HexJson(previous))])
  }

  function StatusText(s: Status): string {
    match s
    case Selected => "selected"
    case Quiescent => "quiescent"
    case Unknown => "unknown"
    case MissingInputs => "missing-inputs"
  }

  function ResultJson(r: RevisionResult<digest>): Value {
    Obj([Field("candidate", OptJson(r.candidate)),
         Field("context_id", OptHexJson(r.context)),
         Field("decision_digest", OptHexJson(r.decision)),
         Field("diagnostics", TextsJson(r.diagnostics)),
         Field("facts_digest", OptHexJson(r.facts)),
         Field("outcomes_digest", OptHexJson(r.outcomes)),
         Field("status", Str(StatusText(r.status)))])
  }

  /** The fields of `r`, and `stored` as the digest. */
  function RecordDoc(r: Record, stored: digest): Value {
    Obj([Field("change", ChangeJson(r.change)),
         Field("digest", HexJson(stored)),
         Field("parent", OptHexJson(r.parent)),
         Field("program_id", HexJson(r.programId)),
         Field("program_path", Str(r.programPath)),
         Field("result", ResultJson(r.result)),
         Field("schema", Str(REVISION_SCHEMA)),
         Field("seq", Int(r.seqNo)),
         Field("snapshot_id", HexJson(r.snapshotId)),
         Field("snapshot_path", Str(r.snapshotPath))])
  }

  function DocText(r: Record, stored: digest): string {
    Print(Pretty(), RecordDoc(r, stored))
  }

  /** What a writer stores for a record. */
  function RecordText(nfc: text -> text, hash: seq<byte> -> digest, r: Record): string {
    DocText(r, DigestOf(nfc, hash, r))
  }

  // ----- the decoder -----

  const CHANGE_KEYS: seq<string> := ["kind", "names"]
  const PROGRAM_KEYS: seq<string> := ["kind", "previous_program_id", "dropped_inputs"]
  const RESULT_KEYS: seq<string> :=
    ["status", "candidate", "decision_digest", "context_id", "facts_digest", "outcomes_digest", "diagnostics"]
  const RECORD_KEYS: seq<string> :=
    ["schema", "seq", "parent", "program_id", "program_path", "snapshot_id", "snapshot_path", "change", "result", "digest"]

  function Only(v: Value, allowed: seq<string>): Decoded<()> {
    if OnlyKeys(v, allowed) then Decoded(()) else Refused(Malformed)
  }

  function DecodeChange(v: Value): Decoded<Change<digest>> {
    var kind :- FieldStr(v, "kind");
    if kind == "init" then
      var _ :- Only(v, ["kind"]);
      Decoded(Init)
    else if kind == "assert" then
      var _ :- Only(v, CHANGE_KEYS);
      var list :- FieldTexts(v, "names");
      Decoded(Assert(list))
    else if kind == "retract" then
      var _ :- Only(v, CHANGE_KEYS);
      var list :- FieldTexts(v, "names");
      Decoded(Retract(list))
    else if kind == "program" then
      var _ :- Only(v, PROGRAM_KEYS);
      var previous :- FieldDigest(v, "previous_program_id");
      var dropped :- FieldTexts(v, "dropped_inputs");
      Decoded(Program(previous, dropped))
    else Refused(Malformed)
  }

  function DecodeStatus(s: string): Decoded<Status> {
    if s == "selected" then Decoded(Selected)
    else if s == "quiescent" then Decoded(Quiescent)
    else if s == "unknown" then Decoded(Unknown)
    else if s == "missing-inputs" then Decoded(MissingInputs)
    else Refused(Malformed)
  }

  function DecodeResult(v: Value): Decoded<RevisionResult<digest>> {
    var _ :- Only(v, RESULT_KEYS);
    var name :- FieldStr(v, "status");
    var status :- DecodeStatus(name);
    var candidate :- FieldOptStr(v, "candidate");
    var decision :- FieldOptDigest(v, "decision_digest");
    var context :- FieldOptDigest(v, "context_id");
    var facts :- FieldOptDigest(v, "facts_digest");
    var outcomes :- FieldOptDigest(v, "outcomes_digest");
    var diagnostics :- FieldTexts(v, "diagnostics");
    Decoded(RevisionResult(status, candidate, decision, context, facts, outcomes, diagnostics))
  }

  function DecodeSchema(v: Value): Decoded<()> {
    var schema :- FieldStr(v, "schema");
    if schema == REVISION_SCHEMA then Decoded(()) else Refused(SchemaMismatch)
  }

  /** The number, and what the revision names. */
  datatype Names = Names(seqNo: nat, parent: Option<digest>, programId: digest, programPath: text, snapshotId: digest, snapshotPath: text)

  function DecodeNames(v: Value): Decoded<Names> {
    var seqNo :- FieldU64(v, "seq");
    var parent :- FieldOptDigest(v, "parent");
    var programId :- FieldDigest(v, "program_id");
    var programPath :- FieldStr(v, "program_path");
    var snapshotId :- FieldDigest(v, "snapshot_id");
    var snapshotPath :- FieldStr(v, "snapshot_path");
    Decoded(Names(seqNo, parent, programId, programPath, snapshotId, snapshotPath))
  }

  /** What the revision did, what came of it, and the stored digest. */
  datatype Account = Account(change: Change<digest>, result: RevisionResult<digest>, stored: digest)

  function DecodeAccount(v: Value): Decoded<Account> {
    var changeField :- FieldObj(v, "change");
    var change :- DecodeChange(changeField);
    var resultField :- FieldObj(v, "result");
    var result :- DecodeResult(resultField);
    var stored :- FieldDigest(v, "digest");
    Decoded(Account(change, result, stored))
  }

  function RecordIn(n: Names, a: Account): Record {
    RevisionRecord(n.seqNo, n.parent, n.programId, n.programPath, n.snapshotId, n.snapshotPath, a.change, a.result)
  }

  /** The record and the digest stored with it. */
  function DecodeFields(v: Value): Decoded<(Record, digest)> {
    var _ :- Only(v, RECORD_KEYS);
    var _ :- DecodeSchema(v);
    var n :- DecodeNames(v);
    var a :- DecodeAccount(v);
    Decoded((RecordIn(n, a), a.stored))
  }

  function CheckDigest(nfc: text -> text, hash: seq<byte> -> digest, x: (Record, digest)): Decoded<Record> {
    if DigestOf(nfc, hash, x.0) == x.1 then Decoded(x.0) else Refused(DigestMismatch)
  }

  /** Read a revision file: parse, decode, and hold the stored digest against a
      fresh one. */
  function FromText(nfc: text -> text, hash: seq<byte> -> digest, contents: string): Decoded<Record> {
    match ParseDocument(contents)
    case Err(_) => Refused(Malformed)
    case Ok(v) =>
      var x :- DecodeFields(v);
      CheckDigest(nfc, hash, x)
  }

  // ----- a written field is found again -----

  /** Keys that differ in length or in their first letter. */
  predicate Apart(a: string, b: string) {
    a != "" && b != "" && (|a| != |b| || a[0] != b[0])
  }

  predicate AllApart(fields: seq<Field>) {
    forall i, j :: 0 <= i < j < |fields| ==> Apart(fields[i].key, fields[j].key)
  }

  lemma ApartDistinct(fields: seq<Field>)
    requires AllApart(fields)
    ensures DistinctKeys(fields)
  {
    forall i, j | 0 <= i < j < |fields| ensures fields[i].key != fields[j].key {
      assert Apart(fields[i].key, fields[j].key);
    }
  }

  lemma {:induction false} FindAt(fields: seq<Field>, i: nat)
    requires i < |fields| && DistinctKeys(fields)
    ensures Find(fields, fields[i].key) == Some(fields[i].value)
    decreases i
  {
    if i > 0 {
      FindAt(fields[1..], i - 1);
    }
  }

  lemma RecordKeysApart(r: Record, stored: digest)
    ensures AllApart(RecordDoc(r, stored).fields)
  {
  }

  lemma ResultKeysApart(r: RevisionResult<digest>)
    ensures AllApart(ResultJson(r).fields)
  {
  }

  lemma ChangeKeysApart(c: Change<digest>)
    ensures AllApart(ChangeJson(c).fields)
  {
  }

  lemma HexIsText(d: digest)
    ensures Utf8Length(Hex(d)) < I64_BOUND
  {
    LengthBounds(Hex(d));
  }

  lemma ShortRead(v: Value, key: string, s: string)
    requires Get(v, key) == Some(Str(s)) && |s| <= 64
    ensures FieldStr(v, key) == Decoded(s)
  {
    LengthBounds(s);
  }

  lemma ReadHex(v: Value, key: string, d: digest)
    requires Get(v, key) == Some(HexJson(d))
    ensures FieldDigest(v, key) == Decoded(d)
  {
    HexIsText(d);
    HexBack(d);
  }

  lemma ReadOptHex(v: Value, key: string, o: Option<digest>)
    requires Get(v, key) == Some(OptHexJson(o))
    ensures FieldOptDigest(v, key) == Decoded(o)
  {
    if o.Some? {
      HexIsText(o.value);
      HexBack(o.value);
    }
  }

  lemma ReadTexts(v: Value, key: string, list: names)
    requires Get(v, key) == Some(TextsJson(list))
    ensures FieldTexts(v, key) == Decoded(list)
  {
    var items := TextsJson(list).items;
    assert forall i :: 0 <= i < |list| ==> items[i] == Str(list[i]) && IsText(items[i]);
    assert TextList(items).value == list;
  }

  lemma ChangeBack(c: Change<digest>)
    ensures DecodeChange(ChangeJson(c)) == Decoded(c)
  {
    match c
    case Init => InitBack(ChangeJson(c));
    case Assert(list) => ListBack(ChangeJson(c), "assert", list, c);
    case Retract(list) => ListBack(ChangeJson(c), "retract", list, c);
    case Program(previous, dropped) => ProgramBack(ChangeJson(c), previous, dropped);
  }

  lemma InitBack(v: Value)
    requires v == ChangeJson(Init)
    ensures DecodeChange(v) == Decoded(Init)
  {
    FindAt(v.fields, 0);
    ShortRead(v, "kind", "init");
    assert ["kind"][0] == v.fields[0].key;
  }

  lemma ListBack(v: Value, kind: string, list: names, c: Change<digest>)
    requires (kind == "assert" && c == Assert(list)) || (kind == "retract" && c == Retract(list))
    requires v == Obj([Field("kind", Str(kind)), Field("names", TextsJson(list))])
    ensures DecodeChange(v) == Decoded(c)
  {
    assert Apart(v.fields[0].key, v.fields[1].key);
    ApartDistinct(v.fields);
    FindAt(v.fields, 0);
    FindAt(v.fields, 1);
    ShortRead(v, "kind", kind);
    ReadTexts(v, "names", list);
    ListKeys(v);
    ListDecoded(v, kind, list, c);
  }

  lemma ListDecoded(v: Value, kind: text, list: names, c: Change<digest>)
    requires (kind == "assert" && c == Assert(list)) || (kind == "retract" && c == Retract(list))
    requires FieldStr(v, "kind") == Decoded(kind) && FieldTexts(v, "names") == Decoded(list) && OnlyKeys(v, CHANGE_KEYS)
    ensures DecodeChange(v) == Decoded(c)
  {
    assert kind[0] != "init"[0] && "retract"[0] != "assert"[0];
  }

  lemma ProgramBack(v: Value, previous: digest, dropped: names)
    requires v == ChangeJson(Program(previous, dropped))
    ensures DecodeChange(v) == Decoded(Program(previous, dropped))
  {
    ChangeKeysApart(Program(previous, dropped));
    ApartDistinct(v.fields);
    FindAt(v.fields, 0);
    FindAt(v.fields, 1);
    FindAt(v.fields, 2);
    ShortRead(v, "kind", "program");
    ReadTexts(v, "dropped_inputs", dropped);
    ReadHex(v, "previous_program_id", previous);
    ProgramKeys(v);
    ProgramDecoded(v, "program", previous, dropped);
  }

  lemma ProgramDecoded(v: Value, kind: text, previous: digest, dropped: names)
    requires kind == "program" && FieldStr(v, "kind") == Decoded(kind) && OnlyKeys(v, PROGRAM_KEYS)
    requires FieldDigest(v, "previous_program_id") == Decoded(previous) && FieldTexts(v, "dropped_inputs") == Decoded(dropped)
    ensures DecodeChange(v) == Decoded(Program(previous, dropped))
  {
    assert kind[0] != "init"[0] && kind[0] != "assert"[0] && kind[0] != "retract"[0];
  }

  lemma ListKeys(v: Value)
    requires v.Obj? && |v.fields| == 2 && v.fields[0].key == "kind" && v.fields[1].key == "names"
    ensures OnlyKeys(v, CHANGE_KEYS)
  {
    assert CHANGE_KEYS[0] == "kind" && CHANGE_KEYS[1] == "names";
  }

  lemma ProgramKeys(v: Value)
    requires v.Obj? && |v.fields| == 3 && v.fields[0].key == "dropped_inputs" && v.fields[1].key == "kind"
    requires v.fields[2].key == "previous_program_id"
    ensures OnlyKeys(v, PROGRAM_KEYS)
  {
    assert PROGRAM_KEYS[2] == "dropped_inputs" && PROGRAM_KEYS[0] == "kind" && PROGRAM_KEYS[1] == "previous_program_id";
  }

  lemma StatusBack(s: Status)
    ensures DecodeStatus(StatusText(s)) == Decoded(s)
  {
    var t := StatusText(s);
    match s
    case Selected =>
    case Quiescent => assert t[0] != "selected"[0];
    case Unknown => assert t[0] != "selected"[0] && t[0] != "quiescent"[0];
    case MissingInputs => assert t[0] != "selected"[0] && t[0] != "quiescent"[0] && t[0] != "unknown"[0];
  }

  lemma ResultBack(r: RevisionResult<digest>)
    ensures DecodeResult(ResultJson(r)) == Decoded(r)
  {
    var v := ResultJson(r);
    ResultFound(r, v);
    ResultKeys(v.fields);
    StatusBack(r.status);
    ShortRead(v, "status", StatusText(r.status));
    ReadOptHex(v, "decision_digest", r.decision);
    ReadOptHex(v, "context_id", r.context);
    ReadOptHex(v, "facts_digest", r.facts);
    ReadOptHex(v, "outcomes_digest", r.outcomes);
    ReadTexts(v, "diagnostics", r.diagnostics);
  }

  lemma ResultFound(r: RevisionResult<digest>, v: Value)
    requires v == ResultJson(r)
    ensures Get(v, "candidate") == Some(OptJson(r.candidate))
    ensures Get(v, "context_id") == Some(OptHexJson(r.context))
    ensures Get(v, "decision_digest") == Some(OptHexJson(r.decision))
    ensures Get(v, "diagnostics") == Some(TextsJson(r.diagnostics))
    ensures Get(v, "facts_digest") == Some(OptHexJson(r.facts))
    ensures Get(v, "outcomes_digest") == Some(OptHexJson(r.outcomes))
    ensures Get(v, "status") == Some(Str(StatusText(r.status)))
  {
    ResultKeysApart(r);
    ApartDistinct(v.fields);
    FindAt(v.fields, 0);
    FindAt(v.fields, 1);
    FindAt(v.fields, 2);
    FindAt(v.fields, 3);
    FindAt(v.fields, 4);
    FindAt(v.fields, 5);
    FindAt(v.fields, 6);
  }

  lemma ResultKeys(fields: seq<Field>)
    requires |fields| == 7 && fields[0].key == "candidate" && fields[1].key == "context_id" && fields[2].key == "decision_digest"
    requires fields[3].key == "diagnostics" && fields[4].key == "facts_digest" && fields[5].key == "outcomes_digest"
    requires fields[6].key == "status"
    ensures OnlyKeys(Obj(fields), RESULT_KEYS)
  {
    assert RESULT_KEYS[1] == "candidate" && RESULT_KEYS[3] == "context_id" && RESULT_KEYS[2] == "decision_digest";
    assert RESULT_KEYS[6] == "diagnostics" && RESULT_KEYS[4] == "facts_digest" && RESULT_KEYS[5] == "outcomes_digest";
    assert RESULT_KEYS[0] == "status";
  }

  /** Decoding undoes writing, whatever digest is stored. */
  lemma RecordBack(r: Record, stored: digest)
    ensures DecodeFields(RecordDoc(r, stored)) == Decoded((r, stored))
  {
    var v := RecordDoc(r, stored);
    RecordFound(r, stored, v);
    RecordKeys(v.fields);
    NamesBack(r, v);
    ShortRead(v, "schema", REVISION_SCHEMA);
    ChangeBack(r.change);
    ResultBack(r.result);
    ReadHex(v, "digest", stored);
    AccountDecoded(r, stored, v, ChangeJson(r.change), ResultJson(r.result));
    RecordDecoded(r, stored, v, DecodeNames(v).value);
  }

  lemma AccountDecoded(r: Record, stored: digest, v: Value, change: Value, result: Value)
    requires Get(v, "change") == Some(change) && change.Obj? && DecodeChange(change) == Decoded(r.change)
    requires Get(v, "result") == Some(result) && result.Obj? && DecodeResult(result) == Decoded(r.result)
    requires FieldDigest(v, "digest") == Decoded(stored)
    ensures DecodeAccount(v) == Decoded(Account(r.change, r.result, stored))
  {
    assert FieldObj(v, "change") == Decoded(change) && FieldObj(v, "result") == Decoded(result);
  }

  lemma RecordDecoded(r: Record, stored: digest, v: Value, n: Names)
    requires OnlyKeys(v, RECORD_KEYS) && FieldStr(v, "schema") == Decoded(REVISION_SCHEMA) && DecodeNames(v) == Decoded(n)
    requires DecodeAccount(v) == Decoded(Account(r.change, r.result, stored))
    requires r == RecordIn(n, Account(r.change, r.result, stored))
    ensures DecodeFields(v) == Decoded((r, stored))
  {
    assert DecodeSchema(v) == Decoded(());
  }

  lemma NamesBack(r: Record, v: Value)
    requires Get(v, "seq") == Some(Int(r.seqNo)) && Get(v, "parent") == Some(OptHexJson(r.parent))
    requires Get(v, "program_id") == Some(HexJson(r.programId)) && Get(v, "program_path") == Some(Str(r.programPath))
    requires Get(v, "snapshot_id") == Some(HexJson(r.snapshotId)) && Get(v, "snapshot_path") == Some(Str(r.snapshotPath))
    ensures DecodeNames(v) == Decoded(Names(r.seqNo, r.parent, r.programId, r.programPath, r.snapshotId, r.snapshotPath))
  {
    ReadOptHex(v, "parent", r.parent);
    ReadHex(v, "program_id", r.programId);
    ReadHex(v, "snapshot_id", r.snapshotId);
  }

  lemma RecordFound(r: Record, stored: digest, v: Value)
    requires v == RecordDoc(r, stored)
    ensures Get(v, "change") == Some(ChangeJson(r.change)) && Get(v, "digest") == Some(HexJson(stored))
    ensures Get(v, "parent") == Some(OptHexJson(r.parent)) && Get(v, "program_id") == Some(HexJson(r.programId))
    ensures Get(v, "program_path") == Some(Str(r.programPath)) && Get(v, "result") == Some(ResultJson(r.result))
    ensures Get(v, "schema") == Some(Str(REVISION_SCHEMA)) && Get(v, "seq") == Some(Int(r.seqNo))
    ensures Get(v, "snapshot_id") == Some(HexJson(r.snapshotId)) && Get(v, "snapshot_path") == Some(Str(r.snapshotPath))
  {
    RecordKeysApart(r, stored);
    ApartDistinct(v.fields);
    FindAt(v.fields, 0);
    FindAt(v.fields, 1);
    FindAt(v.fields, 2);
    FindAt(v.fields, 3);
    FindAt(v.fields, 4);
    FindAt(v.fields, 5);
    FindAt(v.fields, 6);
    FindAt(v.fields, 7);
    FindAt(v.fields, 8);
    FindAt(v.fields, 9);
  }

  lemma RecordKeys(fields: seq<Field>)
    requires |fields| == 10 && fields[0].key == "change" && fields[1].key == "digest" && fields[2].key == "parent"
    requires fields[3].key == "program_id" && fields[4].key == "program_path" && fields[5].key == "result"
    requires fields[6].key == "schema" && fields[7].key == "seq" && fields[8].key == "snapshot_id" && fields[9].key == "snapshot_path"
    ensures OnlyKeys(Obj(fields), RECORD_KEYS)
  {
    assert RECORD_KEYS[7] == "change" && RECORD_KEYS[9] == "digest" && RECORD_KEYS[2] == "parent";
    assert RECORD_KEYS[3] == "program_id" && RECORD_KEYS[4] == "program_path" && RECORD_KEYS[8] == "result";
    assert RECORD_KEYS[0] == "schema" && RECORD_KEYS[1] == "seq";
    assert RECORD_KEYS[5] == "snapshot_id" && RECORD_KEYS[6] == "snapshot_path";
  }
}
