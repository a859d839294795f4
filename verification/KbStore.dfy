/** The revision store: files written one at a time, HEAD as the commit point, a
    lock, and a machine that may stop between any two writes. */
module KbStore {
  import opened Options
  import opened CanonBytes
  import opened Utf8
  import opened Revision

  type Source(==, !new)
  type Plan(==, !new)
  type InputValue(==, !new)

  type Snapshot = map<text, InputValue>

  /** How records are named, written to files and read from them. */
  datatype Format = Format(id: Record -> digest, write: Record -> string, read: string -> Result<Record, DecodeError>)

  /** What lies outside the store: lowering, identities, replay, the file format. */
  datatype System = System(
    load: Source -> Option<Plan>,
    programId: Plan -> digest,
    snapshotId: Snapshot -> digest,
    validates: (Plan, Snapshot) -> bool,
    replay: (Plan, Snapshot) -> Option<RevisionResult<digest>>,
    readable: Snapshot -> bool,
    format: Format,
    programPath: digest -> text,
    snapshotPath: digest -> text)

  /** Plans and snapshots are named by collision-free identities. */
  ghost predicate CollisionFree(sys: System) {
    && (forall p, q :: sys.programId(p) == sys.programId(q) ==> p == q)
    && (forall s, t :: sys.snapshotId(s) == sys.snapshotId(t) ==> s == t)
  }

  ghost predicate Sane(sys: System) {
    CollisionFree(sys) && Faithful(sys)
  }

  datatype Head = Head(seqNo: nat, id: digest)

  /** A revision file holds what a writer wrote for a record, or any other text. */
  datatype RevisionFile = Written(record: Record) | Foreign(contents: string)

  function ContentsOf(sys: System, f: RevisionFile): string {
    match f case Written(r) => sys.format.write(r) case Foreign(contents) => contents
  }

  /** The manifest and HEAD are there and decode, or count as absent. */
  datatype Disk = Disk(manifest: bool, head: Option<Head>, revisions: map<nat, RevisionFile>,
                       programs: map<digest, Source>, snapshots: map<digest, Snapshot>, locked: bool)

  datatype KbError =
    | NotFound | Locked | AlreadyInitialized | EmptyChange | NotSet | Rejected | TooLarge | Unreadable
    | BadRecord(cause: DecodeError)
    | SeqMismatch | ChainBroken | ProgramIdMismatch | SnapshotIdMismatch | ResultMismatch | HeadMismatch

  // ----- writes -----

  datatype Write =
    | TakeLock
    | DropLock
    | StoreProgram(id: digest, source: Source)
    | StoreSnapshot(sid: digest, snapshot: Snapshot)
    | PutRevision(record: Record)
    | PutHead(head: Head)
    | PutManifest

  /** One whole-file write. Content-addressed files are kept when present. */
  function Apply(d: Disk, w: Write): Disk {
    match w
    case TakeLock => d.(locked := true)
    case DropLock => d.(locked := false)
    case StoreProgram(id, source) => if id in d.programs then d else d.(programs := d.programs[id := source])
    case StoreSnapshot(id, snapshot) => if id in d.snapshots then d else d.(snapshots := d.snapshots[id := snapshot])
    case PutRevision(record) => d.(revisions := d.revisions[record.seqNo := Written(record)])
    case PutHead(head) => d.(head := Some(head))
    case PutManifest => d.(manifest := true)
  }

  /** The writes in order. */
  function Run(d: Disk, ws: seq<Write>): Disk
    decreases |ws|
  {
    if ws == [] then d else Run(Apply(d, ws[0]), ws[1..])
  }

  lemma {:induction false} RunAppend(d: Disk, a: seq<Write>, b: seq<Write>)
    ensures Run(d, a + b) == Run(Run(d, a), b)
    decreases |a|
  {
    if a == [] {
      assert a + b == b;
    } else {
      RunAppend(Apply(d, a[0]), a[1..], b);
      assert (a + b)[1..] == a[1..] + b;
    }
  }

  // ----- reads -----

  /** Within the reader's bounds: its number is an `i64` and its text is limited. */
  predicate Fits(sys: System, r: Record) {
    r.seqNo < I64_BOUND && Utf8Length(sys.format.write(r)) <= MAX_KB_JSON_BYTES
  }

  function ReadFile(sys: System, f: RevisionFile): Result<Record, KbError> {
    match sys.format.read(ContentsOf(sys, f))
    case Ok(r) => Ok(r)
    case Err(e) => Err(BadRecord(e))
  }

  function ReadRevision(sys: System, d: Disk, n: nat): Result<Record, KbError> {
    if n !in d.revisions then Err(NotFound) else ReadFile(sys, d.revisions[n])
  }

  /** A record's text is read back within the bounds and refused beyond them, and
      nothing with a number beyond them is read at all. */
  ghost predicate Faithful(sys: System) {
    && (forall r: Record :: ReadsBack(sys, r))
    && (forall s :: sys.format.read(s).Ok? ==> sys.format.read(s).value.seqNo < I64_BOUND)
  }

  ghost predicate ReadsBack(sys: System, r: Record) {
    var read := sys.format.read(sys.format.write(r));
    if Fits(sys, r) then read == Ok(r) else read.Err?
  }

  function ReadPlan(sys: System, d: Disk, id: digest): Result<Plan, KbError> {
    if id !in d.programs then Err(NotFound)
    else match sys.load(d.programs[id]) case None => Err(Rejected) case Some(plan) => Ok(plan)
  }

  function ReadSnapshot(d: Disk, id: digest): Result<Snapshot, KbError> {
    if id !in d.snapshots then Err(NotFound) else Ok(d.snapshots[id])
  }

  /** HEAD's number, too, must be an `i64`. */
  function ReadHead(d: Disk): Result<Head, KbError> {
    if !d.manifest || d.head.None? then Err(NotFound)
    else if d.head.value.seqNo >= I64_BOUND then Err(Unreadable)
    else Ok(d.head.value)
  }

  function ReadTip(sys: System, d: Disk): Result<(Head, Record), KbError> {
    match ReadHead(d)
    case Err(e) => Err(e)
    case Ok(head) =>
      match ReadRevision(sys, d, head.seqNo)
      case Err(e) => Err(e)
      case Ok(r) => Ok((head, r))
  }

  // ----- what each operation writes -----

  datatype Op =
    | InitOp(source: Source, inputs: Snapshot)
    | AssertOp(asserted: Option<Snapshot>)
    | RetractOp(retracted: names)
    | ProgramOp(newSource: Source)

  /** The writes of an operation left to finish, and what it reports. */
  type Script = (seq<Write>, Result<Record, KbError>)

  function Refusal(e: KbError): Script {
    ([], Err(e))
  }

  /** Fields of the record an operation is about to commit. */
  datatype Draft = Draft(seqNo: nat, parent: Option<digest>, plan: Plan, programId: digest, programPath: text,
                         snapshot: Snapshot, change: Change<digest>)

  function RecordOf(sys: System, draft: Draft, result: RevisionResult<digest>): Record {
    RevisionRecord(draft.seqNo, draft.parent, draft.programId, draft.programPath,
                   sys.snapshotId(draft.snapshot), sys.snapshotPath(sys.snapshotId(draft.snapshot)), draft.change, result)
  }

  /** Store the objects, replay, write the revision, move HEAD. */
  function Commit(sys: System, draft: Draft, source: Option<Source>): Script {
    var program := ProgramWrites(draft, source);
    if !sys.readable(draft.snapshot) then (program, Err(TooLarge))
    else
      var stored := program + [StoreSnapshot(sys.snapshotId(draft.snapshot), draft.snapshot)];
      match sys.replay(draft.plan, draft.snapshot)
      case None => (stored, Err(Rejected))
      case Some(result) =>
        var r := RecordOf(sys, draft, result);
        (stored + [PutRevision(r), PutHead(Head(r.seqNo, sys.format.id(r)))], Ok(r))
  }

  function ProgramWrites(draft: Draft, source: Option<Source>): seq<Write> {
    match source case None => [] case Some(s) => [StoreProgram(draft.programId, s)]
  }

  function InitBody(sys: System, source: Source, inputs: Snapshot): Script {
    match sys.load(source)
    case None => Refusal(Rejected)
    case Some(plan) =>
      if !sys.validates(plan, inputs) then Refusal(Rejected)
      else
        var id := sys.programId(plan);
        var draft := Draft(1, None, plan, id, sys.programPath(id), inputs, Init);
        var c := Commit(sys, draft, Some(source));
        if c.1.Ok? then (c.0 + [PutManifest], c.1) else c
  }

  function NextDraft(head: Head, plan: Plan, programId: digest, programPath: text, snapshot: Snapshot, change: Change<digest>): Draft {
    Draft(head.seqNo + 1, Some(head.id), plan, programId, programPath, snapshot, change)
  }

  /** The order in which a change lists names is not modelled: any listing of the
      names of `s`. */
  function NamesOf(s: Snapshot, listing: set<text> -> names): names {
    listing(s.Keys)
  }

  function AssertBody(sys: System, listing: set<text> -> names, d: Disk, asserted: Snapshot): Script {
    match ReadTip(sys, d)
    case Err(e) => Refusal(e)
    case Ok(t) =>
      match ReadPlan(sys, d, t.1.programId)
      case Err(e) => Refusal(e)
      case Ok(plan) =>
        match ReadSnapshot(d, t.1.snapshotId)
        case Err(e) => Refusal(e)
        case Ok(base) =>
          if asserted == map[] then Refusal(EmptyChange)
          else if !sys.validates(plan, base + asserted) then Refusal(Rejected)
          else
            Commit(sys, NextDraft(t.0, plan, t.1.programId, t.1.programPath, base + asserted, Assert(NamesOf(asserted, listing))), None)
  }

  function Without(base: Snapshot, list: names): Snapshot {
    map n | n in base && n !in list :: base[n]
  }

  /** Every name is removed in turn, so each must be set and none given twice. */
  predicate AllSet(base: Snapshot, list: names) {
    forall i :: 0 <= i < |list| ==> list[i] in base && list[i] !in list[..i]
  }

  function RetractBody(sys: System, d: Disk, list: names): Script {
    match ReadTip(sys, d)
    case Err(e) => Refusal(e)
    case Ok(t) =>
      match ReadPlan(sys, d, t.1.programId)
      case Err(e) => Refusal(e)
      case Ok(plan) =>
        match ReadSnapshot(d, t.1.snapshotId)
        case Err(e) => Refusal(e)
        case Ok(base) =>
          if !AllSet(base, list) then Refusal(NotSet)
          else Commit(sys, NextDraft(t.0, plan, t.1.programId, t.1.programPath, Without(base, list), Retract(list)), None)
  }

  function Kept(sys: System, plan: Plan, base: Snapshot): Snapshot {
    map n | n in base && sys.validates(plan, map[n := base[n]]) :: base[n]
  }

  function ProgramBody(sys: System, listing: set<text> -> names, d: Disk, source: Source): Script {
    match ReadTip(sys, d)
    case Err(e) => Refusal(e)
    case Ok(t) =>
      match ReadSnapshot(d, t.1.snapshotId)
      case Err(e) => Refusal(e)
      case Ok(base) =>
        match sys.load(source)
        case None => Refusal(Rejected)
        case Some(plan) =>
          var kept := Kept(sys, plan, base);
          var id := sys.programId(plan);
          Commit(sys, NextDraft(t.0, plan, id, sys.programPath(id), kept,
                                Program(t.1.programId, listing(base.Keys - kept.Keys))), Some(source))
  }

  function Body(sys: System, listing: set<text> -> names, d: Disk, op: Op): Script {
    match op
    case InitOp(source, inputs) => InitBody(sys, source, inputs)
    case AssertOp(asserted) => if asserted.None? then Refusal(EmptyChange) else AssertBody(sys, listing, d, asserted.value)
    case RetractOp(list) => RetractBody(sys, d, list)
    case ProgramOp(source) => ProgramBody(sys, listing, d, source)
  }

  /** What an operation refuses before it asks for the lock. */
  function Early(d: Disk, op: Op): Option<KbError> {
    match op
    case InitOp(_, _) => if d.manifest then Some(AlreadyInitialized) else None
    case AssertOp(asserted) => if asserted.None? then Some(EmptyChange) else None
    case RetractOp(list) => if list == [] then Some(EmptyChange) else None
    case ProgramOp(_) => None
  }

  function ScriptOf(sys: System, listing: set<text> -> names, d: Disk, op: Op): Script {
    if Early(d, op).Some? then Refusal(Early(d, op).value)
    else if d.locked then Refusal(Locked)
    else
      var body := Body(sys, listing, d, op);
      ([TakeLock] + body.0 + [DropLock], body.1)
  }

  // ----- the invariant -----

  /** The record a revision file holds, for whoever can read it. */
  ghost function Held(sys: System, f: RevisionFile): Option<Record> {
    match f
    case Written(r) => Some(r)
    case Foreign(_) => match ReadFile(sys, f) case Ok(r) => Some(r) case Err(_) => None
  }

  ghost function RecordAt(sys: System, d: Disk, n: nat): Option<Record> {
    if n in d.revisions then Held(sys, d.revisions[n]) else None
  }

  ghost predicate AllThere(sys: System, d: Disk) {
    d.head.Some? && forall k :: 1 <= k <= d.head.value.seqNo ==> RecordAt(sys, d, k).Some?
  }

  /** The committed history: what HEAD names, once the manifest is there. */
  ghost function History(sys: System, d: Disk): seq<Record> {
    if d.manifest && AllThere(sys, d)
    then seq(d.head.value.seqNo, i requires 0 <= i < d.head.value.seqNo && RecordAt(sys, d, i + 1).Some? => RecordAt(sys, d, i + 1).value)
    else []
  }

  /** The file gives its record to the reader. */
  ghost predicate ReadableAt(sys: System, d: Disk, n: nat) {
    RecordAt(sys, d, n).Some? && ReadRevision(sys, d, n) == Ok(RecordAt(sys, d, n).value)
  }

  /** What a writer wrote is readable exactly when it is within the bounds, and
      what is read is then what was written. */
  lemma WrittenReadable(sys: System, d: Disk, n: nat, r: Record)
    requires Faithful(sys) && n in d.revisions && d.revisions[n] == Written(r)
    ensures ReadableAt(sys, d, n) <==> Fits(sys, r)
    ensures ReadRevision(sys, d, n).Ok? <==> Fits(sys, r)
  {
    assert ReadsBack(sys, r);
  }

  /** Every stored object is named by its own identity. */
  ghost predicate StoreNamed(sys: System, d: Disk) {
    && (forall id :: id in d.programs ==> sys.load(d.programs[id]).Some? && sys.programId(sys.load(d.programs[id]).value) == id)
    && (forall id :: id in d.snapshots ==> sys.snapshotId(d.snapshots[id]) == id)
  }

  /** The objects a record names are stored and replay to its result. */
  ghost predicate Reproducible(sys: System, d: Disk, r: Record) {
    && r.programId in d.programs && r.snapshotId in d.snapshots
    && sys.load(d.programs[r.programId]).Some?
    && sys.programId(sys.load(d.programs[r.programId]).value) == r.programId
    && sys.snapshotId(d.snapshots[r.snapshotId]) == r.snapshotId
    && sys.replay(sys.load(d.programs[r.programId]).value, d.snapshots[r.snapshotId]) == Some(r.result)
  }

  /** A history as a knowledge base must hold it: an unbroken chain of
      reproducible revisions, all but the last short enough to read. */
  ghost predicate Sound(sys: System, d: Disk, h: seq<Record>) {
    && Chained(sys.format.id, h)
    && (forall i :: 0 <= i < |h| ==> Reproducible(sys, d, h[i]))
    && (forall k :: 1 <= k < |h| ==> ReadableAt(sys, d, k))
  }

  ghost predicate Committed(sys: System, d: Disk) {
    && AllThere(sys, d) && d.head.value.seqNo >= 1
    && d.head.value.id == sys.format.id(RecordAt(sys, d, d.head.value.seqNo).value)
    && Sound(sys, d, History(sys, d))
  }

  ghost predicate Inv(sys: System, d: Disk) {
    StoreNamed(sys, d) && (d.manifest ==> Committed(sys, d))
  }

  // ----- one write at a time -----

  /** The same revision file at `k`, or none. */
  predicate SameFile(d: Disk, e: Disk, k: nat) {
    (k in d.revisions <==> k in e.revisions) && (k in d.revisions ==> d.revisions[k] == e.revisions[k])
  }

  lemma SameFileReads(sys: System, d: Disk, e: Disk, k: nat)
    requires SameFile(d, e, k)
    ensures RecordAt(sys, d, k) == RecordAt(sys, e, k) && ReadableAt(sys, d, k) == ReadableAt(sys, e, k)
  {
  }

  /** The history is what the files up to HEAD say. */
  lemma SameHistory(sys: System, d: Disk, e: Disk)
    requires d.manifest == e.manifest && d.head == e.head
    requires d.head.Some? ==> forall k :: 1 <= k <= d.head.value.seqNo ==> SameFile(d, e, k)
    ensures AllThere(sys, d) == AllThere(sys, e) && History(sys, d) == History(sys, e)
    ensures d.head.Some? ==> forall k :: 1 <= k <= d.head.value.seqNo ==>
              RecordAt(sys, d, k) == RecordAt(sys, e, k) && ReadableAt(sys, d, k) == ReadableAt(sys, e, k)
  {
    if d.head.Some? {
      forall k | 1 <= k <= d.head.value.seqNo
        ensures RecordAt(sys, d, k) == RecordAt(sys, e, k) && ReadableAt(sys, d, k) == ReadableAt(sys, e, k)
      {
        assert SameFile(d, e, k);
        SameFileReads(sys, d, e, k);
      }
      assert AllThere(sys, d) == AllThere(sys, e);
      if d.manifest && AllThere(sys, d) {
        var n := d.head.value.seqNo;
        assert |History(sys, d)| == n == |History(sys, e)|;
        forall i | 0 <= i < n ensures History(sys, d)[i] == History(sys, e)[i] {
          assert RecordAt(sys, d, i + 1) == RecordAt(sys, e, i + 1);
        }
        assert History(sys, d) == History(sys, e);
      }
    }
  }

  lemma LockKeeps(sys: System, d: Disk, locked: bool)
    ensures Inv(sys, d.(locked := locked)) == Inv(sys, d) && History(sys, d.(locked := locked)) == History(sys, d)
  {
    var e := d.(locked := locked);
    SameHistory(sys, d, e);
    forall r ensures Reproducible(sys, e, r) == Reproducible(sys, d, r) {}
  }

  /** Adding objects leaves the history as it is, and sound. */
  lemma ObjectsKeep(sys: System, d: Disk, e: Disk)
    requires Inv(sys, d) && StoreNamed(sys, e)
    requires e == d.(programs := e.programs, snapshots := e.snapshots)
    requires forall id :: id in d.programs ==> id in e.programs && e.programs[id] == d.programs[id]
    requires forall id :: id in d.snapshots ==> id in e.snapshots && e.snapshots[id] == d.snapshots[id]
    ensures Inv(sys, e) && History(sys, e) == History(sys, d)
  {
    SameHistory(sys, d, e);
    forall r | Reproducible(sys, d, r) ensures Reproducible(sys, e, r) {}
  }

  /** A revision file past HEAD, an orphan's included, is not history yet. */
  lemma PastHeadKeeps(sys: System, d: Disk, r: Record)
    requires Inv(sys, d) && (d.manifest ==> r.seqNo > d.head.value.seqNo)
    ensures var e := Apply(d, PutRevision(r)); Inv(sys, e) && History(sys, e) == History(sys, d)
  {
    var e := Apply(d, PutRevision(r));
    if d.manifest { SameHistory(sys, d, e); }
    forall q | Reproducible(sys, d, q) ensures Reproducible(sys, e, q) {}
  }

  lemma HeadGrows(sys: System, d: Disk, e: Disk, r: Record)
    requires d.manifest && AllThere(sys, d) && RecordAt(sys, d, d.head.value.seqNo + 1) == Some(r)
    requires e.head.Some? && e.head.value.seqNo == d.head.value.seqNo + 1 && e == d.(head := e.head)
    ensures AllThere(sys, e) && History(sys, e) == History(sys, d) + [r]
    ensures forall k :: RecordAt(sys, d, k) == RecordAt(sys, e, k) && ReadableAt(sys, d, k) == ReadableAt(sys, e, k)
  {
    forall k ensures RecordAt(sys, d, k) == RecordAt(sys, e, k) && ReadableAt(sys, d, k) == ReadableAt(sys, e, k) {
      assert SameFile(d, e, k);
      SameFileReads(sys, d, e, k);
    }
    assert AllThere(sys, e);
    var n := d.head.value.seqNo;
    forall i | 0 <= i <= n ensures History(sys, e)[i] == (History(sys, d) + [r])[i] {
      assert RecordAt(sys, d, i + 1) == RecordAt(sys, e, i + 1);
    }
  }

  /** Moving HEAD commits: the history grows by exactly that record. */
  lemma HeadCommits(sys: System, d: Disk, r: Record)
    requires Inv(sys, d) && d.manifest && ReadableAt(sys, d, d.head.value.seqNo)
    requires r.seqNo == d.head.value.seqNo + 1 && RecordAt(sys, d, r.seqNo) == Some(r)
    requires r.parent == Some(d.head.value.id) && Reproducible(sys, d, r)
    ensures var e := Apply(d, PutHead(Head(r.seqNo, sys.format.id(r)))); Inv(sys, e) && History(sys, e) == History(sys, d) + [r]
  {
    var e := Apply(d, PutHead(Head(r.seqNo, sys.format.id(r))));
    var h := History(sys, d);
    HeadGrows(sys, d, e, r);
    forall i | 0 <= i < |h + [r]| ensures Link(sys.format.id, h + [r], i) {
      if i < |h| { assert Link(sys.format.id, h, i); }
    }
    forall q | Reproducible(sys, d, q) ensures Reproducible(sys, e, q) {}
  }

  /** The manifest commits the first revision. */
  lemma ManifestCommits(sys: System, d: Disk, r: Record)
    requires Inv(sys, d) && !d.manifest && d.head == Some(Head(1, sys.format.id(r)))
    requires RecordAt(sys, d, 1) == Some(r) && r.seqNo == 1 && r.parent == None && Reproducible(sys, d, r)
    ensures var e := Apply(d, PutManifest); Inv(sys, e) && History(sys, e) == [r]
  {
    var e := Apply(d, PutManifest);
    assert History(sys, e) == [r];
    assert Link(sys.format.id, [r], 0);
    forall q | Reproducible(sys, d, q) ensures Reproducible(sys, e, q) {}
  }

  // ----- whole operations, and every way they can be cut short -----

  /** Sound, with the history untouched or grown by the reported record. */
  ghost predicate Near(sys: System, d: Disk, h: seq<Record>, outcome: Result<Record, KbError>) {
    Inv(sys, d) && (History(sys, d) == h || (outcome.Ok? && History(sys, d) == h + [outcome.value]))
  }

  /** Near at every point between the writes. */
  ghost predicate Safe(sys: System, d: Disk, ws: seq<Write>, h: seq<Record>, outcome: Result<Record, KbError>)
    decreases |ws|
  {
    Near(sys, d, h, outcome) && (ws != [] ==> Safe(sys, Apply(d, ws[0]), ws[1..], h, outcome))
  }

  lemma {:induction false} SafeAt(sys: System, d: Disk, ws: seq<Write>, h: seq<Record>, outcome: Result<Record, KbError>, k: nat)
    requires Safe(sys, d, ws, h, outcome) && k <= |ws|
    ensures Near(sys, Run(d, ws[..k]), h, outcome)
    decreases k
  {
    if k > 0 {
      SafeAt(sys, Apply(d, ws[0]), ws[1..], h, outcome, k - 1);
      assert ws[..k][1..] == ws[1..][..k - 1];
    }
  }

  lemma {:induction false} SafeAppend(sys: System, d: Disk, a: seq<Write>, b: seq<Write>, h: seq<Record>, outcome: Result<Record, KbError>)
    requires Safe(sys, d, a, h, outcome) && Safe(sys, Run(d, a), b, h, outcome)
    ensures Safe(sys, d, a + b, h, outcome)
    decreases |a|
  {
    if a == [] {
      assert a + b == b;
    } else {
      SafeAppend(sys, Apply(d, a[0]), a[1..], b, h, outcome);
      assert (a + b)[1..] == a[1..] + b;
    }
  }

  lemma SafeOne(sys: System, d: Disk, w: Write, h: seq<Record>, outcome: Result<Record, KbError>)
    requires Near(sys, d, h, outcome) && Near(sys, Apply(d, w), h, outcome)
    ensures Safe(sys, d, [w], h, outcome) && Run(d, [w]) == Apply(d, w)
  {
    assert [w][1..] == [];
    assert Safe(sys, Apply(d, w), [], h, outcome);
  }

  ghost predicate HasProgram(sys: System, d: Disk, draft: Draft) {
    draft.programId in d.programs && sys.load(d.programs[draft.programId]) == Some(draft.plan)
  }

  ghost predicate HasSnapshot(sys: System, d: Disk, draft: Draft) {
    var id := sys.snapshotId(draft.snapshot);
    id in d.snapshots && d.snapshots[id] == draft.snapshot
  }

  /** The draft follows the committed history of `d`. */
  ghost predicate Follows(sys: System, d: Disk, draft: Draft) {
    && draft.programId == sys.programId(draft.plan)
    && (d.manifest ==>
          && d.head.Some? && ReadableAt(sys, d, d.head.value.seqNo) && draft.seqNo == d.head.value.seqNo + 1
          && draft.parent == Some(d.head.value.id))
    && (!d.manifest ==> draft.seqNo == 1 && draft.parent == None)
  }

  ghost predicate Provides(sys: System, d: Disk, draft: Draft, source: Option<Source>) {
    match source case None => HasProgram(sys, d, draft) case Some(s) => sys.load(s) == Some(draft.plan)
  }

  lemma FollowsStill(sys: System, d: Disk, e: Disk, draft: Draft)
    requires Follows(sys, d, draft) && e == d.(programs := e.programs, snapshots := e.snapshots)
    ensures Follows(sys, e, draft)
  {
    if d.manifest { SameFileReads(sys, d, e, d.head.value.seqNo); }
  }

  lemma ProgramStored(sys: System, d: Disk, draft: Draft, source: Option<Source>, outcome: Result<Record, KbError>)
    requires CollisionFree(sys) && Inv(sys, d) && (d.manifest ==> Committed(sys, d)) && Follows(sys, d, draft)
    requires Provides(sys, d, draft, source)
    ensures var e := Run(d, ProgramWrites(draft, source));
            && Safe(sys, d, ProgramWrites(draft, source), History(sys, d), outcome)
            && HasProgram(sys, e, draft) && Follows(sys, e, draft)
            && History(sys, e) == History(sys, d) && e == d.(programs := e.programs) && Inv(sys, e)
  {
    if source.Some? {
      var w := StoreProgram(draft.programId, source.value);
      var e := Apply(d, w);
      ObjectsKeep(sys, d, e);
      FollowsStill(sys, d, e, draft);
      SafeOne(sys, d, w, History(sys, d), outcome);
      assert sys.programId(sys.load(e.programs[draft.programId]).value) == draft.programId;
    }
  }

  lemma StoredIsSnapshot(sys: System, d: Disk, draft: Draft)
    requires CollisionFree(sys) && StoreNamed(sys, d) && sys.snapshotId(draft.snapshot) in d.snapshots
    ensures HasSnapshot(sys, d, draft)
  {
  }

  /** Storing the snapshot keeps all there was and adds the snapshot. */
  lemma SnapshotKeeps(sys: System, d: Disk, draft: Draft)
    requires Inv(sys, d) && (sys.snapshotId(draft.snapshot) in d.snapshots ==> HasSnapshot(sys, d, draft))
    ensures var e := Apply(d, StoreSnapshot(sys.snapshotId(draft.snapshot), draft.snapshot));
            && Inv(sys, e) && History(sys, e) == History(sys, d) && e == d.(snapshots := e.snapshots)
            && HasSnapshot(sys, e, draft)
  {
    var id := sys.snapshotId(draft.snapshot);
    var e := Apply(d, StoreSnapshot(id, draft.snapshot));
    assert sys.snapshotId(e.snapshots[id]) == id;
    ObjectsKeep(sys, d, e);
  }

  lemma SnapshotStored(sys: System, d: Disk, draft: Draft, outcome: Result<Record, KbError>)
    requires CollisionFree(sys) && Inv(sys, d) && Follows(sys, d, draft) && HasProgram(sys, d, draft)
    ensures var w := StoreSnapshot(sys.snapshotId(draft.snapshot), draft.snapshot);
            var e := Apply(d, w);
            && Safe(sys, d, [w], History(sys, d), outcome) && Run(d, [w]) == e
            && HasProgram(sys, e, draft) && HasSnapshot(sys, e, draft) && Follows(sys, e, draft)
            && History(sys, e) == History(sys, d) && e == d.(snapshots := e.snapshots) && Inv(sys, e)
  {
    var w := StoreSnapshot(sys.snapshotId(draft.snapshot), draft.snapshot);
    var e := Apply(d, w);
    if sys.snapshotId(draft.snapshot) in d.snapshots { StoredIsSnapshot(sys, d, draft); }
    SnapshotKeeps(sys, d, draft);
    FollowsStill(sys, d, e, draft);
    SafeOne(sys, d, w, History(sys, d), outcome);
  }

  /** The first revision is written and HEAD names it, but nothing is committed
      before the manifest. */
  ghost predicate Staged(sys: System, d: Disk, r: Record) {
    && Inv(sys, d) && !d.manifest && d.head == Some(Head(1, sys.format.id(r)))
    && RecordAt(sys, d, 1) == Some(r) && r.seqNo == 1 && r.parent == None && Reproducible(sys, d, r)
  }

  ghost predicate After(sys: System, d: Disk, h: seq<Record>, manifest: bool, r: Record) {
    Inv(sys, d) && if manifest then History(sys, d) == h + [r] else Staged(sys, d, r) && h == []
  }

  lemma RevisionWritten(sys: System, d: Disk, draft: Draft, result: RevisionResult<digest>)
    requires Inv(sys, d) && Follows(sys, d, draft) && HasProgram(sys, d, draft) && HasSnapshot(sys, d, draft)
    requires sys.replay(draft.plan, draft.snapshot) == Some(result)
    ensures var r := RecordOf(sys, draft, result);
            var ws := [PutRevision(r), PutHead(Head(r.seqNo, sys.format.id(r)))];
            Safe(sys, d, ws, History(sys, d), Ok(r)) && After(sys, Run(d, ws), History(sys, d), d.manifest, r)
  {
    var r := RecordOf(sys, draft, result);
    var w, v := PutRevision(r), PutHead(Head(r.seqNo, sys.format.id(r)));
    var e := Apply(d, w);
    PastHeadKeeps(sys, d, r);
    assert Reproducible(sys, e, r);
    if d.manifest { HeadCommits(sys, e, r); }
    SafeOne(sys, e, v, History(sys, d), Ok(r));
    assert [w, v][1..] == [v];
    assert Run(d, [w, v]) == Run(e, [v]);
  }

  /** Committing a draft: at every point the history is untouched or grown by its
      record, and at the end it has grown. */
  lemma CommitSafe(sys: System, d: Disk, draft: Draft, source: Option<Source>)
    requires CollisionFree(sys) && Inv(sys, d) && Follows(sys, d, draft) && Provides(sys, d, draft, source)
    ensures var c := Commit(sys, draft, source);
            && Safe(sys, d, c.0, History(sys, d), c.1)
            && (c.1.Ok? ==> After(sys, Run(d, c.0), History(sys, d), d.manifest, c.1.value))
            && (c.1.Err? ==> History(sys, Run(d, c.0)) == History(sys, d))
  {
    var c := Commit(sys, draft, source);
    var program := ProgramWrites(draft, source);
    ProgramStored(sys, d, draft, source, c.1);
    if sys.readable(draft.snapshot) {
      var e := Run(d, program);
      var w := StoreSnapshot(sys.snapshotId(draft.snapshot), draft.snapshot);
      SnapshotStored(sys, e, draft, c.1);
      SafeAppend(sys, d, program, [w], History(sys, d), c.1);
      RunAppend(d, program, [w]);
      var f := Run(d, program + [w]);
      if c.1.Ok? {
        var result := sys.replay(draft.plan, draft.snapshot).value;
        RevisionWritten(sys, f, draft, result);
        var ws := [PutRevision(c.1.value), PutHead(Head(c.1.value.seqNo, sys.format.id(c.1.value)))];
        SafeAppend(sys, d, program + [w], ws, History(sys, d), c.1);
        RunAppend(d, program + [w], ws);
      }
    }
  }
}
