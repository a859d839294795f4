/** Operations of the revision store as they run, the checker, and what holds
    over every run with crashes. */
module KbRuns {
  import opened Options
  import opened CanonBytes
  import opened Utf8
  import opened Revision
  import opened KbStore

  type Listing = set<text> -> names

  // ----- every operation is safe at every point -----

  lemma NextSafe(sys: System, d: Disk, draft: Draft, source: Option<Source>)
    requires Sane(sys) && Inv(sys, d) && d.manifest && Follows(sys, d, draft) && Provides(sys, d, draft, source)
    ensures var c := Commit(sys, draft, source);
            && Safe(sys, d, c.0, History(sys, d), c.1)
            && History(sys, Run(d, c.0)) == (if c.1.Ok? then History(sys, d) + [c.1.value] else History(sys, d))
  {
    CommitSafe(sys, d, draft, source);
  }

  /** What a reader gets from a file is what the file holds. */
  lemma ReadIsHeld(sys: System, d: Disk, n: nat)
    requires Faithful(sys)
    ensures ReadRevision(sys, d, n).Ok? <==> ReadableAt(sys, d, n)
  {
    if n in d.revisions && d.revisions[n].Written? { WrittenReadable(sys, d, n, d.revisions[n].record); }
  }

  lemma TipFollows(sys: System, d: Disk, plan: Plan, programId: digest, path: text, snapshot: Snapshot, change: Change<digest>)
    requires Faithful(sys) && Inv(sys, d) && ReadTip(sys, d).Ok? && programId == sys.programId(plan)
    ensures d.manifest && Follows(sys, d, NextDraft(ReadTip(sys, d).value.0, plan, programId, path, snapshot, change))
  {
    ReadIsHeld(sys, d, d.head.value.seqNo);
  }

  ghost predicate BodySafe(sys: System, d: Disk, body: Script) {
    && Safe(sys, d, body.0, History(sys, d), body.1)
    && History(sys, Run(d, body.0)) == (if body.1.Ok? then History(sys, d) + [body.1.value] else History(sys, d))
  }

  lemma RefusalSafe(sys: System, d: Disk, e: KbError)
    requires Inv(sys, d)
    ensures BodySafe(sys, d, Refusal(e))
  {
  }

  lemma InitSafe(sys: System, d: Disk, source: Source, inputs: Snapshot)
    requires Sane(sys) && Inv(sys, d) && !d.manifest
    ensures BodySafe(sys, d, InitBody(sys, source, inputs))
  {
    RefusalSafe(sys, d, Rejected);
    if sys.load(source).Some? && sys.validates(sys.load(source).value, inputs) {
      var plan := sys.load(source).value;
      var id := sys.programId(plan);
      var draft := Draft(1, None, plan, id, sys.programPath(id), inputs, Init);
      var c := Commit(sys, draft, Some(source));
      CommitSafe(sys, d, draft, Some(source));
      if c.1.Ok? {
        var e := Run(d, c.0);
        ManifestCommits(sys, e, c.1.value);
        SafeOne(sys, e, PutManifest, History(sys, d), c.1);
        SafeAppend(sys, d, c.0, [PutManifest], History(sys, d), c.1);
        RunAppend(d, c.0, [PutManifest]);
      }
    }
  }

  lemma AssertSafe(sys: System, listing: Listing, d: Disk, asserted: Snapshot)
    requires Sane(sys) && Inv(sys, d)
    ensures BodySafe(sys, d, AssertBody(sys, listing, d, asserted))
  {
    var body := AssertBody(sys, listing, d, asserted);
    if body.0 == [] && body.1.Err? { RefusalSafe(sys, d, body.1.error); }
    if ReadTip(sys, d).Ok? {
      var t := ReadTip(sys, d).value;
      if ReadPlan(sys, d, t.1.programId).Ok? && ReadSnapshot(d, t.1.snapshotId).Ok? {
        var plan, base := ReadPlan(sys, d, t.1.programId).value, ReadSnapshot(d, t.1.snapshotId).value;
        var change := Assert(NamesOf(asserted, listing));
        TipFollows(sys, d, plan, t.1.programId, t.1.programPath, base + asserted, change);
        NextSafe(sys, d, NextDraft(t.0, plan, t.1.programId, t.1.programPath, base + asserted, change), None);
      }
    }
  }

  lemma RetractSafe(sys: System, d: Disk, list: names)
    requires Sane(sys) && Inv(sys, d)
    ensures BodySafe(sys, d, RetractBody(sys, d, list))
  {
    var body := RetractBody(sys, d, list);
    if body.0 == [] && body.1.Err? { RefusalSafe(sys, d, body.1.error); }
    if ReadTip(sys, d).Ok? {
      var t := ReadTip(sys, d).value;
      if ReadPlan(sys, d, t.1.programId).Ok? && ReadSnapshot(d, t.1.snapshotId).Ok? {
        var plan, base := ReadPlan(sys, d, t.1.programId).value, ReadSnapshot(d, t.1.snapshotId).value;
        TipFollows(sys, d, plan, t.1.programId, t.1.programPath, Without(base, list), Retract(list));
        NextSafe(sys, d, NextDraft(t.0, plan, t.1.programId, t.1.programPath, Without(base, list), Retract(list)), None);
      }
    }
  }

  lemma ProgramSafe(sys: System, listing: Listing, d: Disk, source: Source)
    requires Sane(sys) && Inv(sys, d)
    ensures BodySafe(sys, d, ProgramBody(sys, listing, d, source))
  {
    var body := ProgramBody(sys, listing, d, source);
    if body.0 == [] && body.1.Err? { RefusalSafe(sys, d, body.1.error); }
    if ReadTip(sys, d).Ok? {
      var t := ReadTip(sys, d).value;
      if ReadSnapshot(d, t.1.snapshotId).Ok? && sys.load(source).Some? {
        var plan, base := sys.load(source).value, ReadSnapshot(d, t.1.snapshotId).value;
        var id, kept := sys.programId(plan), Kept(sys, plan, base);
        var change := Program(t.1.programId, listing(base.Keys - kept.Keys));
        TipFollows(sys, d, plan, id, sys.programPath(id), kept, change);
        NextSafe(sys, d, NextDraft(t.0, plan, id, sys.programPath(id), kept, change), Some(source));
      }
    }
  }

  lemma BodyIsSafe(sys: System, listing: Listing, d: Disk, op: Op)
    requires Sane(sys) && Inv(sys, d) && Early(d, op).None?
    ensures BodySafe(sys, d, Body(sys, listing, d, op))
  {
    match op
    case InitOp(source, inputs) => InitSafe(sys, d, source, inputs);
    case AssertOp(asserted) => AssertSafe(sys, listing, d, asserted.value);
    case RetractOp(list) => RetractSafe(sys, d, list);
    case ProgramOp(source) => ProgramSafe(sys, listing, d, source);
  }

  /** The lock is no part of what an operation reads. */
  lemma BodyIgnoresLock(sys: System, listing: Listing, d: Disk, op: Op)
    ensures Body(sys, listing, d.(locked := true), op) == Body(sys, listing, d, op)
  {
    var e := d.(locked := true);
    assert ReadTip(sys, e) == ReadTip(sys, d);
    forall id ensures ReadPlan(sys, e, id) == ReadPlan(sys, d, id) && ReadSnapshot(e, id) == ReadSnapshot(d, id) {}
    match op
    case InitOp(_, _) =>
    case AssertOp(asserted) => if asserted.Some? { AssertIgnoresLock(sys, listing, d, asserted.value); }
    case RetractOp(list) => RetractIgnoresLock(sys, d, list);
    case ProgramOp(source) => ProgramIgnoresLock(sys, listing, d, source);
  }

  lemma AssertIgnoresLock(sys: System, listing: Listing, d: Disk, asserted: Snapshot)
    ensures AssertBody(sys, listing, d.(locked := true), asserted) == AssertBody(sys, listing, d, asserted)
  {
    assert ReadTip(sys, d.(locked := true)) == ReadTip(sys, d);
  }

  lemma RetractIgnoresLock(sys: System, d: Disk, list: names)
    ensures RetractBody(sys, d.(locked := true), list) == RetractBody(sys, d, list)
  {
    assert ReadTip(sys, d.(locked := true)) == ReadTip(sys, d);
  }

  lemma ProgramIgnoresLock(sys: System, listing: Listing, d: Disk, source: Source)
    ensures ProgramBody(sys, listing, d.(locked := true), source) == ProgramBody(sys, listing, d, source)
  {
    assert ReadTip(sys, d.(locked := true)) == ReadTip(sys, d);
  }

  /** An operation, cut short at any point or not at all, keeps the store sound
      and the history as it was or grown by the one record it reports; run to the
      end it commits exactly when it reports a record. */
  lemma ScriptSafe(sys: System, listing: Listing, d: Disk, op: Op)
    requires Sane(sys) && Inv(sys, d)
    ensures var s := ScriptOf(sys, listing, d, op);
            && Safe(sys, d, s.0, History(sys, d), s.1)
            && History(sys, Run(d, s.0)) == (if s.1.Ok? then History(sys, d) + [s.1.value] else History(sys, d))
  {
    var s := ScriptOf(sys, listing, d, op);
    if Early(d, op).None? && !d.locked {
      var e := Apply(d, TakeLock);
      var body := Body(sys, listing, d, op);
      LockKeeps(sys, d, true);
      BodyIgnoresLock(sys, listing, d, op);
      BodyIsSafe(sys, listing, e, op);
      SafeOne(sys, d, TakeLock, History(sys, d), body.1);
      SafeAppend(sys, d, [TakeLock], body.0, History(sys, d), body.1);
      RunAppend(d, [TakeLock], body.0);
      var f := Run(d, [TakeLock] + body.0);
      SafeAt(sys, d, [TakeLock] + body.0, History(sys, d), body.1, |[TakeLock] + body.0|);
      assert ([TakeLock] + body.0)[..|[TakeLock] + body.0|] == [TakeLock] + body.0;
      LockKeeps(sys, f, false);
      SafeOne(sys, f, DropLock, History(sys, d), body.1);
      SafeAppend(sys, d, [TakeLock] + body.0, [DropLock], History(sys, d), body.1);
      RunAppend(d, [TakeLock] + body.0, [DropLock]);
    }
  }

  // ----- runs -----

  /** One step of a run: an operation that performs its first `k` writes before
      the machine stops, or an operator removing a lock left behind. */
  ghost predicate OpStep(sys: System, listing: Listing, d: Disk, e: Disk, op: Op, k: nat) {
    k <= |ScriptOf(sys, listing, d, op).0| && e == Run(d, ScriptOf(sys, listing, d, op).0[..k])
  }

  ghost predicate Step(sys: System, listing: Listing, d: Disk, e: Disk) {
    e == d.(locked := false) || exists op, k :: OpStep(sys, listing, d, e, op, k)
  }

  const FRESH: Disk := Disk(false, None, map[], map[], map[], false)

  ghost predicate IsRun(sys: System, listing: Listing, states: seq<Disk>) {
    && states != [] && states[0] == FRESH
    && forall i :: 0 <= i < |states| - 1 ==> Step(sys, listing, states[i], states[i + 1])
  }

  lemma StepKeeps(sys: System, listing: Listing, d: Disk, e: Disk)
    requires Sane(sys) && Inv(sys, d) && Step(sys, listing, d, e)
    ensures Inv(sys, e) && History(sys, d) <= History(sys, e) && |History(sys, e)| <= |History(sys, d)| + 1
  {
    if e == d.(locked := false) {
      LockKeeps(sys, d, false);
    } else {
      var op, k :| OpStep(sys, listing, d, e, op, k);
      ScriptSafe(sys, listing, d, op);
      var s := ScriptOf(sys, listing, d, op);
      SafeAt(sys, d, s.0, History(sys, d), s.1, k);
    }
  }

  /** In every run, at every moment: the store is sound, and no committed revision
      is ever altered or lost. */
  lemma {:induction false} RunsAreSound(sys: System, listing: Listing, states: seq<Disk>, i: nat, j: nat)
    requires Sane(sys) && IsRun(sys, listing, states) && i <= j < |states|
    ensures Inv(sys, states[i]) && Inv(sys, states[j]) && History(sys, states[i]) <= History(sys, states[j])
    decreases j
  {
    if j > 0 {
      RunsAreSound(sys, listing, states, if i < j then i else j - 1, j - 1);
      StepKeeps(sys, listing, states[j - 1], states[j]);
    }
  }

  // ----- verify -----

  function VerifyRevision(sys: System, d: Disk, n: nat, expected: Option<digest>): Result<digest, KbError> {
    match ReadRevision(sys, d, n)
    case Err(e) => Err(e)
    case Ok(r) =>
      if r.seqNo != n then Err(SeqMismatch)
      else if r.parent != expected then Err(ChainBroken)
      else
        match ReadPlan(sys, d, r.programId)
        case Err(e) => Err(e)
        case Ok(plan) =>
          if sys.programId(plan) != r.programId then Err(ProgramIdMismatch)
          else
            match ReadSnapshot(d, r.snapshotId)
            case Err(e) => Err(e)
            case Ok(snapshot) =>
              if sys.snapshotId(snapshot) != r.snapshotId then Err(SnapshotIdMismatch)
              else
                match sys.replay(plan, snapshot)
                case None => Err(Rejected)
                case Some(result) => if result != r.result then Err(ResultMismatch) else Ok(sys.format.id(r))
  }

  function VerifyFrom(sys: System, d: Disk, last: nat, n: nat, expected: Option<digest>): Result<Option<digest>, KbError>
    requires n <= last + 1
    decreases last + 1 - n
  {
    if n > last then Ok(expected)
    else
      match VerifyRevision(sys, d, n, expected)
      case Err(e) => Err(e)
      case Ok(id) => VerifyFrom(sys, d, last, n + 1, Some(id))
  }

  /** The checker: how many revisions it checked, or the first fault. */
  function Verify(sys: System, d: Disk): Result<nat, KbError> {
    match ReadHead(d)
    case Err(e) => Err(e)
    case Ok(head) =>
      match VerifyFrom(sys, d, head.seqNo, 1, None)
      case Err(e) => Err(e)
      case Ok(expected) => if expected != Some(head.id) then Err(HeadMismatch) else Ok(head.seqNo)
  }

  /** Revision `n` is as a sound store holds it, after `expected`. */
  ghost predicate Checks(sys: System, d: Disk, n: nat, expected: Option<digest>) {
    && ReadableAt(sys, d, n)
    && var r := RecordAt(sys, d, n).value; r.seqNo == n && r.parent == expected && Reproducible(sys, d, r)
  }

  lemma VerifyRevisionExact(sys: System, d: Disk, n: nat, expected: Option<digest>)
    requires Faithful(sys)
    ensures VerifyRevision(sys, d, n, expected).Ok? <==> Checks(sys, d, n, expected)
    ensures VerifyRevision(sys, d, n, expected).Ok? ==> VerifyRevision(sys, d, n, expected).value == sys.format.id(RecordAt(sys, d, n).value)
  {
    ReadIsHeld(sys, d, n);
  }

  ghost function ParentOf(sys: System, d: Disk, n: nat): Option<digest> {
    if n <= 1 || RecordAt(sys, d, n - 1).None? then None else Some(sys.format.id(RecordAt(sys, d, n - 1).value))
  }

  lemma {:induction false} VerifyFromExact(sys: System, d: Disk, last: nat, n: nat)
    requires Faithful(sys) && 1 <= n <= last + 1 && (n > 1 ==> RecordAt(sys, d, n - 1).Some?)
    ensures VerifyFrom(sys, d, last, n, ParentOf(sys, d, n)).Ok? <==>
            forall k :: n <= k <= last ==> Checks(sys, d, k, ParentOf(sys, d, k))
    ensures VerifyFrom(sys, d, last, n, ParentOf(sys, d, n)).Ok? ==>
              VerifyFrom(sys, d, last, n, ParentOf(sys, d, n)).value == ParentOf(sys, d, last + 1)
              && (last >= n ==> RecordAt(sys, d, last).Some?)
    decreases last + 1 - n
  {
    if n <= last {
      VerifyRevisionExact(sys, d, n, ParentOf(sys, d, n));
      if Checks(sys, d, n, ParentOf(sys, d, n)) { VerifyFromExact(sys, d, last, n + 1); }
    }
  }

  /** What a knowledge base that passes `verify` is. */
  ghost predicate Verified(sys: System, d: Disk) {
    && d.manifest && AllThere(sys, d) && d.head.value.seqNo >= 1
    && d.head.value.id == sys.format.id(RecordAt(sys, d, d.head.value.seqNo).value)
    && Sound(sys, d, History(sys, d))
    && ReadableAt(sys, d, d.head.value.seqNo)
  }

  /** `verify` accepts a directory, however it came about, if and only if it holds
      an unbroken chain of readable, reproducible revisions that HEAD names. */
  lemma VerifyExact(sys: System, d: Disk)
    requires Faithful(sys)
    ensures Verify(sys, d).Ok? <==> Verified(sys, d)
    ensures Verify(sys, d).Ok? ==> Verify(sys, d).value == |History(sys, d)|
  {
    if d.manifest && d.head.Some? {
      var last := d.head.value.seqNo;
      VerifyFromExact(sys, d, last, 1);
      if forall k :: 1 <= k <= last ==> Checks(sys, d, k, ParentOf(sys, d, k)) {
        forall k | 1 <= k <= last ensures RecordAt(sys, d, k).Some? { assert Checks(sys, d, k, ParentOf(sys, d, k)); }
        ChecksAreSound(sys, d, last);
      } else if Verified(sys, d) {
        ChecksAreSound(sys, d, last);
      }
      if Verified(sys, d) { LastIsNarrow(sys, d); }
    }
  }

  lemma LastIsNarrow(sys: System, d: Disk)
    requires Faithful(sys) && Verified(sys, d)
    ensures d.head.value.seqNo < I64_BOUND
  {
    var h, last := History(sys, d), d.head.value.seqNo;
    assert Link(sys.format.id, h, last - 1);
    var read := sys.format.read(ContentsOf(sys, d.revisions[last]));
    assert read.Ok? && read.value == h[last - 1];
  }

  lemma ChecksAreSound(sys: System, d: Disk, last: nat)
    requires d.manifest && AllThere(sys, d) && last == d.head.value.seqNo
    ensures (forall k :: 1 <= k <= last ==> Checks(sys, d, k, ParentOf(sys, d, k))) <==>
            Sound(sys, d, History(sys, d)) && (last >= 1 ==> ReadableAt(sys, d, last))
  {
    var h := History(sys, d);
    assert |h| == last && forall i :: 0 <= i < last ==> h[i] == RecordAt(sys, d, i + 1).value;
    if forall k :: 1 <= k <= last ==> Checks(sys, d, k, ParentOf(sys, d, k)) {
      forall i | 0 <= i < last ensures Link(sys.format.id, h, i) && Reproducible(sys, d, h[i]) && ReadableAt(sys, d, i + 1) {
        assert Checks(sys, d, i + 1, ParentOf(sys, d, i + 1));
      }
      forall k | 1 <= k <= last ensures ReadableAt(sys, d, k) { assert Checks(sys, d, k, ParentOf(sys, d, k)); }
    }
    if Sound(sys, d, h) && (last >= 1 ==> ReadableAt(sys, d, last)) {
      forall k | 1 <= k <= last ensures Checks(sys, d, k, ParentOf(sys, d, k)) {
        assert Link(sys.format.id, h, k - 1) && Reproducible(sys, d, h[k - 1]);
        assert ReadableAt(sys, d, k);
      }
    }
  }

  predicate AllWritten(d: Disk) {
    forall n :: n in d.revisions ==> d.revisions[n].Written?
  }

  lemma {:induction false} RunWritten(d: Disk, ws: seq<Write>)
    requires AllWritten(d)
    ensures AllWritten(Run(d, ws))
    decreases |ws|
  {
    if ws != [] { RunWritten(Apply(d, ws[0]), ws[1..]); }
  }

  /** The operations leave no file but what they wrote. */
  lemma {:induction false} RunsAreWritten(sys: System, listing: Listing, states: seq<Disk>, i: nat)
    requires IsRun(sys, listing, states) && i < |states|
    ensures AllWritten(states[i])
  {
    if i > 0 {
      RunsAreWritten(sys, listing, states, i - 1);
      var d, e := states[i - 1], states[i];
      assert Step(sys, listing, d, e);
      if e != d.(locked := false) {
        var op, k: nat :| OpStep(sys, listing, d, e, op, k);
        RunWritten(d, ScriptOf(sys, listing, d, op).0[..k]);
      }
    }
  }

  /** At every moment of every run with a manifest, `verify` succeeds if and only
      if the last committed record is within the bounds of the reader. */
  lemma RunsVerify(sys: System, listing: Listing, states: seq<Disk>, i: nat)
    requires Sane(sys) && IsRun(sys, listing, states) && i < |states| && states[i].manifest
    ensures var d := states[i];
            && d.head.Some? && RecordAt(sys, d, d.head.value.seqNo).Some?
            && (Verify(sys, d).Ok? <==> Fits(sys, RecordAt(sys, d, d.head.value.seqNo).value))
  {
    var d := states[i];
    RunsAreSound(sys, listing, states, i, i);
    RunsAreWritten(sys, listing, states, i);
    VerifyExact(sys, d);
    var n := d.head.value.seqNo;
    WrittenReadable(sys, d, n, RecordAt(sys, d, n).value);
  }

  /** The knowledge base that `init` makes of an empty directory passes `verify` if
      and only if its first record is within the bounds. */
  lemma InitVerifies(sys: System, listing: Listing, source: Source, inputs: Snapshot)
    requires Sane(sys) && InitBody(sys, source, inputs).1.Ok?
    ensures var e := Run(FRESH, ScriptOf(sys, listing, FRESH, InitOp(source, inputs)).0);
            IsRun(sys, listing, [FRESH, e]) && e.manifest
            && (Verify(sys, e).Ok? <==> Fits(sys, InitBody(sys, source, inputs).1.value))
  {
    var op := InitOp(source, inputs);
    var s := ScriptOf(sys, listing, FRESH, op);
    var e := Run(FRESH, s.0);
    assert s.0[..|s.0|] == s.0;
    assert OpStep(sys, listing, FRESH, e, op, |s.0|);
    var states := [FRESH, e];
    assert Step(sys, listing, states[0], states[1]);
    ScriptSafe(sys, listing, FRESH, op);
    assert History(sys, FRESH) == [] && History(sys, e) == [s.1.value];
    RunsAreSound(sys, listing, states, 1, 1);
    assert e.manifest && |History(sys, e)| == 1;
    assert RecordAt(sys, e, 1).value == History(sys, e)[0];
    RunsVerify(sys, listing, states, 1);
  }

  /** A last record that cannot be read back stops every writer: no operation
      commits again. */
  lemma OversizedRecordSticks(sys: System, listing: Listing, d: Disk, op: Op)
    requires Sane(sys) && Inv(sys, d) && d.manifest && !ReadableAt(sys, d, d.head.value.seqNo)
    ensures ScriptOf(sys, listing, d, op).1.Err?
    ensures History(sys, Run(d, ScriptOf(sys, listing, d, op).0)) == History(sys, d)
  {
    ScriptSafe(sys, listing, d, op);
    ReadIsHeld(sys, d, d.head.value.seqNo);
    assert ReadTip(sys, d).Err?;
  }

  /** Two knowledge bases that both verify and have the same HEAD digest hold the
      same history, if the digest does not collide on their records. */
  lemma HeadDigestPinsHistory(sys: System, d: Disk, e: Disk)
    requires Faithful(sys) && Verify(sys, d).Ok? && Verify(sys, e).Ok?
    requires NoCollision(sys.format.id, History(sys, d), History(sys, e))
    requires ReadHead(d).value.id == ReadHead(e).value.id
    ensures History(sys, d) == History(sys, e)
  {
    VerifiedTip(sys, d);
    VerifiedTip(sys, e);
    HeadPinsHistory(sys.format.id, History(sys, d), History(sys, e));
  }

  /** The same of records told apart but for the folding of names. */
  lemma HeadDigestPinsFolded(sys: System, nfc: text -> text, d: Disk, e: Disk)
    requires Faithful(sys) && Verify(sys, d).Ok? && Verify(sys, e).Ok? && ReadHead(d).value.id == ReadHead(e).value.id
    requires DigestsTell(nfc, sys.format.id, History(sys, d), History(sys, e))
    ensures SameFolded(nfc, History(sys, d), History(sys, e))
  {
    VerifiedTip(sys, d);
    VerifiedTip(sys, e);
    var g, h := History(sys, d), History(sys, e);
    DigestsPin(nfc, sys.format.id, g, h, |g| - 1, |h| - 1);
  }

  lemma VerifiedIsNumbered(sys: System, d: Disk)
    requires Faithful(sys) && Verify(sys, d).Ok?
    ensures Chained(sys.format.id, History(sys, d)) && |History(sys, d)| < I64_BOUND
  {
    VerifiedTip(sys, d);
  }

  lemma VerifiedTip(sys: System, d: Disk)
    requires Faithful(sys) && Verify(sys, d).Ok?
    ensures var h := History(sys, d); h != [] && Chained(sys.format.id, h) && ReadHead(d) == Ok(Head(|h|, sys.format.id(h[|h| - 1])))
  {
    VerifyExact(sys, d);
  }

  // ----- what a commit changes -----

  ghost predicate HasTip(sys: System, d: Disk) {
    Inv(sys, d) && d.manifest
  }

  ghost function Tip(sys: System, d: Disk): Record
    requires HasTip(sys, d)
  {
    RecordAt(sys, d, d.head.value.seqNo).value
  }

  /** The inputs and the plan of the last committed revision. */
  ghost function Inputs(sys: System, d: Disk): Snapshot
    requires HasTip(sys, d)
  {
    TipIsReproducible(sys, d);
    d.snapshots[Tip(sys, d).snapshotId]
  }

  ghost function Current(sys: System, d: Disk): Plan
    requires HasTip(sys, d)
  {
    TipIsReproducible(sys, d);
    sys.load(d.programs[Tip(sys, d).programId]).value
  }

  lemma TipIsReproducible(sys: System, d: Disk)
    requires HasTip(sys, d)
    ensures Reproducible(sys, d, Tip(sys, d))
  {
    var h := History(sys, d);
    assert Reproducible(sys, d, h[|h| - 1]);
  }

  lemma TipRead(sys: System, d: Disk)
    requires Faithful(sys) && HasTip(sys, d)
    ensures ReadTip(sys, d).Ok? ==> ReadTip(sys, d).value == (d.head.value, Tip(sys, d))
  {
    ReadIsHeld(sys, d, d.head.value.seqNo);
  }

  /** The disk an uninterrupted operation leaves. */
  ghost function Done(sys: System, listing: Listing, d: Disk, op: Op): Disk {
    Run(d, ScriptOf(sys, listing, d, op).0)
  }

  ghost predicate Succeeds(sys: System, listing: Listing, d: Disk, op: Op) {
    HasTip(sys, d) && ScriptOf(sys, listing, d, op).1.Ok?
  }

  lemma Grown(sys: System, d: Disk, e: Disk, h: seq<Record>, r: Record)
    requires HasTip(sys, d) && h == History(sys, d) && Inv(sys, e) && History(sys, e) == h + [r]
    ensures HasTip(sys, e) && Tip(sys, e) == r
  {
    assert History(sys, e)[|History(sys, e)| - 1] == r;
  }

  lemma NewTip(sys: System, listing: Listing, d: Disk, op: Op)
    requires Sane(sys) && Succeeds(sys, listing, d, op)
    ensures var e := Done(sys, listing, d, op);
            HasTip(sys, e) && Tip(sys, e) == ScriptOf(sys, listing, d, op).1.value && Reproducible(sys, e, Tip(sys, e))
  {
    var s := ScriptOf(sys, listing, d, op);
    ScriptSafe(sys, listing, d, op);
    SafeAt(sys, d, s.0, History(sys, d), s.1, |s.0|);
    assert s.0[..|s.0|] == s.0;
    var e := Done(sys, listing, d, op);
    Grown(sys, d, e, History(sys, d), s.1.value);
    TipIsReproducible(sys, e);
  }

  /** A committed record for this plan and snapshot makes them current. */
  lemma TipDetermines(sys: System, e: Disk, plan: Plan, snapshot: Snapshot)
    requires Sane(sys) && HasTip(sys, e)
    requires Tip(sys, e).programId == sys.programId(plan) && Tip(sys, e).snapshotId == sys.snapshotId(snapshot)
    ensures Current(sys, e) == plan && Inputs(sys, e) == snapshot
    ensures sys.replay(plan, snapshot) == Some(Tip(sys, e).result)
  {
    TipIsReproducible(sys, e);
  }

  /** Asserting merges the values into the inputs, newer ones winning, and leaves
      the program alone. */
  lemma AssertMerges(sys: System, listing: Listing, d: Disk, asserted: Snapshot)
    requires Sane(sys) && Succeeds(sys, listing, d, AssertOp(Some(asserted)))
    ensures var e := Done(sys, listing, d, AssertOp(Some(asserted)));
            HasTip(sys, e) && Inputs(sys, e) == Inputs(sys, d) + asserted && Current(sys, e) == Current(sys, d)
  {
    TipRead(sys, d);
    NewTip(sys, listing, d, AssertOp(Some(asserted)));
    TipIsReproducible(sys, d);
    TipDetermines(sys, Done(sys, listing, d, AssertOp(Some(asserted))), Current(sys, d), Inputs(sys, d) + asserted);
  }

  /** Retracting removes exactly the named values. */
  lemma RetractRemoves(sys: System, listing: Listing, d: Disk, list: names)
    requires Sane(sys) && Succeeds(sys, listing, d, RetractOp(list))
    ensures var e := Done(sys, listing, d, RetractOp(list));
            && HasTip(sys, e) && Current(sys, e) == Current(sys, d) && Inputs(sys, e) == Without(Inputs(sys, d), list)
            && forall n :: n in list ==> n in Inputs(sys, d)
  {
    TipRead(sys, d);
    NewTip(sys, listing, d, RetractOp(list));
    TipIsReproducible(sys, d);
    assert AllSet(Inputs(sys, d), list);
    TipDetermines(sys, Done(sys, listing, d, RetractOp(list)), Current(sys, d), Without(Inputs(sys, d), list));
  }

  /** Changing the program keeps exactly the values its declarations accept. */
  lemma ProgramKeepsAccepted(sys: System, listing: Listing, d: Disk, source: Source)
    requires Sane(sys) && Succeeds(sys, listing, d, ProgramOp(source))
    ensures var e := Done(sys, listing, d, ProgramOp(source));
            && HasTip(sys, e) && sys.load(source) == Some(Current(sys, e))
            && Inputs(sys, e) == Kept(sys, Current(sys, e), Inputs(sys, d))
  {
    TipRead(sys, d);
    NewTip(sys, listing, d, ProgramOp(source));
    TipIsReproducible(sys, d);
    var plan := sys.load(source).value;
    TipDetermines(sys, Done(sys, listing, d, ProgramOp(source)), plan, Kept(sys, plan, Inputs(sys, d)));
  }

  /** Asserting fresh names and then retracting them brings back the snapshot and
      the result of the revision before, under two new numbers. */
  lemma RetractUndoesAssert(sys: System, listing: Listing, d: Disk, asserted: Snapshot, list: names)
    requires Sane(sys) && Succeeds(sys, listing, d, AssertOp(Some(asserted)))
    requires asserted.Keys !! Inputs(sys, d).Keys && asserted.Keys == set n | n in list
    requires Succeeds(sys, listing, Done(sys, listing, d, AssertOp(Some(asserted))), RetractOp(list))
    ensures var e := Done(sys, listing, d, AssertOp(Some(asserted)));
            var f := Done(sys, listing, e, RetractOp(list));
            && HasTip(sys, f) && Inputs(sys, f) == Inputs(sys, d) && Current(sys, f) == Current(sys, d)
            && Tip(sys, f).result == Tip(sys, d).result && Tip(sys, f).snapshotId == Tip(sys, d).snapshotId
            && |History(sys, f)| == |History(sys, d)| + 2
  {
    var e := Done(sys, listing, d, AssertOp(Some(asserted)));
    var f := Done(sys, listing, e, RetractOp(list));
    AssertMerges(sys, listing, d, asserted);
    RetractRemoves(sys, listing, e, list);
    NewTip(sys, listing, e, RetractOp(list));
    BackToBase(Inputs(sys, d), asserted, list);
    TipIsReproducible(sys, d);
    TipIsReproducible(sys, f);
    ScriptSafe(sys, listing, d, AssertOp(Some(asserted)));
    ScriptSafe(sys, listing, e, RetractOp(list));
  }

  lemma BackToBase(base: Snapshot, asserted: Snapshot, list: names)
    requires asserted.Keys !! base.Keys && asserted.Keys == set n | n in list
    ensures Without(base + asserted, list) == base
  {
    forall n ensures n in Without(base + asserted, list) <==> n in base {
      assert n in asserted.Keys <==> n in list;
    }
  }
}
