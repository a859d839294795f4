/** The operations as a process runs them: one file write after another on a
    machine that may stop before any of them. Each is proved to perform the writes
    of its script, in order, up to where the machine stops. */
module KbOps {
  import opened Options
  import opened CanonBytes
  import opened Utf8
  import opened Revision
  import opened KbStore
  import opened KbRuns

  /** How an operation ended for its caller: with a report, or not at all. */
  datatype Ending = Crashed | Finished(report: Result<Record, KbError>)

  /** From `before`, the writes `ws` were done, or the machine stopped in them. */
  predicate Advanced(before: seq<Write>, now: seq<Write>, ws: seq<Write>, left: nat, alive: bool) {
    if alive then now == before + ws
    else left == 0 && |before| <= |now| < |before| + |ws| && now == before + ws[..|now| - |before|]
  }

  lemma AdvanceThen(a: seq<Write>, b: seq<Write>, c: seq<Write>, v: seq<Write>, w: seq<Write>, left: nat, alive: bool)
    requires b == a + v && Advanced(b, c, w, left, alive)
    ensures Advanced(a, c, v + w, left, alive)
  {
    if alive {
      assert a + v + w == a + (v + w);
    } else {
      assert (v + w)[..|c| - |a|] == v + w[..|c| - |b|];
      assert a + v + w[..|c| - |b|] == a + (v + w[..|c| - |b|]);
    }
  }

  lemma StopsWithin(a: seq<Write>, b: seq<Write>, v: seq<Write>, w: seq<Write>, left: nat)
    requires Advanced(a, b, v, left, false)
    ensures Advanced(a, b, v + w, left, false)
  {
    assert (v + w)[..|b| - |a|] == v[..|b| - |a|];
  }

  /** The disk and the ending are those of the script on a machine with `life`
      writes left. */
  ghost predicate Ended(d: Disk, e: Disk, life: nat, ending: Ending, script: Script) {
    if life < |script.0| then ending == Crashed && e == Run(d, script.0[..life])
    else ending == Finished(script.1) && e == Run(d, script.0)
  }

  lemma EndsAs(d: Disk, e: Disk, life: nat, script: Script, done: seq<Write>, left: nat, alive: bool)
    requires e == Run(d, done) && |done| + left == life && Advanced([], done, script.0, left, alive)
    ensures Ended(d, e, life, if alive then Finished(script.1) else Crashed, script)
  {
    assert [] + script.0 == script.0;
    if !alive { assert [] + script.0[..|done|] == script.0[..life]; }
  }

  class KnowledgeBase {
    var disk: Disk
    /** Writes the machine still performs before it stops. */
    var left: nat
    ghost var start: Disk
    ghost var done: seq<Write>

    constructor ()
      ensures disk == FRESH
    {
      disk, left, start, done := FRESH, 0, FRESH, [];
    }

    ghost predicate Tracks()
      reads this
    {
      disk == Run(start, done)
    }

    method Begin(life: nat)
      modifies this
      ensures Tracks() && disk == old(disk) == start && done == [] && left == life
    {
      left, start, done := life, disk, [];
    }

    method Do(w: Write) returns (alive: bool)
      requires Tracks()
      modifies this
      ensures Tracks() && start == old(start)
      ensures alive == (old(left) > 0)
      ensures alive ==> done == old(done) + [w] && left == old(left) - 1 && disk == Apply(old(disk), w)
      ensures !alive ==> done == old(done) && left == 0 && disk == old(disk)
    {
      if left == 0 { return false; }
      RunAppend(start, done, [w]);
      disk := Apply(disk, w);
      left, done := left - 1, done + [w];
      alive := true;
    }

    /** The revision file, then HEAD, which commits it. */
    method WriteRevisionAndHead(sys: System, r: Record) returns (alive: bool)
      requires Tracks()
      modifies this
      ensures Tracks() && start == old(start) && |done| + left == |old(done)| + old(left)
      ensures Advanced(old(done), done, [PutRevision(r), PutHead(Head(r.seqNo, sys.format.id(r)))], left, alive)
    {
      alive := Do(PutRevision(r));
      if !alive { return; }
      alive := Do(PutHead(Head(r.seqNo, sys.format.id(r))));
    }

    method StoreAndCommit(sys: System, draft: Draft, source: Option<Source>) returns (alive: bool, report: Result<Record, KbError>)
      requires Tracks()
      modifies this
      ensures Tracks() && start == old(start) && |done| + left == |old(done)| + old(left)
      ensures Advanced(old(done), done, Commit(sys, draft, source).0, left, alive)
      ensures alive ==> report == Commit(sys, draft, source).1
    {
      ghost var before := done;
      ghost var ws := Commit(sys, draft, source).0;
      report := Err(TooLarge);
      if source.Some? {
        alive := Do(StoreProgram(draft.programId, source.value));
        if !alive { return; }
      }
      ghost var program := ProgramWrites(draft, source);
      assert done == before + program;
      if !sys.readable(draft.snapshot) { return true, Err(TooLarge); }
      ghost var stored := StoreSnapshot(sys.snapshotId(draft.snapshot), draft.snapshot);
      alive := Do(StoreSnapshot(sys.snapshotId(draft.snapshot), draft.snapshot));
      if !alive {
        assert ws[..|program|] == program;
        return;
      }
      assert done == before + (program + [stored]);
      var result := sys.replay(draft.plan, draft.snapshot);
      if result.None? { return true, Err(Rejected); }
      var r := RecordOf(sys, draft, result.value);
      ghost var middle := done;
      alive := WriteRevisionAndHead(sys, r);
      AdvanceThen(before, middle, done, program + [stored], [PutRevision(r), PutHead(Head(r.seqNo, sys.format.id(r)))], left, alive);
      report := Ok(r);
    }

    /** The manifest is written last: it makes the directory a knowledge base. */
    method InitLocked(sys: System, source: Source, inputs: Snapshot) returns (alive: bool, report: Result<Record, KbError>)
      requires Tracks()
      modifies this
      ensures Tracks() && start == old(start) && |done| + left == |old(done)| + old(left)
      ensures Advanced(old(done), done, InitBody(sys, source, inputs).0, left, alive)
      ensures alive ==> report == InitBody(sys, source, inputs).1
    {
      var plan := sys.load(source);
      if plan.None? { return true, Err(Rejected); }
      if !sys.validates(plan.value, inputs) { return true, Err(Rejected); }
      var id := sys.programId(plan.value);
      var draft := Draft(1, None, plan.value, id, sys.programPath(id), inputs, Init);
      ghost var before, ws := done, Commit(sys, draft, Some(source)).0;
      alive, report := StoreAndCommit(sys, draft, Some(source));
      if !alive {
        StopsWithin(before, done, ws, [PutManifest], left);
        return;
      }
      if report.Err? { return; }
      ghost var middle := done;
      alive := Do(PutManifest);
      AdvanceThen(before, middle, done, ws, [PutManifest], left, alive);
    }

    method AssertLocked(sys: System, listing: Listing, asserted: Snapshot) returns (alive: bool, report: Result<Record, KbError>)
      requires Tracks()
      modifies this
      ensures Tracks() && start == old(start) && |done| + left == |old(done)| + old(left)
      ensures Advanced(old(done), done, AssertBody(sys, listing, old(disk), asserted).0, left, alive)
      ensures alive ==> report == AssertBody(sys, listing, old(disk), asserted).1
    {
      var tip := ReadTip(sys, disk);
      if tip.Err? { return true, Err(tip.error); }
      var (head, parent) := tip.value;
      var plan := ReadPlan(sys, disk, parent.programId);
      if plan.Err? { return true, Err(plan.error); }
      var base := ReadSnapshot(disk, parent.snapshotId);
      if base.Err? { return true, Err(base.error); }
      if asserted == map[] { return true, Err(EmptyChange); }
      var merged := base.value + asserted;
      if !sys.validates(plan.value, merged) { return true, Err(Rejected); }
      var change := Assert(NamesOf(asserted, listing));
      alive, report := StoreAndCommit(sys, NextDraft(head, plan.value, parent.programId, parent.programPath, merged, change), None);
    }

    method RetractLocked(sys: System, list: names) returns (alive: bool, report: Result<Record, KbError>)
      requires Tracks()
      modifies this
      ensures Tracks() && start == old(start) && |done| + left == |old(done)| + old(left)
      ensures Advanced(old(done), done, RetractBody(sys, old(disk), list).0, left, alive)
      ensures alive ==> report == RetractBody(sys, old(disk), list).1
    {
      var tip := ReadTip(sys, disk);
      if tip.Err? { return true, Err(tip.error); }
      var (head, parent) := tip.value;
      var plan := ReadPlan(sys, disk, parent.programId);
      if plan.Err? { return true, Err(plan.error); }
      var base := ReadSnapshot(disk, parent.snapshotId);
      if base.Err? { return true, Err(base.error); }
      var values, allSet := RemoveNames(base.value, list);
      if !allSet { return true, Err(NotSet); }
      var draft := NextDraft(head, plan.value, parent.programId, parent.programPath, values, Retract(list));
      alive, report := StoreAndCommit(sys, draft, None);
    }

    /** Remove the names one after the other, noting any that is not set. */
    method RemoveNames(base: Snapshot, list: names) returns (values: Snapshot, allSet: bool)
      ensures allSet == AllSet(base, list)
      ensures allSet ==> values == Without(base, list)
    {
      values, allSet := base, true;
      for i := 0 to |list|
        invariant forall n :: n in values <==> n in base && n !in list[..i]
        invariant forall n :: n in values ==> values[n] == base[n]
        invariant allSet <==> forall j :: 0 <= j < i ==> list[j] in base && list[j] !in list[..j]
      {
        if list[i] !in values { allSet := false; }
        values := values - {list[i]};
        assert list[..i + 1] == list[..i] + [list[i]];
      }
      assert list[..|list|] == list;
    }

    method ProgramLocked(sys: System, listing: Listing, source: Source) returns (alive: bool, report: Result<Record, KbError>)
      requires Tracks()
      modifies this
      ensures Tracks() && start == old(start) && |done| + left == |old(done)| + old(left)
      ensures Advanced(old(done), done, ProgramBody(sys, listing, old(disk), source).0, left, alive)
      ensures alive ==> report == ProgramBody(sys, listing, old(disk), source).1
    {
      var tip := ReadTip(sys, disk);
      if tip.Err? { return true, Err(tip.error); }
      var (head, parent) := tip.value;
      var base := ReadSnapshot(disk, parent.snapshotId);
      if base.Err? { return true, Err(base.error); }
      var plan := sys.load(source);
      if plan.None? { return true, Err(Rejected); }
      var kept, dropped := KeepAccepted(sys, plan.value, base.value);
      var id := sys.programId(plan.value);
      var change := Program(parent.programId, listing(dropped));
      alive, report := StoreAndCommit(sys, NextDraft(head, plan.value, id, sys.programPath(id), kept, change), Some(source));
    }

    /** Check each value alone against the new program's declarations. */
    method KeepAccepted(sys: System, plan: Plan, base: Snapshot) returns (kept: Snapshot, dropped: set<text>)
      ensures kept == Kept(sys, plan, base) && dropped == base.Keys - kept.Keys
    {
      kept, dropped := map[], {};
      var todo := base.Keys;
      while todo != {}
        invariant todo <= base.Keys
        invariant forall n :: n in kept <==> n in base && n !in todo && sys.validates(plan, map[n := base[n]])
        invariant forall n :: n in kept ==> kept[n] == base[n]
        invariant forall n :: n in dropped <==> n in base && n !in todo && !sys.validates(plan, map[n := base[n]])
        decreases |todo|
      {
        var n :| n in todo;
        if sys.validates(plan, map[n := base[n]]) {
          kept := kept[n := base[n]];
        } else {
          dropped := dropped + {n};
        }
        todo := todo - {n};
      }
    }

    method Locked(sys: System, listing: Listing, op: Op) returns (alive: bool, report: Result<Record, KbError>)
      requires Tracks() && Early(disk, op).None?
      modifies this
      ensures Tracks() && start == old(start) && |done| + left == |old(done)| + old(left)
      ensures Advanced(old(done), done, Body(sys, listing, old(disk), op).0, left, alive)
      ensures alive ==> report == Body(sys, listing, old(disk), op).1
    {
      match op
      case InitOp(source, inputs) => alive, report := InitLocked(sys, source, inputs);
      case AssertOp(asserted) => alive, report := AssertLocked(sys, listing, asserted.value);
      case RetractOp(list) => alive, report := RetractLocked(sys, list);
      case ProgramOp(source) => alive, report := ProgramLocked(sys, listing, source);
    }

    /** Take the lock, do the work, drop the lock on every way out but a crash. */
    method UnderLock(sys: System, listing: Listing, op: Op) returns (alive: bool, report: Result<Record, KbError>)
      requires Tracks() && Early(disk, op).None? && done == []
      modifies this
      ensures Tracks() && start == old(start) && |done| + left == old(left)
      ensures Advanced([], done, [TakeLock] + Body(sys, listing, old(disk), op).0 + [DropLock], left, alive)
      ensures alive ==> report == Body(sys, listing, old(disk), op).1
    {
      ghost var ws := Body(sys, listing, disk, op).0;
      BodyIgnoresLock(sys, listing, disk, op);
      report := Err(TooLarge);
      alive := Do(TakeLock);
      if !alive { return; }
      ghost var middle := done;
      alive, report := Locked(sys, listing, op);
      AdvanceThen([], middle, done, [TakeLock], ws, left, alive);
      if !alive {
        StopsWithin([], done, [TakeLock] + ws, [DropLock], left);
        return;
      }
      middle := done;
      alive := Do(DropLock);
      AdvanceThen([], middle, done, [TakeLock] + ws, [DropLock], left, alive);
    }

    /** Run one operation on a machine with `life` writes left: refuse early, or do
        the work under the lock. */
    method Perform(sys: System, listing: Listing, op: Op, life: nat) returns (ending: Ending)
      modifies this
      ensures Ended(old(disk), disk, life, ending, ScriptOf(sys, listing, old(disk), op))
    {
      Begin(life);
      var refused := Early(disk, op);
      if refused.Some? { return Finished(Err(refused.value)); }
      if disk.locked { return Finished(Err(KbError.Locked)); }
      ghost var body := Body(sys, listing, disk, op);
      var alive, report := UnderLock(sys, listing, op);
      ending := if alive then Finished(report) else Crashed;
      EndsAs(start, disk, life, ([TakeLock] + body.0 + [DropLock], body.1), done, left, alive);
    }

    /** An operator removes a lock that a crash left behind. */
    method ClearLock()
      modifies this
      ensures disk == old(disk).(locked := false)
    {
      disk := disk.(locked := false);
    }

    /** Walk the revisions, carrying the digest the next one must name as its
        parent. */
    method CheckAll(sys: System) returns (r: Result<nat, KbError>)
      ensures r == Verify(sys, disk)
    {
      var head := ReadHead(disk);
      if head.Err? { return Err(head.error); }
      var expected: Option<digest> := None;
      var n := 1;
      while n <= head.value.seqNo
        invariant 1 <= n <= head.value.seqNo + 1
        invariant VerifyFrom(sys, disk, head.value.seqNo, n, expected) == VerifyFrom(sys, disk, head.value.seqNo, 1, None)
      {
        var id := VerifyRevision(sys, disk, n, expected);
        if id.Err? { return Err(id.error); }
        expected := Some(id.value);
        n := n + 1;
      }
      if expected != Some(head.value.id) { return Err(HeadMismatch); }
      r := Ok(head.value.seqNo);
    }
  }

  /** Running an operation is a step of a run, so all that holds of runs holds of
      the process: soundness at the point of a crash included. */
  lemma EndedIsStep(sys: System, listing: Listing, d: Disk, e: Disk, op: Op, life: nat, ending: Ending)
    requires Ended(d, e, life, ending, ScriptOf(sys, listing, d, op))
    ensures Step(sys, listing, d, e)
  {
    var s := ScriptOf(sys, listing, d, op);
    var k := if life < |s.0| then life else |s.0|;
    assert s.0[..|s.0|] == s.0;
    assert OpStep(sys, listing, d, e, op, k);
  }
}
