/** When each operation commits, and what exactly it then commits. */
module KbCommits {
  import opened Options
  import opened CanonBytes
  import opened Utf8
  import opened Revision
  import opened KbStore
  import opened KbRuns

  /** What an operation reports once it knows the plan, the new inputs and the
      change: the snapshot must fit and the replay must be defined. */
  function Outcome(sys: System, draft: Draft): Result<Record, KbError> {
    if !sys.readable(draft.snapshot) then Err(TooLarge)
    else match sys.replay(draft.plan, draft.snapshot)
      case None => Err(Rejected)
      case Some(result) =>
        Ok(RevisionRecord(draft.seqNo, draft.parent, sys.programId(draft.plan), draft.programPath, sys.snapshotId(draft.snapshot),
                          sys.snapshotPath(sys.snapshotId(draft.snapshot)), draft.change, result))
  }

  /** A record that follows the last committed one. */
  ghost function Following(sys: System, d: Disk, plan: Plan, path: text, snapshot: Snapshot, change: Change<digest>): Draft
    requires HasTip(sys, d)
  {
    Draft(|History(sys, d)| + 1, Some(sys.format.id(Tip(sys, d))), plan, sys.programId(plan), path, snapshot, change)
  }

  /** The last revision can be read back. */
  ghost predicate TipReadable(sys: System, d: Disk)
    requires HasTip(sys, d)
  {
    ReadableAt(sys, d, d.head.value.seqNo)
  }

  /** Whoever reads the tip finds the current plan and inputs. */
  lemma TipFound(sys: System, d: Disk)
    requires Sane(sys) && HasTip(sys, d)
    ensures ReadTip(sys, d).Ok? <==> TipReadable(sys, d)
    ensures TipReadable(sys, d) ==>
              && ReadTip(sys, d).value == (d.head.value, Tip(sys, d))
              && ReadPlan(sys, d, Tip(sys, d).programId) == Ok(Current(sys, d))
              && ReadSnapshot(d, Tip(sys, d).snapshotId) == Ok(Inputs(sys, d))
    ensures Tip(sys, d).programId == sys.programId(Current(sys, d))
    ensures d.head.value == Head(|History(sys, d)|, sys.format.id(Tip(sys, d)))
  {
    var h, n := History(sys, d), d.head.value.seqNo;
    TipIsReproducible(sys, d);
    TipRead(sys, d);
    ReadIsHeld(sys, d, n);
    assert |h| == n && h[n - 1] == Tip(sys, d);
    assert Link(sys.format.id, h, n - 1);
    if TipReadable(sys, d) {
      var read := sys.format.read(ContentsOf(sys, d.revisions[n]));
      assert read.Ok? && read.value == Tip(sys, d);
    }
  }

  /** What commits, in the end, is the draft. */
  lemma CommitDecides(sys: System, draft: Draft, source: Option<Source>)
    requires draft.programId == sys.programId(draft.plan)
    ensures Commit(sys, draft, source).1 == Outcome(sys, draft)
  {
  }

  lemma NextIsFollowing(sys: System, d: Disk, plan: Plan, path: text, snapshot: Snapshot, change: Change<digest>)
    requires Sane(sys) && HasTip(sys, d)
    ensures NextDraft(d.head.value, plan, sys.programId(plan), path, snapshot, change) == Following(sys, d, plan, path, snapshot, change)
  {
    TipFound(sys, d);
  }

  /** Asserting commits if and only if nobody holds the lock, the tip is readable,
      something is asserted, and the merged inputs are valid, fit and have a
      replay. The record then names exactly that, and the names asserted. */
  lemma AssertDecides(sys: System, listing: Listing, d: Disk, asserted: Snapshot)
    requires Sane(sys) && HasTip(sys, d)
    ensures var r := ScriptOf(sys, listing, d, AssertOp(Some(asserted))).1;
            var merged := Inputs(sys, d) + asserted;
            if d.locked then r == Err(Locked)
            else if !TipReadable(sys, d) then r.Err?
            else if asserted == map[] then r == Err(EmptyChange)
            else if !sys.validates(Current(sys, d), merged) then r == Err(Rejected)
            else r == Outcome(sys, Following(sys, d, Current(sys, d), Tip(sys, d).programPath, merged, Assert(listing(asserted.Keys))))
  {
    TipFound(sys, d);
    if !d.locked && TipReadable(sys, d) {
      var merged, change := Inputs(sys, d) + asserted, Assert(listing(asserted.Keys));
      NextIsFollowing(sys, d, Current(sys, d), Tip(sys, d).programPath, merged, change);
      CommitDecides(sys, Following(sys, d, Current(sys, d), Tip(sys, d).programPath, merged, change), None);
    }
  }

  /** Retracting commits if and only if nobody holds the lock, the tip is readable,
      something is retracted, every name is set and given once, and what is left
      fits and has a replay. */
  lemma RetractDecides(sys: System, listing: Listing, d: Disk, list: names)
    requires Sane(sys) && HasTip(sys, d)
    ensures var r := ScriptOf(sys, listing, d, RetractOp(list)).1;
            var left := Without(Inputs(sys, d), list);
            if list == [] then r == Err(EmptyChange)
            else if d.locked then r == Err(Locked)
            else if !TipReadable(sys, d) then r.Err?
            else if !SetOnce(Inputs(sys, d), list) then r == Err(NotSet)
            else r == Outcome(sys, Following(sys, d, Current(sys, d), Tip(sys, d).programPath, left, Retract(list)))
  {
    SetOnceIsAllSet(Inputs(sys, d), list);
    if list != [] && !d.locked { RetractIs(sys, listing, d, list); }
  }

  lemma RetractIs(sys: System, listing: Listing, d: Disk, list: names)
    requires Sane(sys) && HasTip(sys, d) && list != [] && !d.locked
    ensures var r := ScriptOf(sys, listing, d, RetractOp(list)).1;
            if !TipReadable(sys, d) then r.Err?
            else if !AllSet(Inputs(sys, d), list) then r == Err(NotSet)
            else r == Outcome(sys, Following(sys, d, Current(sys, d), Tip(sys, d).programPath, Without(Inputs(sys, d), list), Retract(list)))
  {
    TipFound(sys, d);
    var left := Without(Inputs(sys, d), list);
    NextIsFollowing(sys, d, Current(sys, d), Tip(sys, d).programPath, left, Retract(list));
    CommitDecides(sys, Following(sys, d, Current(sys, d), Tip(sys, d).programPath, left, Retract(list)), None);
  }

  /** Every name is set, and none is given twice. */
  ghost predicate SetOnce(base: Snapshot, list: names) {
    && (forall n :: n in list ==> n in base)
    && (forall i, j :: 0 <= i < j < |list| ==> list[i] != list[j])
  }

  lemma SetOnceIsAllSet(base: Snapshot, list: names)
    ensures AllSet(base, list) <==> SetOnce(base, list)
  {
    if AllSet(base, list) {
      forall i, j | 0 <= i < j < |list| ensures list[i] != list[j] {
        assert list[j] !in list[..j];
        assert list[..j][i] == list[i];
      }
    }
  }

  /** Changing the program commits if and only if nobody holds the lock, the tip is
      readable, the source loads, and the values its declarations accept fit and
      have a replay. The record names the old program and the values dropped. */
  lemma ProgramDecides(sys: System, listing: Listing, d: Disk, source: Source)
    requires Sane(sys) && HasTip(sys, d)
    ensures var r := ScriptOf(sys, listing, d, ProgramOp(source)).1;
            if d.locked then r == Err(Locked)
            else if !TipReadable(sys, d) then r.Err?
            else if sys.load(source).None? then r == Err(Rejected)
            else
              var plan := sys.load(source).value;
              var kept := Accepted(sys, plan, Inputs(sys, d));
              var change := Program(sys.programId(Current(sys, d)), listing(Inputs(sys, d).Keys - kept.Keys));
              r == Outcome(sys, Following(sys, d, plan, sys.programPath(sys.programId(plan)), kept, change))
  {
    TipFound(sys, d);
    if !d.locked && TipReadable(sys, d) && sys.load(source).Some? {
      var plan := sys.load(source).value;
      var kept := Kept(sys, plan, Inputs(sys, d));
      assert kept == Accepted(sys, plan, Inputs(sys, d));
      var change := Program(Tip(sys, d).programId, listing(Inputs(sys, d).Keys - kept.Keys));
      NextIsFollowing(sys, d, plan, sys.programPath(sys.programId(plan)), kept, change);
      CommitDecides(sys, Following(sys, d, plan, sys.programPath(sys.programId(plan)), kept, change), Some(source));
    }
  }

  /** The values the plan accepts, each taken alone. */
  function Accepted(sys: System, plan: Plan, base: Snapshot): (kept: Snapshot)
    ensures forall n :: n in kept <==> n in base && sys.validates(plan, map[n := base[n]])
    ensures forall n :: n in kept ==> kept[n] == base[n]
  {
    Kept(sys, plan, base)
  }

  /** A new knowledge base is made if and only if there is none, nobody holds the
      lock, the source loads, and the inputs are valid, fit and have a replay. */
  lemma InitDecides(sys: System, listing: Listing, d: Disk, source: Source, inputs: Snapshot)
    ensures var r := ScriptOf(sys, listing, d, InitOp(source, inputs)).1;
            if d.manifest then r == Err(AlreadyInitialized)
            else if d.locked then r == Err(Locked)
            else if sys.load(source).None? || !sys.validates(sys.load(source).value, inputs) then r == Err(Rejected)
            else
              var plan := sys.load(source).value;
              var id := sys.programId(plan);
              r == Outcome(sys, Draft(1, None, plan, id, sys.programPath(id), inputs, Init))
  {
    if sys.load(source).Some? {
      var plan := sys.load(source).value;
      var id := sys.programId(plan);
      CommitDecides(sys, Draft(1, None, plan, id, sys.programPath(id), inputs, Init), Some(source));
    }
  }

  /** Without a manifest there is nothing to change. */
  lemma NothingToChange(sys: System, listing: Listing, d: Disk, op: Op)
    requires !d.manifest && !op.InitOp?
    ensures ScriptOf(sys, listing, d, op).1.Err?
  {
  }

  /** Whatever an operation reports, it leaves the lock as it found it; and if it
      reports a record, that record is the new tip of a history one longer, HEAD
      names it, and every other revision file is as it was. */
  lemma CommitLeaves(sys: System, listing: Listing, d: Disk, op: Op)
    requires Sane(sys) && Inv(sys, d)
    ensures var r := ScriptOf(sys, listing, d, op).1;
            var e := Done(sys, listing, d, op);
            && e.locked == d.locked && e.manifest == (d.manifest || r.Ok?)
            && (if r.Err? then e.revisions == d.revisions && e.head == d.head && History(sys, e) == History(sys, d)
                else
                  && History(sys, e) == History(sys, d) + [r.value]
                  && e.head == Some(Head(r.value.seqNo, sys.format.id(r.value)))
                  && e.revisions == d.revisions[r.value.seqNo := Written(r.value)])
  {
    var s := ScriptOf(sys, listing, d, op);
    ScriptSafe(sys, listing, d, op);
    if Early(d, op).None? && !d.locked {
      var body := Body(sys, listing, d, op);
      var locked := Apply(d, TakeLock);
      RunAppend(locked, body.0, [DropLock]);
      assert s.0[1..] == body.0 + [DropLock];
      BodyLeaves(sys, listing, d, locked, op);
      RunOne(Run(locked, body.0), DropLock);
    }
  }

  lemma RunOne(d: Disk, w: Write)
    ensures Run(d, [w]) == Apply(d, w)
  {
    assert [w][1..] == [];
    assert Run(Apply(d, w), []) == Apply(d, w);
  }

  /** `e` is `d` but for stored objects and, after a success, the new revision. */
  predicate Leaves(sys: System, d: Disk, e: Disk, r: Result<Record, KbError>) {
    && e.locked == d.locked
    && (if r.Err? then e.revisions == d.revisions && e.head == d.head
        else
          && e.head == Some(Head(r.value.seqNo, sys.format.id(r.value)))
          && e.revisions == d.revisions[r.value.seqNo := Written(r.value)])
  }

  lemma RunTwo(d: Disk, v: Write, w: Write)
    ensures Run(d, [v, w]) == Apply(Apply(d, v), w)
  {
    assert [v, w][1..] == [w];
    RunOne(Apply(d, v), w);
  }

  /** Storing objects touches nothing else. */
  predicate OnlyObjects(d: Disk, e: Disk) {
    e == d.(programs := e.programs, snapshots := e.snapshots)
  }

  lemma ObjectWrites(d: Disk, draft: Draft, source: Option<Source>, sid: digest)
    ensures var program := ProgramWrites(draft, source);
            OnlyObjects(d, Run(d, program)) && OnlyObjects(d, Run(d, program + [StoreSnapshot(sid, draft.snapshot)]))
  {
    var program := ProgramWrites(draft, source);
    if source.Some? { RunOne(d, program[0]); }
    RunAppend(d, program, [StoreSnapshot(sid, draft.snapshot)]);
    RunOne(Run(d, program), StoreSnapshot(sid, draft.snapshot));
  }

  lemma CommitWrites(sys: System, d: Disk, draft: Draft, source: Option<Source>)
    ensures var c := Commit(sys, draft, source);
            Leaves(sys, d, Run(d, c.0), c.1) && Run(d, c.0).manifest == d.manifest
  {
    var c := Commit(sys, draft, source);
    ObjectWrites(d, draft, source, sys.snapshotId(draft.snapshot));
    if c.1.Ok? {
      var r := c.1.value;
      var stored := ProgramWrites(draft, source) + [StoreSnapshot(sys.snapshotId(draft.snapshot), draft.snapshot)];
      RunAppend(d, stored, [PutRevision(r), PutHead(Head(r.seqNo, sys.format.id(r)))]);
      RunTwo(Run(d, stored), PutRevision(r), PutHead(Head(r.seqNo, sys.format.id(r))));
    }
  }

  lemma BodyLeaves(sys: System, listing: Listing, d: Disk, e: Disk, op: Op)
    requires Early(d, op).None?
    ensures var body := Body(sys, listing, d, op);
            && Leaves(sys, e, Run(e, body.0), body.1)
            && Run(e, body.0).manifest == (e.manifest || (op.InitOp? && body.1.Ok?))
            && (!op.InitOp? && body.1.Ok? ==> d.manifest)
  {
    var body := Body(sys, listing, d, op);
    if body.0 != [] || body.1.Ok? {
      match op
      case InitOp(source, inputs) =>
        var plan := sys.load(source).value;
        var id := sys.programId(plan);
        var draft := Draft(1, None, plan, id, sys.programPath(id), inputs, Init);
        var c := Commit(sys, draft, Some(source));
        CommitWrites(sys, e, draft, Some(source));
        if c.1.Ok? {
          RunAppend(e, c.0, [PutManifest]);
          RunOne(Run(e, c.0), PutManifest);
        }
      case AssertOp(asserted) =>
        var t := ReadTip(sys, d).value;
        var plan, base := ReadPlan(sys, d, t.1.programId).value, ReadSnapshot(d, t.1.snapshotId).value;
        CommitWrites(sys, e, NextDraft(t.0, plan, t.1.programId, t.1.programPath, base + asserted.value,
                                       Assert(NamesOf(asserted.value, listing))), None);
      case RetractOp(list) =>
        var t := ReadTip(sys, d).value;
        var plan, base := ReadPlan(sys, d, t.1.programId).value, ReadSnapshot(d, t.1.snapshotId).value;
        CommitWrites(sys, e, NextDraft(t.0, plan, t.1.programId, t.1.programPath, Without(base, list), Retract(list)), None);
      case ProgramOp(source) =>
        var t := ReadTip(sys, d).value;
        var plan, base := sys.load(source).value, ReadSnapshot(d, t.1.snapshotId).value;
        var kept, id := Kept(sys, plan, base), sys.programId(plan);
        CommitWrites(sys, e, NextDraft(t.0, plan, id, sys.programPath(id), kept,
                                       Program(t.1.programId, listing(base.Keys - kept.Keys))), Some(source));
    }
  }
}
