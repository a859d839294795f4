/** The revision store with its actual revision files and replay: what the store
    assumes of a file format holds of the JSON one, and what the store promises
    is restated for it. */
module KbFiles {
  import opened Options
  import opened CanonBytes
  import opened Utf8
  import opened Revision
  import opened RevisionJson
  import opened KbStore
  import opened KbRuns
  import RevisionFiles

  /** A program source is at most this long, so no name it declares is longer, nor
      are there more of them. */
  const MAX_SOURCE_BYTES: nat := 1024 * 1024

  type identifier = s: string | Utf8Length(s) <= MAX_SOURCE_BYTES
  type declarations = s: seq<identifier> | |s| <= MAX_SOURCE_BYTES

  /** What still lies outside: the language, identities, Unicode folding, hashing. */
  datatype Environment = Environment(
    load: Source -> Option<Plan>,
    programId: Plan -> digest,
    snapshotId: Snapshot -> digest,
    inputsOf: Plan -> declarations,
    validates: (Plan, Snapshot) -> bool,
    decide: (Plan, Snapshot) -> Option<RevisionResult<digest>>,
    readable: Snapshot -> bool,
    nfc: text -> text,
    hash: seq<byte> -> digest)

  // ----- replay -----

  function MissingNames(declared: declarations, snapshot: Snapshot): (r: declarations)
    ensures |r| <= |declared|
  {
    if declared == [] then []
    else
      var rest := MissingNames(declared[1..], snapshot);
      if declared[0] in snapshot then rest else [declared[0]] + rest
  }

  function LineText(name: string): string {
    "missing required input '" + name + "'"
  }

  lemma LineLength(name: string)
    ensures |LineText(name)| == |name| + 25 && Utf8Length(LineText(name)) <= Utf8Length(name) + 100
  {
    var front, back := "missing required input '", "'";
    FrontAndBack(front, name, back);
    assert |front| == 24 && |back| == 1;
  }

  lemma FrontAndBack(front: string, name: string, back: string)
    ensures Utf8Length(front + name + back) <= 4 * (|front| + |back|) + Utf8Length(name)
  {
    LengthAppend(front, name);
    LengthAppend(front + name, back);
    LengthBounds(front);
    LengthBounds(back);
  }

  function Line(name: identifier): (r: text) {
    LineLength(name);
    LineText(name)
  }

  function Lines(missing: declarations): (r: names)
    ensures |r| == |missing|
  {
    seq(|missing|, i requires 0 <= i < |missing| => Line(missing[i]))
  }

  /** An incomplete snapshot decides nothing: each declared input without a value is
      reported in a line of its own. */
  function ReplayOf(env: Environment, plan: Plan, snapshot: Snapshot): Option<RevisionResult<digest>> {
    var missing := MissingNames(env.inputsOf(plan), snapshot);
    if !env.validates(plan, snapshot) then None
    else if missing != [] then Some(RevisionResult(MissingInputs, None, None, None, None, None, Lines(missing)))
    else env.decide(plan, snapshot)
  }

  /** The places of the declared inputs that have no value, in order. */
  ghost predicate ArePlaces(declared: declarations, snapshot: Snapshot, at: seq<nat>) {
    && (forall i, j :: 0 <= i < j < |at| ==> at[i] < at[j])
    && |at| <= |declared| && (forall i :: 0 <= i < |at| ==> at[i] < |declared| && declared[at[i]] !in snapshot)
    && (forall k :: 0 <= k < |declared| && declared[k] !in snapshot ==> k in at)
  }

  /** The same places, counted from one name further to the left. */
  function Moved(at: seq<nat>): (r: seq<nat>)
    ensures |r| == |at| && forall i :: 0 <= i < |r| ==> r[i] == at[i] + 1
  {
    seq(|at|, i requires 0 <= i < |at| => at[i] + 1)
  }

  lemma PlacesStep(declared: declarations, snapshot: Snapshot, rest: seq<nat>)
    requires declared != [] && ArePlaces(declared[1..], snapshot, rest)
    ensures ArePlaces(declared, snapshot, if declared[0] in snapshot then Moved(rest) else [0] + Moved(rest))
  {
    forall i | 0 <= i < |rest| ensures declared[Moved(rest)[i]] !in snapshot { MovedPlace(declared, rest, i); }
    forall k | 0 < k < |declared| && declared[k] !in snapshot ensures k in Moved(rest) { PlaceMoved(declared, snapshot, rest, k); }
    if declared[0] !in snapshot { FirstPlace(declared, snapshot, Moved(rest)); }
  }

  /** The first name is missing too. */
  lemma FirstPlace(declared: declarations, snapshot: Snapshot, later: seq<nat>)
    requires declared != [] && declared[0] !in snapshot && |later| < |declared|
    requires forall i, j :: 0 <= i < j < |later| ==> later[i] < later[j]
    requires forall i :: 0 <= i < |later| ==> 0 < later[i] < |declared| && declared[later[i]] !in snapshot
    requires forall k :: 0 < k < |declared| && declared[k] !in snapshot ==> k in later
    ensures ArePlaces(declared, snapshot, [0] + later)
  {
    var at := [0] + later;
    forall k | 0 <= k < |declared| && declared[k] !in snapshot ensures k in at {
      if k > 0 { assert k in later; } else { assert at[0] == k; }
    }
  }

  lemma MovedPlace(declared: declarations, rest: seq<nat>, i: int)
    requires declared != [] && forall j :: 0 <= j < |rest| ==> rest[j] < |declared| - 1
    ensures 0 <= i < |rest| ==> Moved(rest)[i] == rest[i] + 1 && declared[rest[i] + 1] == declared[1..][rest[i]]
  {
  }

  lemma PlaceMoved(declared: declarations, snapshot: Snapshot, rest: seq<nat>, k: nat)
    requires 0 < k < |declared| && declared[k] !in snapshot && ArePlaces(declared[1..], snapshot, rest)
    ensures k in Moved(rest)
  {
    assert declared[1..][k - 1] == declared[k];
    var i :| 0 <= i < |rest| && rest[i] == k - 1;
    assert Moved(rest)[i] == k;
  }

  /** These are the names at these places. */
  predicate NamesAt(declared: declarations, names: declarations, at: seq<nat>) {
    |names| == |at| && forall i :: 0 <= i < |at| ==> at[i] < |declared| && names[i] == declared[at[i]]
  }

  lemma NamesMoved(declared: declarations, names: declarations, rest: seq<nat>)
    requires declared != [] && NamesAt(declared[1..], names, rest)
    ensures NamesAt(declared, names, Moved(rest))
  {
    forall i | 0 <= i < |rest| ensures Moved(rest)[i] < |declared| && names[i] == declared[Moved(rest)[i]] {
      assert declared[1..][rest[i]] == declared[rest[i] + 1];
    }
  }

  lemma NamesLonger(declared: declarations, names: declarations, later: seq<nat>)
    requires declared != [] && NamesAt(declared, names, later) && |names| < MAX_SOURCE_BYTES
    ensures NamesAt(declared, [declared[0]] + names, [0] + later)
  {
  }

  lemma {:induction false} MissingExact(declared: declarations, snapshot: Snapshot) returns (at: seq<nat>)
    ensures ArePlaces(declared, snapshot, at) && NamesAt(declared, MissingNames(declared, snapshot), at)
  {
    at := [];
    if declared != [] {
      var rest := MissingExact(declared[1..], snapshot);
      PlacesStep(declared, snapshot, rest);
      NamesMoved(declared, MissingNames(declared[1..], snapshot), rest);
      at := Moved(rest);
      if declared[0] !in snapshot {
        NamesLonger(declared, MissingNames(declared[1..], snapshot), at);
        at := [0] + at;
      }
    }
  }

  function LinesAt(declared: declarations, at: seq<nat>): (r: names)
    requires |at| <= |declared| && forall i :: 0 <= i < |at| ==> at[i] < |declared|
    ensures |r| == |at| && forall i :: 0 <= i < |r| ==> r[i] == Line(declared[at[i]])
  {
    seq(|at|, i requires 0 <= i < |at| && at[i] < |declared| => Line(declared[at[i]]))
  }

  /** Replaying valid values reports missing inputs if and only if some declared
      input has no value; then nothing is decided, and each of those is reported in
      a line of its own, in the order of declaration. */
  lemma ReplayExact(env: Environment, plan: Plan, snapshot: Snapshot) returns (at: seq<nat>)
    requires env.validates(plan, snapshot)
    ensures ArePlaces(env.inputsOf(plan), snapshot, at)
    ensures if at == [] then ReplayOf(env, plan, snapshot) == env.decide(plan, snapshot)
            else ReplayOf(env, plan, snapshot) ==
                 Some(RevisionResult(MissingInputs, None, None, None, None, None, LinesAt(env.inputsOf(plan), at)))
  {
    var declared := env.inputsOf(plan);
    at := MissingExact(declared, snapshot);
    if at != [] {
      assert Lines(MissingNames(declared, snapshot)) == LinesAt(declared, at);
    }
  }

  // ----- the file format -----

  function ReadText(nfc: text -> text, hash: seq<byte> -> digest, contents: string): Result<Record, DecodeError> {
    match FromText(nfc, hash, contents)
    case Decoded(r) => Ok(r)
    case Refused(e) => Err(e)
  }

  function JsonFormat(nfc: text -> text, hash: seq<byte> -> digest): Format {
    Format((r: Record) => DigestOf(nfc, hash, r),
           (r: Record) => RecordText(nfc, hash, r),
           (contents: string) => ReadText(nfc, hash, contents))
  }

  function PathText(directory: string, id: digest, extension: string): (r: text)
    requires |directory| + |extension| < 100
  {
    LengthBounds(directory + Hex(id) + extension);
    directory + Hex(id) + extension
  }

  function Real(env: Environment): System {
    System(env.load, env.programId, env.snapshotId, env.validates,
           (plan, snapshot) => ReplayOf(env, plan, snapshot), env.readable, JsonFormat(env.nfc, env.hash),
           (id: digest) => PathText("programs/", id, ".brix"), (id: digest) => PathText("snapshots/", id, ".json"))
  }

  /** The JSON format does what the store relies on, so every theorem about the
      store is one about the store as it is. */
  lemma RealIsSane(env: Environment)
    requires CollisionFree(Real(env))
    ensures Sane(Real(env))
  {
    RealIsFaithful(env);
  }

  lemma RealIsFaithful(env: Environment)
    ensures Faithful(Real(env))
  {
    var sys := Real(env);
    forall r: Record ensures ReadsBack(sys, r) {
      RevisionFiles.WrittenReadsBack(env.nfc, env.hash, r);
      RealFits(env, r);
    }
    forall s | sys.format.read(s).Ok? ensures sys.format.read(s).value.seqNo < I64_BOUND {
      RevisionFiles.AcceptedIsNarrow(env.nfc, env.hash, s);
    }
  }

  lemma RealFits(env: Environment, r: Record)
    ensures Fits(Real(env), r) <==> RevisionFiles.Fits(env.nfc, env.hash, r)
  {
  }

  // ----- when `verify` succeeds -----

  /** `verify` accepts a directory of files, however they came about, if and only if
      they decode to an unbroken chain of reproducible revisions, each with its own
      digest, that HEAD names. */
  lemma RealVerifyExact(env: Environment, d: Disk)
    ensures Verify(Real(env), d).Ok? <==> Verified(Real(env), d)
    ensures Verify(Real(env), d).Ok? ==> Verify(Real(env), d).value == |History(Real(env), d)|
  {
    RealIsFaithful(env);
    VerifyExact(Real(env), d);
  }

  /** At every moment of every run with a manifest, `verify` succeeds if and only
      if the printed text of the last committed record has at most 1 MiB and its
      number is an `i64`. */
  lemma RealRunsVerify(env: Environment, listing: Listing, states: seq<Disk>, i: nat)
    requires CollisionFree(Real(env)) && IsRun(Real(env), listing, states) && i < |states| && states[i].manifest
    ensures var d := states[i];
            && d.head.Some? && RecordAt(Real(env), d, d.head.value.seqNo).Some?
            && var r := RecordAt(Real(env), d, d.head.value.seqNo).value;
               Verify(Real(env), d).Ok? <==>
               r.seqNo < I64_BOUND && Utf8Length(RecordText(env.nfc, env.hash, r)) <= MAX_KB_JSON_BYTES
  {
    RealIsSane(env);
    RunsVerify(Real(env), listing, states, i);
    RealFits(env, RecordAt(Real(env), states[i], states[i].head.value.seqNo).value);
  }

  /** The number of unset inputs from which on their diagnostics alone exceed the
      bound: 34 bytes each. */
  const TOO_MANY_INPUTS: nat := MAX_KB_JSON_BYTES / 34 + 1

  lemma {:induction false} AllMissing(declared: declarations)
    ensures MissingNames(declared, map[]) == declared
  {
    if declared != [] {
      AllMissing(declared[1..]);
      assert [declared[0]] + declared[1..] == declared;
    }
  }

  /** A program that declares too many inputs, and no values for them: `init`
      commits a first revision, and `verify` then refuses the knowledge base. */
  lemma UnsetInputsOversize(env: Environment, listing: Listing, source: Source, plan: Plan)
    requires CollisionFree(Real(env)) && env.load(source) == Some(plan) && env.validates(plan, map[]) && env.readable(map[])
    requires |env.inputsOf(plan)| >= TOO_MANY_INPUTS
    ensures var sys := Real(env);
            var e := Run(FRESH, ScriptOf(sys, listing, FRESH, InitOp(source, map[])).0);
            && ScriptOf(sys, listing, FRESH, InitOp(source, map[])).1.Ok?
            && IsRun(sys, listing, [FRESH, e]) && e.manifest && Verify(sys, e).Err?
  {
    var sys := Real(env);
    AllMissing(env.inputsOf(plan));
    assert ReplayOf(env, plan, map[]).Some? && ReplayOf(env, plan, map[]).value.diagnostics == Lines(env.inputsOf(plan));
    var r := InitBody(sys, source, map[]).1.value;
    TooManyDoNotFit(env, env.inputsOf(plan), r);
    RealIsSane(env);
    InitVerifies(sys, listing, source, map[]);
  }

  lemma TooManyDoNotFit(env: Environment, missing: declarations, r: Record)
    requires |missing| >= TOO_MANY_INPUTS && r.result.diagnostics == Lines(missing)
    ensures !Fits(Real(env), r)
  {
    LinesAreLong(missing);
    RevisionFiles.DiagnosticsTakeSpace(env.nfc, env.hash, r, 25);
    RealFits(env, r);
  }

  lemma LinesAreLong(missing: declarations)
    ensures forall i :: 0 <= i < |missing| ==> |Lines(missing)[i]| >= 25
  {
    forall i | 0 <= i < |missing| ensures |Lines(missing)[i]| >= 25 {
      LineLength(missing[i]);
    }
  }

  // ----- what HEAD pins -----

  /** Two knowledge bases that both verify and have the same HEAD digest hold the
      same revisions, up to the folding of names, if the hash does not collide on
      their preimages; with names already folded they are equal. */
  lemma RealHeadPinsHistory(env: Environment, d: Disk, e: Disk)
    requires Verify(Real(env), d).Ok? && Verify(Real(env), e).Ok? && ReadHead(d).value.id == ReadHead(e).value.id
    requires NoHashCollision(env.nfc, env.hash, History(Real(env), d), History(Real(env), e))
    ensures SameFolded(env.nfc, History(Real(env), d), History(Real(env), e))
    ensures AllFolded(env.nfc, History(Real(env), d)) && AllFolded(env.nfc, History(Real(env), e)) ==>
              History(Real(env), d) == History(Real(env), e)
  {
    var sys := Real(env);
    RealIsFaithful(env);
    VerifiedIsNumbered(sys, d);
    VerifiedIsNumbered(sys, e);
    DigestsTellApart(env, History(sys, d), History(sys, e));
    HeadDigestPinsFolded(sys, env.nfc, d, e);
    FoldedAreSame(env.nfc, History(sys, d), History(sys, e));
  }

  lemma FoldedAreSame(nfc: text -> text, g: seq<Record>, h: seq<Record>)
    requires SameFolded(nfc, g, h)
    ensures AllFolded(nfc, g) && AllFolded(nfc, h) ==> g == h
  {
  }

  lemma DigestsTellApart(env: Environment, g: seq<Record>, h: seq<Record>)
    requires var id := Real(env).format.id; Chained(id, g) && Chained(id, h) && NoHashCollision(env.nfc, env.hash, g, h)
    requires |g| < I64_BOUND && |h| < I64_BOUND
    ensures DigestsTell(env.nfc, Real(env).format.id, g, h)
  {
    var id := Real(env).format.id;
    forall i, j | 0 <= i < |g| && 0 <= j < |h| && id(g[i]) == id(h[j]) ensures Folded(env.nfc, g[i]) == Folded(env.nfc, h[j]) {
      assert Link(id, g, i) && Link(id, h, j) && ToldApart(env.nfc, env.hash, g[i], h[j]);
      SameDigestSameFolded(env.nfc, env.hash, g[i], h[j]);
    }
  }

  predicate AllFolded(nfc: text -> text, h: seq<Record>) {
    forall i :: 0 <= i < |h| ==> Folded(nfc, h[i]) == h[i]
  }
}
