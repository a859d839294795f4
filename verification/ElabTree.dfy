/** Realization trees and the proof the elaborator builds for one: which leaves
    are closed by a primitive relation, the implication over the rest, and the
    de Bruijn term. Also the independent reading of an untrusted term. */
module ElabTree {
  import opened Options
  import opened KernelTerms
  import opened KernelRules

  datatype TreeObj = Atomic(config: Digest) | Product(left: TreeObj, right: TreeObj)

  datatype LeafStep = LeafStep(generator: Digest, src: TreeObj, dst: TreeObj)

  datatype RealizesTree =
    | Leaf(step: LeafStep)
    | Seq(first: RealizesTree, second: RealizesTree)
    | Par(left: RealizesTree, right: RealizesTree)

  function Src(t: RealizesTree): TreeObj {
    match t
    case Leaf(s) => s.src
    case Seq(a, _) => Src(a)
    case Par(a, b) => Product(Src(a), Src(b))
  }

  function Dst(t: RealizesTree): TreeObj {
    match t
    case Leaf(s) => s.dst
    case Seq(_, b) => Dst(b)
    case Par(a, b) => Product(Dst(a), Dst(b))
  }

  function LeafCount(t: RealizesTree): (n: nat)
    ensures n >= 1
  {
    match t
    case Leaf(_) => 1
    case Seq(a, b) => LeafCount(a) + LeafCount(b)
    case Par(a, b) => LeafCount(a) + LeafCount(b)
  }

  /** The leaves in left-to-right depth-first order. */
  function Leaves(t: RealizesTree): (r: seq<LeafStep>)
    ensures |r| == LeafCount(t)
  {
    match t
    case Leaf(s) => [s]
    case Seq(a, b) => Leaves(a) + Leaves(b)
    case Par(a, b) => Leaves(a) + Leaves(b)
  }

  predicate WellFormed(t: RealizesTree) {
    match t
    case Leaf(_) => true
    case Seq(a, b) => WellFormed(a) && WellFormed(b) && Dst(a) == Src(b)
    case Par(a, b) => WellFormed(a) && WellFormed(b)
  }

  function WitnessId(k: Kernel, t: RealizesTree): Digest {
    match t
    case Leaf(s) => s.generator
    case Seq(a, b) => k.compose(WitnessId(k, b), WitnessId(k, a))
    case Par(a, b) => k.tensor(WitnessId(k, a), WitnessId(k, b))
  }

  function ToObject(o: TreeObj): ObjectTerm {
    match o
    case Atomic(c) => Const(c)
    case Product(a, b) => Tensor(ToObject(a), ToObject(b))
  }

  function WitnessObject(t: RealizesTree): ObjectTerm {
    match t
    case Leaf(s) => Const(s.generator)
    case Seq(a, b) => Compose(WitnessObject(b), WitnessObject(a))
    case Par(a, b) => Tensor(WitnessObject(a), WitnessObject(b))
  }

  /** Both routes to a tree's witness identity agree. */
  lemma {:induction false} WitnessRoutesAgree(k: Kernel, t: RealizesTree)
    ensures WitnessDigest(k, WitnessObject(t)) == WitnessId(k, t)
  {
    match t
    case Leaf(_) =>
    case Seq(a, b) => WitnessRoutesAgree(k, a); WitnessRoutesAgree(k, b);
    case Par(a, b) => WitnessRoutesAgree(k, a); WitnessRoutesAgree(k, b);
  }

  function StepProp(s: LeafStep): Prop {
    Realizes(Const(s.generator), ToObject(s.src), ToObject(s.dst))
  }

  function Conclusion(t: RealizesTree): Prop {
    Realizes(WitnessObject(t), ToObject(Src(t)), ToObject(Dst(t)))
  }

  /** For each leaf, the primitive relation that closes it, if any. */
  type Closures = seq<Option<Digest>>

  predicate RelationCloses(k: Kernel, relation: Digest, s: LeafStep) {
    var resolved := k.resolve(relation);
    && resolved.Some?
    && resolved.value.judgmentKind.Typing?
    && resolved.value.generator == s.generator
    && s.src.Atomic? && s.dst.Atomic?
    && Admits(resolved.value, s.src.config, s.dst.config)
  }

  predicate Closable(k: Kernel, leaves: seq<LeafStep>, closures: Closures) {
    |closures| == |leaves| &&
    forall i :: 0 <= i < |leaves| && closures[i].Some? ==> RelationCloses(k, closures[i].value, leaves[i])
  }

  /** The first candidate that closes the leaf. */
  function ClassifyLeaf(k: Kernel, candidates: seq<Digest>, s: LeafStep): Option<Digest> {
    if |candidates| == 0 then None
    else if RelationCloses(k, candidates[0], s) then Some(candidates[0])
    else ClassifyLeaf(k, candidates[1..], s)
  }

  function Classify(k: Kernel, candidates: seq<Digest>, leaves: seq<LeafStep>): Closures {
    seq(|leaves|, i requires 0 <= i < |leaves| => ClassifyLeaf(k, candidates, leaves[i]))
  }

  /** How many of the first `i` leaves are left open. */
  function OpenBefore(closures: Closures, i: nat): (n: nat)
    requires i <= |closures|
    ensures n <= i
  {
    if i == 0 then 0 else OpenBefore(closures, i - 1) + (if closures[i - 1].None? then 1 else 0)
  }

  function OpenCount(closures: Closures): nat {
    OpenBefore(closures, |closures|)
  }

  /** Those of the first `i` leaves that are left open, in leaf order. */
  function OpenUpTo(leaves: seq<LeafStep>, closures: Closures, i: nat): (r: seq<LeafStep>)
    requires i <= |leaves| == |closures|
    ensures |r| == OpenBefore(closures, i)
  {
    if i == 0 then []
    else OpenUpTo(leaves, closures, i - 1) + (if closures[i - 1].None? then [leaves[i - 1]] else [])
  }

  function OpenSteps(leaves: seq<LeafStep>, closures: Closures): seq<LeafStep>
    requires |leaves| == |closures|
  {
    OpenUpTo(leaves, closures, |leaves|)
  }

  function StepProps(steps: seq<LeafStep>): (r: seq<Prop>)
    ensures |r| == |steps|
  {
    seq(|steps|, i requires 0 <= i < |steps| => StepProp(steps[i]))
  }

  /** `antecedents[0] → … → conclusion`. */
  function Implication(antecedents: seq<Prop>, conclusion: Prop): Prop {
    if |antecedents| == 0 then conclusion else Impl(antecedents[0], Implication(antecedents[1..], conclusion))
  }

  function Decimal(n: nat): string {
    if n < 10 then [('0' as int + n) as char] else Decimal(n / 10) + [('0' as int + n % 10) as char]
  }

  /** The name of the `i`-th binder, counted from zero and named from one. */
  function BinderName(i: nat): Option<string> {
    Some("h" + Decimal(i + 1))
  }

  /** Binders `from`, …, `count - 1` around `body`, the smallest outermost. */
  function Binders(from: nat, count: nat, body: TermKind): TermKind
    requires from <= count
    decreases count - from
  {
    if from == count then body else Lam(BinderName(from), Binders(from + 1, count, body))
  }

  lemma {:induction false} OpenGrows(closures: Closures, i: nat, j: nat)
    requires i <= j <= |closures|
    ensures OpenBefore(closures, i) <= OpenBefore(closures, j)
    decreases j
  {
    if i < j { OpenGrows(closures, i, j - 1); }
  }

  /** The number of open leaves before an open leaf is its place among them. */
  lemma {:induction false} OpenLeafAt(leaves: seq<LeafStep>, closures: Closures, i: nat, j: nat)
    requires j < i <= |leaves| == |closures| && closures[j].None?
    ensures OpenBefore(closures, j) < OpenBefore(closures, i)
    ensures OpenUpTo(leaves, closures, i)[OpenBefore(closures, j)] == leaves[j]
    decreases i
  {
    if j < i - 1 { OpenLeafAt(leaves, closures, i - 1, j); }
  }

  /** The proof term of a subtree whose first leaf is number `next`. An open leaf
      becomes a de Bruijn index counted from its place among the open leaves; the
      first binder is the outermost. */
  function Emit(t: RealizesTree, closures: Closures, next: nat): TermKind
    requires next + LeafCount(t) <= |closures|
  {
    match t
    case Leaf(s) =>
      if closures[next].Some? then PrimRealizes(closures[next].value, ToObject(s.src), ToObject(s.dst))
      else Hyp(Index(IndexOfOpen(closures, next)))
    case Seq(a, b) => RealizesComp(Emit(a, closures, next), Emit(b, closures, next + LeafCount(a)))
    case Par(a, b) => RealizesTensor(Emit(a, closures, next), Emit(b, closures, next + LeafCount(a)))
  }

  /** binders - 1 - open */
  function IndexOfOpen(closures: Closures, next: nat): (i: nat)
    requires next < |closures| && closures[next].None?
    ensures i == OpenCount(closures) - 1 - OpenBefore(closures, next)
  {
    OpenGrows(closures, next + 1, |closures|);
    OpenCount(closures) - 1 - OpenBefore(closures, next)
  }

  function ProofProp(t: RealizesTree, closures: Closures): Prop
    requires |closures| == |Leaves(t)|
  {
    Implication(StepProps(OpenSteps(Leaves(t), closures)), Conclusion(t))
  }

  function ProofKind(t: RealizesTree, closures: Closures): TermKind
    requires |closures| == |Leaves(t)|
  {
    Binders(0, OpenCount(closures), Emit(t, closures, 0))
  }

  // ----- reading an untrusted term -----

  datatype TreeProofError =
    | DerivationNotVerified
    | ShapeMismatch
    | PrimitiveNotAdmitted(index: nat)
    | NonCanonicalTerm
    | NotAccepted(verdict: Verdict)

  /** The closure pattern a term body exhibits along the tree. */
  function ReadClosures(t: RealizesTree, kind: TermKind): (r: Option<Closures>)
    ensures r.Some? ==> |r.value| == LeafCount(t)
  {
    if t.Leaf? && kind.Hyp? then Some([None])
    else if t.Leaf? && kind.PrimRealizes? then Some([Some(kind.relation)])
    else if t.Seq? && kind.RealizesComp? then
      var l, r := ReadClosures(t.first, kind.left), ReadClosures(t.second, kind.right);
      if l.Some? && r.Some? then Some(l.value + r.value) else None
    else if t.Par? && kind.RealizesTensor? then
      var l, r := ReadClosures(t.left, kind.left), ReadClosures(t.right, kind.right);
      if l.Some? && r.Some? then Some(l.value + r.value) else None
    else None
  }

  function StripBinders(kind: TermKind): TermKind {
    if kind.Lam? then StripBinders(kind.body) else kind
  }

  /** The first leaf whose claimed closure it could not have. */
  function FirstUnadmitted(k: Kernel, leaves: seq<LeafStep>, closures: Closures, from: nat): Option<nat>
    requires |leaves| == |closures| && from <= |leaves|
    decreases |leaves| - from
  {
    if from == |leaves| then None
    else if closures[from].Some? && !RelationCloses(k, closures[from].value, leaves[from]) then Some(from)
    else FirstUnadmitted(k, leaves, closures, from + 1)
  }

  datatype TreeDerivation = TreeDerivation(tree: RealizesTree, structureVerified: bool)

  datatype LeafOccurrence = LeafOccurrence(index: nat, step: LeafStep, closedBy: Option<Digest>)

  datatype AcceptedTreeProof = AcceptedTreeProof(
    context: Digest, proposition: Prop, term: ExplicitTerm, certificateId: Digest,
    derivation: Digest, occurrences: seq<LeafOccurrence>)

  /** What the elaborator is given besides the tree: the kernel, the relations it
      tries for each leaf, and the identity of a derivation. */
  datatype Elaborator = Elaborator(k: Kernel, candidates: seq<Digest>, derivationId: TreeDerivation -> Digest)

  function Occurrences(leaves: seq<LeafStep>, closures: Closures): seq<LeafOccurrence>
    requires |leaves| == |closures|
  {
    seq(|leaves|, i requires 0 <= i < |leaves| => LeafOccurrence(i, leaves[i], closures[i]))
  }

  function Mint(el: Elaborator, d: TreeDerivation, context: Digest, closures: Closures, certificateId: Digest): AcceptedTreeProof
    requires |closures| == |Leaves(d.tree)|
  {
    AcceptedTreeProof(context, ProofProp(d.tree, closures), ExplicitTerm(context, ProofKind(d.tree, closures)),
                      certificateId, el.derivationId(d), Occurrences(Leaves(d.tree), closures))
  }

  datatype Checked = Ok(proof: AcceptedTreeProof) | Err(error: TreeProofError)

  /** Build the proof, run the kernel on it, and mint the account. */
  function Elaborate(el: Elaborator, d: TreeDerivation, context: Digest, b: Budget): Checked {
    if !d.structureVerified || !WellFormed(d.tree) then Err(DerivationNotVerified)
    else
      var closures := Classify(el.k, el.candidates, Leaves(d.tree));
      var v := Acceptance(Unrolled, el.k, context, ProofProp(d.tree, closures),
                          ExplicitTerm(context, ProofKind(d.tree, closures)), b);
      if v.Accepted? then Ok(Mint(el, d, context, closures, v.certificateId)) else Err(NotAccepted(v))
  }

  function VerifyTreeProof(el: Elaborator, d: TreeDerivation, context: Digest, term: ExplicitTerm, b: Budget): Checked {
    if !d.structureVerified || !WellFormed(d.tree) then Err(DerivationNotVerified)
    else
      var read := ReadClosures(d.tree, StripBinders(term.kind));
      if read.None? then Err(ShapeMismatch)
      else
        var bad := FirstUnadmitted(el.k, Leaves(d.tree), read.value, 0);
        if bad.Some? then Err(PrimitiveNotAdmitted(bad.value))
        else if ProofKind(d.tree, read.value) != term.kind then Err(NonCanonicalTerm)
        else
          var v := Acceptance(Unrolled, el.k, context, ProofProp(d.tree, read.value), term, b);
          if v.Accepted? then Ok(Mint(el, d, context, read.value, v.certificateId)) else Err(NotAccepted(v))
  }

  /** Verify again from scratch and require the very same account. */
  function Recheck(el: Elaborator, p: AcceptedTreeProof, d: TreeDerivation, context: Digest, b: Budget): Option<TreeProofError> {
    match VerifyTreeProof(el, d, context, p.term, b)
    case Err(e) => Some(e)
    case Ok(again) => if again == p then None else Some(NonCanonicalTerm)
  }
}
