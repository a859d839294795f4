/** Object terms, propositions and proof terms of the proof kernel, with the
    de Bruijn substitution that instantiates a binder. */
module KernelTerms {
  import opened Options

  /** Content digests are abstract: only their equality is used. */
  type Digest(==, !new)

  datatype ObjectTerm =
    | Const(id: Digest)
    | BoundVar(index: nat)
    | Compose(outer: ObjectTerm, inner: ObjectTerm)
    | Tensor(left: ObjectTerm, right: ObjectTerm)

  datatype Prop =
    | Atom(id: Digest)
    | Impl(premise: Prop, conclusion: Prop)
    | Prod(first: Prop, second: Prop)
    | Sum(leftCase: Prop, rightCase: Prop)
    | Eq(lhs: ObjectTerm, rhs: ObjectTerm)
    | Exists(pred: Prop)
    | Applied(symbol: Digest, args: seq<ObjectTerm>)
    | Realizes(wit: ObjectTerm, src: ObjectTerm, dst: ObjectTerm)
    | Preserves(wit: ObjectTerm, motive: Prop)

  datatype Var = Index(index: nat) | Named(name: string)

  datatype TermKind =
    | Hyp(hyp: Var)
    | Lam(varName: Option<string>, body: TermKind)
    | App(function_: TermKind, argument: TermKind)
    | Pair(fst: TermKind, snd: TermKind)
    | Proj1(inner: TermKind)
    | Proj2(inner: TermKind)
    | Inl(inner: TermKind)
    | Inr(inner: TermKind)
    | Case(discriminant: TermKind,
           leftVar: Option<string>, leftBody: TermKind,
           rightVar: Option<string>, rightBody: TermKind)
    | Unsupported(message: string)
    | Refl(term: ObjectTerm)
    | Subst(eq: TermKind, motive: Prop, sub: TermKind)
    | Pack(wit: ObjectTerm, bodyProof: TermKind)
    | Unpack(scrutinee: TermKind, objVar: Option<string>, proofVar: Option<string>, body: TermKind)
    | Pres(realizes: TermKind, preserves: TermKind, motive: Prop, sub: TermKind)
    | RealizesComp(left: TermKind, right: TermKind)
    | RealizesTensor(left: TermKind, right: TermKind)
    | PrimRealizes(relation: Digest, src: ObjectTerm, dst: ObjectTerm)

  datatype ExplicitTerm = ExplicitTerm(context: Digest, kind: TermKind)

  /** The hypothesis stack; the innermost binder is last. */
  type Gamma = seq<(Option<string>, Prop)>

  datatype JudgmentKind = Typing | Evaluation

  /** A compiled-in primitive relation: its generator and its frozen rows. */
  datatype Relation = Relation(generator: Digest, judgmentKind: JudgmentKind, rows: set<(Digest, Digest)>)

  predicate Admits(r: Relation, src: Digest, dst: Digest) {
    (src, dst) in r.rows
  }

  /** The parts of the kernel that are digests or compiled-in tables. Every
      theorem below holds for every choice of them. */
  datatype Kernel = Kernel(
    compose: (Digest, Digest) -> Digest,
    tensor: (Digest, Digest) -> Digest,
    boundVarWitness: Digest,
    eigenvar: (string, nat) -> Digest,
    resolve: Digest -> Option<Relation>,
    certificateId: (Digest, Prop, ExplicitTerm) -> Digest)

  /** The witness identity of an object term. */
  function WitnessDigest(k: Kernel, t: ObjectTerm): Digest {
    match t
    case Const(id) => id
    case BoundVar(_) => k.boundVarWitness
    case Compose(outer, inner) => k.compose(WitnessDigest(k, outer), WitnessDigest(k, inner))
    case Tensor(left, right) => k.tensor(WitnessDigest(k, left), WitnessDigest(k, right))
  }

  function Shift(t: ObjectTerm, amount: nat): ObjectTerm {
    match t
    case Const(_) => t
    case BoundVar(i) => BoundVar(i + amount)
    case Compose(outer, inner) => Compose(Shift(outer, amount), Shift(inner, amount))
    case Tensor(left, right) => Tensor(Shift(left, amount), Shift(right, amount))
  }

  function SubstObject(t: ObjectTerm, replacement: ObjectTerm, depth: nat): ObjectTerm {
    match t
    case Const(_) => t
    case BoundVar(i) =>
      if i == depth then Shift(replacement, depth) else if i > depth then BoundVar(i - 1) else t
    case Compose(outer, inner) =>
      Compose(SubstObject(outer, replacement, depth), SubstObject(inner, replacement, depth))
    case Tensor(left, right) =>
      Tensor(SubstObject(left, replacement, depth), SubstObject(right, replacement, depth))
  }

  /** Note that the motive of `Preserves` is not treated as a binder: the depth
      does not grow there, as in the source. */
  function SubstProp(p: Prop, replacement: ObjectTerm, depth: nat): Prop {
    match p
    case Atom(_) => p
    case Impl(a, b) => Impl(SubstProp(a, replacement, depth), SubstProp(b, replacement, depth))
    case Prod(a, b) => Prod(SubstProp(a, replacement, depth), SubstProp(b, replacement, depth))
    case Sum(a, b) => Sum(SubstProp(a, replacement, depth), SubstProp(b, replacement, depth))
    case Eq(a, b) => Eq(SubstObject(a, replacement, depth), SubstObject(b, replacement, depth))
    case Exists(body) => Exists(SubstProp(body, replacement, depth + 1))
    case Applied(f, args) =>
      Applied(f, seq(|args|, i requires 0 <= i < |args| => SubstObject(args[i], replacement, depth)))
    case Realizes(w, x, y) =>
      Realizes(SubstObject(w, replacement, depth), SubstObject(x, replacement, depth),
               SubstObject(y, replacement, depth))
    case Preserves(w, motive) =>
      Preserves(SubstObject(w, replacement, depth), SubstProp(motive, replacement, depth))
  }

  function Instantiate(pred: Prop, replacement: ObjectTerm): Prop {
    SubstProp(pred, replacement, 0)
  }

  predicate ObjectContains(t: ObjectTerm, target: ObjectTerm) {
    t == target ||
    match t
    case Compose(a, b) => ObjectContains(a, target) || ObjectContains(b, target)
    case Tensor(a, b) => ObjectContains(a, target) || ObjectContains(b, target)
    case _ => false
  }

  predicate PropContains(p: Prop, target: ObjectTerm) {
    match p
    case Atom(_) => false
    case Impl(a, b) => PropContains(a, target) || PropContains(b, target)
    case Prod(a, b) => PropContains(a, target) || PropContains(b, target)
    case Sum(a, b) => PropContains(a, target) || PropContains(b, target)
    case Eq(a, b) => ObjectContains(a, target) || ObjectContains(b, target)
    case Exists(body) => PropContains(body, target)
    case Applied(_, args) => exists i :: 0 <= i < |args| && ObjectContains(args[i], target)
    case Realizes(w, x, y) => ObjectContains(w, target) || ObjectContains(x, target) || ObjectContains(y, target)
    case Preserves(w, motive) => ObjectContains(w, target) || PropContains(motive, target)
  }
}
