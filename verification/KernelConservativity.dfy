/** What soundness says about the registry: a carefully accepted realization is
    built from registry rows by composition and tensor, and no bare atom is
    accepted. */
module KernelConservativity {
  import opened Options
  import opened KernelTerms
  import opened KernelRules
  import opened KernelModels
  import opened KernelSoundness

  /** A realization assembled from registry rows. */
  datatype Realization =
    | Row(relation: Digest, src: Digest, dst: Digest)
    | Then(first: Realization, second: Realization)
    | Beside(left: Realization, right: Realization)

  function Source(r: Realization): ObjectTerm {
    match r
    case Row(_, src, _) => Const(src)
    case Then(a, _) => Source(a)
    case Beside(a, b) => Tensor(Source(a), Source(b))
  }

  function Target(r: Realization): ObjectTerm {
    match r
    case Row(_, _, dst) => Const(dst)
    case Then(_, b) => Target(b)
    case Beside(a, b) => Tensor(Target(a), Target(b))
  }

  predicate Valid(k: Kernel, r: Realization) {
    match r
    case Row(rel, src, dst) => k.resolve(rel).Some? && Admits(k.resolve(rel).value, src, dst)
    case Then(a, b) => Valid(k, a) && Valid(k, b) && Target(a) == Source(b)
    case Beside(a, b) => Valid(k, a) && Valid(k, b)
  }

  function Identity(k: Kernel, r: Realization): Digest
    requires Valid(k, r)
  {
    match r
    case Row(rel, _, _) => k.resolve(rel).value.generator
    case Then(a, b) => k.compose(Identity(k, b), Identity(k, a))
    case Beside(a, b) => k.tensor(Identity(k, a), Identity(k, b))
  }

  ghost predicate DerivedBy(k: Kernel, r: Realization, w: ObjectTerm, x: ObjectTerm, y: ObjectTerm) {
    Valid(k, r) && Identity(k, r) == WitnessDigest(k, w) && Source(r) == x && Target(r) == y
  }

  ghost predicate Derived(k: Kernel, w: ObjectTerm, x: ObjectTerm, y: ObjectTerm) {
    exists r :: DerivedBy(k, r, w, x, y)
  }

  /** The model whose objects are object terms, each free index itself, and whose
      realizations are exactly those assembled from registry rows; no atom or
      predicate holds in it. */
  ghost function TermModel(k: Kernel): Model<ObjectTerm> {
    Model(id => Const(id),
          (a, b) => Compose(a, b),
          (a, b) => Tensor(a, b),
          i => BoundVar(i),
          id => false,
          (f, args) => false,
          (w, x, y) => Derived(k, w, x, y))
  }

  lemma {:induction false} EvalInTermModel(k: Kernel, t: ObjectTerm)
    ensures Eval(TermModel(k), [], t) == t
  {
    match t
    case Const(_) =>
    case BoundVar(_) =>
    case Compose(a, b) => EvalInTermModel(k, a); EvalInTermModel(k, b);
    case Tensor(a, b) => EvalInTermModel(k, a); EvalInTermModel(k, b);
  }

  lemma TermModelAdmissible(k: Kernel)
    ensures Admissible(k, TermModel(k))
  {
    var m := TermModel(k);
    forall v, w, x, y | Plain(NoneReserved, v) && Plain(NoneReserved, w) && WitnessDigest(k, v) == WitnessDigest(k, w)
                        && m.realizes(Eval(m, [], v), x, y)
      ensures m.realizes(Eval(m, [], w), x, y)
    {
      EvalInTermModel(k, v);
      EvalInTermModel(k, w);
      var r :| DerivedBy(k, r, v, x, y);
      assert DerivedBy(k, r, w, x, y);
    }
    forall g1, g2, x, y, z | m.realizes(g1, x, y) && m.realizes(g2, y, z)
      ensures m.realizes(m.compose(g2, g1), x, z)
    {
      var a :| DerivedBy(k, a, g1, x, y);
      var b :| DerivedBy(k, b, g2, y, z);
      assert DerivedBy(k, Then(a, b), Compose(g2, g1), x, z);
    }
    forall w1, x1, y1, w2, x2, y2 | m.realizes(w1, x1, y1) && m.realizes(w2, x2, y2)
      ensures m.realizes(m.tensor(w1, w2), m.tensor(x1, x2), m.tensor(y1, y2))
    {
      var a :| DerivedBy(k, a, w1, x1, y1);
      var b :| DerivedBy(k, b, w2, x2, y2);
      assert DerivedBy(k, Beside(a, b), Tensor(w1, w2), Tensor(x1, x2), Tensor(y1, y2));
    }
    forall r, x, y | k.resolve(r).Some? && Admits(k.resolve(r).value, x, y)
      ensures m.realizes(m.constant(k.resolve(r).value.generator), m.constant(x), m.constant(y))
    {
      assert DerivedBy(k, Row(r, x, y), Const(k.resolve(r).value.generator), Const(x), Const(y));
    }
  }

  /** Whatever term proves it, a carefully accepted realization is one the
      registry already yields: same endpoints, same witness identity. */
  lemma AcceptedRealizationIsDerived(reserved: Digest -> bool, k: Kernel, context: Digest, w: ObjectTerm, x: ObjectTerm, y: ObjectTerm,
                                     term: ExplicitTerm, b: Budget)
    requires Acceptance(Unrolled, k, context, Realizes(w, x, y), term, b).Accepted?
    requires AcceptanceCareful(reserved, k, Realizes(w, x, y), term, b)
    ensures Derived(k, w, x, y)
  {
    TermModelAdmissible(k);
    AcceptanceSound(reserved, k, TermModel(k), context, Realizes(w, x, y), term, b);
    EvalInTermModel(k, w);
    EvalInTermModel(k, x);
    EvalInTermModel(k, y);
  }

  /** Consistency: distinct objects are never carefully proved equal, and no
      atomic proposition is proved outright. */
  lemma AcceptanceConsistent(reserved: Digest -> bool, k: Kernel, context: Digest, p: Prop, term: ExplicitTerm, b: Budget)
    requires Acceptance(Unrolled, k, context, p, term, b).Accepted? && AcceptanceCareful(reserved, k, p, term, b)
    ensures !p.Atom? && !p.Applied?
    ensures p.Eq? ==> p.lhs == p.rhs
  {
    TermModelAdmissible(k);
    AcceptanceSound(reserved, k, TermModel(k), context, p, term, b);
    if p.Eq? {
      EvalInTermModel(k, p.lhs);
      EvalInTermModel(k, p.rhs);
    }
  }
}
