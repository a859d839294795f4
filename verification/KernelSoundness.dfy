/** Soundness of acceptance: what the checker accepts is true in every model in
    which realizations respect witness identity, are closed under composition
    and tensor, and contain every registry row, provided the run is careful: it
    passes the tests that the checker leaves out. */
module KernelSoundness {
  import opened Options
  import opened KernelTerms
  import opened KernelRules
  import opened KernelRefinement
  import opened KernelModels

  // ----- careful runs -----

  /** Witnesses that denote the same if their identities are the same. */
  predicate Comparable(reserved: Digest -> bool, v: ObjectTerm, w: ObjectTerm) {
    v == w || (Plain(reserved, v) && Plain(reserved, w))
  }

  /** The eigenvariable occurs in nothing that is in force when it is chosen. */
  predicate Unused(reserved: Digest -> bool, g: Gamma, p: Prop, x: ObjectTerm)
    requires x.Const?
  {
    reserved(x.id) && !PropContains(p, x) && forall i :: 0 <= i < |g| ==> !PropContains(g[i].1, x)
  }

  /** Along the run of `Check`, no instantiation captures, identities are compared
      only of comparable witnesses, rows are those of unreserved constants, and
      every eigenvariable is reserved and unused. */
  predicate CheckCareful(reserved: Digest -> bool, k: Kernel, n: nat, d: nat, g: Gamma, t: TermKind, e: Prop)
    decreases t, 4
  {
    n > 0 && d > 0 &&
    if t.Lam? && e.Impl? then
      CheckCareful(reserved, k, n - 1, d - 1, g + [(t.varName, e.premise)], t.body, e.conclusion)
    else RuleCareful(reserved, k, n - 1, d - 1, g, t, e)
  }

  predicate RuleCareful(reserved: Digest -> bool, k: Kernel, n: nat, d: nat, g: Gamma, t: TermKind, e: Prop)
    decreases t, 3
  {
    if t.Refl? && e.Eq? then true
    else if t.Pack? && e.Exists? then
      CaptureFree(e.pred, t.wit) && CheckCareful(reserved, k, n, d, g, t.bodyProof, Instantiate(e.pred, t.wit))
    else if t.Unpack? then UnpackCareful(reserved, k, n, d, g, t, Some(e))
    else if t.Pair? && e.Prod? then
      && CheckCareful(reserved, k, n, d, g, t.fst, e.first)
      && CheckCareful(reserved, k, Check(Recursive, k, n, d, g, t.fst, e.first).left, d, g, t.snd, e.second)
    else if t.Inl? && e.Sum? then CheckCareful(reserved, k, n, d, g, t.inner, e.leftCase)
    else if t.Inr? && e.Sum? then CheckCareful(reserved, k, n, d, g, t.inner, e.rightCase)
    else if t.Case? then CaseCareful(reserved, k, n, d, g, t, e)
    else if (t.RealizesComp? || t.RealizesTensor?) && e.Realizes? then
      JoinCareful(reserved, k, n, d, g, t, Some(e.wit))
    else InferCareful(reserved, k, n, d, g, t)
  }

  predicate CaseCareful(reserved: Digest -> bool, k: Kernel, n: nat, d: nat, g: Gamma, t: TermKind, e: Prop)
    requires t.Case?
    decreases t, 0
  {
    var o := Infer(Recursive, k, n, d, g, t.discriminant);
    && InferCareful(reserved, k, n, d, g, t.discriminant)
    && o.Done? && o.value.Sum?
    && CheckCareful(reserved, k, o.left, d, g + [(t.leftVar, o.value.leftCase)], t.leftBody, e)
    && var o2 := Check(Recursive, k, o.left, d, g + [(t.leftVar, o.value.leftCase)], t.leftBody, e);
       CheckCareful(reserved, k, o2.left, d, g + [(t.rightVar, o.value.rightCase)], t.rightBody, e)
  }

  /** `Unpack` against a goal, or in synthesis. */
  predicate UnpackCareful(reserved: Digest -> bool, k: Kernel, n: nat, d: nat, g: Gamma, t: TermKind, goal: Option<Prop>)
    requires t.Unpack?
    decreases t, 0
  {
    var o := Infer(Recursive, k, n, d, g, t.scrutinee);
    && InferCareful(reserved, k, n, d, g, t.scrutinee)
    && o.Done? && o.value.Exists?
    && var x := Eigenvariable(k, t.objVar, o.left);
       var g' := g + [(t.proofVar, Instantiate(o.value.pred, x))];
       && Unused(reserved, g, o.value, x)
       && match goal
          case Some(e) => CheckCareful(reserved, k, o.left, d, g', t.body, e)
          case None => InferCareful(reserved, k, o.left, d, g', t.body)
  }

  /** Composition or tensor, whose witness is compared with `goal` if there is one. */
  predicate JoinCareful(reserved: Digest -> bool, k: Kernel, n: nat, d: nat, g: Gamma, t: TermKind, goal: Option<ObjectTerm>)
    requires t.RealizesComp? || t.RealizesTensor?
    decreases t, 0
  {
    var p := Infer(Recursive, k, n, d, g, t.left);
    var q := Infer(Recursive, k, p.left, d, g, t.right);
    && InferCareful(reserved, k, n, d, g, t.left)
    && InferCareful(reserved, k, p.left, d, g, t.right)
    && (goal.Some? ==>
          && p.Done? && p.value.Realizes? && q.Done? && q.value.Realizes?
          && Comparable(reserved, Joined(t.RealizesComp?, p.value.wit, q.value.wit), goal.value))
  }

  /** The witness that the composition or tensor rule builds. */
  function Joined(comp: bool, first: ObjectTerm, second: ObjectTerm): ObjectTerm {
    if comp then Compose(second, first) else Tensor(first, second)
  }

  predicate InferCareful(reserved: Digest -> bool, k: Kernel, n: nat, d: nat, g: Gamma, t: TermKind)
    decreases t, 2
  {
    n > 0 && d > 0 && InferRuleCareful(reserved, k, n - 1, d - 1, g, t)
  }

  predicate InferRuleCareful(reserved: Digest -> bool, k: Kernel, n: nat, d: nat, g: Gamma, t: TermKind)
    decreases t, 1
  {
    match t
    case Subst(_, _, _) => SubstCareful(reserved, k, n, d, g, t)
    case Unpack(_, _, _, _) => UnpackCareful(reserved, k, n, d, g, t, None)
    case Pres(_, _, _, _) => PresCareful(reserved, k, n, d, g, t)
    case App(f, a) =>
      var o := Infer(Recursive, k, n, d, g, f);
      InferCareful(reserved, k, n, d, g, f) && o.Done? && o.value.Impl?
      && CheckCareful(reserved, k, o.left, d, g, a, o.value.premise)
    case Proj1(inner) => InferCareful(reserved, k, n, d, g, inner)
    case Proj2(inner) => InferCareful(reserved, k, n, d, g, inner)
    case Pair(a, b) =>
      InferCareful(reserved, k, n, d, g, a)
      && InferCareful(reserved, k, Infer(Recursive, k, n, d, g, a).left, d, g, b)
    case RealizesComp(_, _) => JoinCareful(reserved, k, n, d, g, t, None)
    case RealizesTensor(_, _) => JoinCareful(reserved, k, n, d, g, t, None)
    case PrimRealizes(relation, src, dst) =>
      var r := k.resolve(relation);
      r.Some? && src.Const? && dst.Const? && PlainRow(reserved, r.value, src.id, dst.id)
    case _ => true
  }

  predicate SubstCareful(reserved: Digest -> bool, k: Kernel, n: nat, d: nat, g: Gamma, t: TermKind)
    requires t.Subst?
    decreases t, 0
  {
    var o := Infer(Recursive, k, n, d, g, t.eq);
    && InferCareful(reserved, k, n, d, g, t.eq)
    && o.Done? && o.value.Eq?
    && CaptureFree(t.motive, o.value.lhs) && CaptureFree(t.motive, o.value.rhs)
    && CheckCareful(reserved, k, o.left, d, g, t.sub, Instantiate(t.motive, o.value.lhs))
  }

  predicate PresCareful(reserved: Digest -> bool, k: Kernel, n: nat, d: nat, g: Gamma, t: TermKind)
    requires t.Pres?
    decreases t, 0
  {
    var o := Infer(Recursive, k, n, d, g, t.realizes);
    && InferCareful(reserved, k, n, d, g, t.realizes)
    && o.Done? && o.value.Realizes?
    && CaptureFree(t.motive, o.value.src) && CaptureFree(t.motive, o.value.dst)
    && CheckCareful(reserved, k, o.left, d, g, t.preserves, Preserves(o.value.wit, t.motive))
    && var o2 := Check(Recursive, k, o.left, d, g, t.preserves, Preserves(o.value.wit, t.motive));
       CheckCareful(reserved, k, o2.left, d, g, t.sub, Instantiate(t.motive, o.value.src))
  }

  predicate AcceptanceCareful(reserved: Digest -> bool, k: Kernel, p: Prop, term: ExplicitTerm, b: Budget) {
    CheckCareful(reserved, k, b.maxSteps, b.maxDepth, [], term.kind, p)
  }

  // ----- the rules -----

  ghost predicate GammaHolds<D(!new)>(m: Model<D>, g: Gamma) {
    forall i :: 0 <= i < |g| ==> Holds(m, [], g[i].1)
  }

  lemma {:induction false} CheckSound<D(!new)>(reserved: Digest -> bool, k: Kernel, m: Model<D>, n: nat, d: nat, g: Gamma, t: TermKind, e: Prop)
    requires AdmissibleUpTo(reserved, k, m) && GammaHolds(m, g) && CheckCareful(reserved, k, n, d, g, t, e)
    requires Check(Recursive, k, n, d, g, t, e).Done?
    ensures Holds(m, [], e)
    decreases t, 4
  {
    if t.Lam? && e.Impl? {
      if Holds(m, [], e.premise) {
        CheckSound(reserved, k, m, n - 1, d - 1, g + [(t.varName, e.premise)], t.body, e.conclusion);
      }
    } else {
      CheckRuleSound(reserved, k, m, n - 1, d - 1, g, t, e);
    }
  }

  lemma {:induction false} CheckRuleSound<D(!new)>(reserved: Digest -> bool, k: Kernel, m: Model<D>, n: nat, d: nat, g: Gamma, t: TermKind, e: Prop)
    requires AdmissibleUpTo(reserved, k, m) && GammaHolds(m, g) && RuleCareful(reserved, k, n, d, g, t, e)
    requires CheckRule(Recursive, k, n, d, g, t, e).Done?
    ensures Holds(m, [], e)
    decreases t, 3
  {
    if t.Refl? && e.Eq? {
    } else if t.Pack? && e.Exists? {
      PackSound(reserved, k, m, n, d, g, t, e);
    } else if t.Unpack? {
      UnpackSound(reserved, k, m, n, d, g, t, e);
    } else if t.Pair? && e.Prod? {
      CheckPairSound(reserved, k, m, n, d, g, t, e);
    } else if t.Inl? && e.Sum? {
      CheckSound(reserved, k, m, n, d, g, t.inner, e.leftCase);
    } else if t.Inr? && e.Sum? {
      CheckSound(reserved, k, m, n, d, g, t.inner, e.rightCase);
    } else if t.Case? {
      CaseSound(reserved, k, m, n, d, g, t, e);
    } else if t.RealizesComp? && e.Realizes? {
      CheckCompSound(reserved, k, m, n, d, g, t, e);
    } else if t.RealizesTensor? && e.Realizes? {
      CheckTensorSound(reserved, k, m, n, d, g, t, e);
    } else if !t.Unsupported? {
      var o := Infer(Recursive, k, n, d, g, t);
      assert CheckRule(Recursive, k, n, d, g, t, e) == Compare(o, e);
      InferSound(reserved, k, m, n, d, g, t);
    }
  }

  lemma {:induction false} PackSound<D(!new)>(reserved: Digest -> bool, k: Kernel, m: Model<D>, n: nat, d: nat, g: Gamma, t: TermKind, e: Prop)
    requires AdmissibleUpTo(reserved, k, m) && GammaHolds(m, g) && t.Pack? && e.Exists? && CaptureFree(e.pred, t.wit)
    requires CheckCareful(reserved, k, n, d, g, t.bodyProof, Instantiate(e.pred, t.wit))
    requires Check(Recursive, k, n, d, g, t.bodyProof, Instantiate(e.pred, t.wit)).Done?
    ensures Holds(m, [], e)
    decreases t, 0
  {
    CheckSound(reserved, k, m, n, d, g, t.bodyProof, Instantiate(e.pred, t.wit));
    InstantiateHolds(m, e.pred, t.wit);
    assert [Eval(m, [], t.wit)] + [] == [Eval(m, [], t.wit)];
  }

  /** Opening an existential: the eigenvariable is unused, so it may be given the
      value that exists, and the goal, which lacks it, does not notice. */
  lemma Opened<D(!new)>(reserved: Digest -> bool, k: Kernel, m: Model<D>, g: Gamma, name: Option<string>, p: Prop, x: ObjectTerm) returns (v: D)
    requires AdmissibleUpTo(reserved, k, m) && GammaHolds(m, g) && p.Exists? && Holds(m, [], p)
    requires x.Const? && Unused(reserved, g, p, x)
    ensures AdmissibleUpTo(reserved, k, Reinterpret(m, x.id, v))
    ensures GammaHolds(Reinterpret(m, x.id, v), g + [(name, Instantiate(p.pred, x))])
  {
    v :| Holds(m, [v] + [], p.pred);
    var m' := Reinterpret(m, x.id, v);
    ReinterpretAdmissible(reserved, k, m, x.id, v);
    HoldsIgnores(m, x.id, v, [v], p.pred);
    InstantiateHolds(m', p.pred, x);
    assert [v] + [] == [v] && Eval(m', [], x) == v;
    forall i | 0 <= i < |g| ensures Holds(m', [], g[i].1) {
      HoldsIgnores(m, x.id, v, [], g[i].1);
    }
  }

  lemma {:induction false} UnpackSound<D(!new)>(reserved: Digest -> bool, k: Kernel, m: Model<D>, n: nat, d: nat, g: Gamma, t: TermKind, e: Prop)
    requires AdmissibleUpTo(reserved, k, m) && GammaHolds(m, g) && t.Unpack? && UnpackCareful(reserved, k, n, d, g, t, Some(e))
    requires CheckUnpack(Recursive, k, n, d, g, t, e).Done?
    ensures Holds(m, [], e)
    decreases t, 0
  {
    InferSound(reserved, k, m, n, d, g, t.scrutinee);
    var o := Infer(Recursive, k, n, d, g, t.scrutinee);
    var x := Eigenvariable(k, t.objVar, o.left);
    var v := Opened(reserved, k, m, g, t.proofVar, o.value, x);
    CheckSound(reserved, k, Reinterpret(m, x.id, v), o.left, d, g + [(t.proofVar, Instantiate(o.value.pred, x))], t.body, e);
    HoldsIgnores(m, x.id, v, [], e);
  }

  lemma {:induction false} InferUnpackSound<D(!new)>(reserved: Digest -> bool, k: Kernel, m: Model<D>, n: nat, d: nat, g: Gamma, t: TermKind)
    requires AdmissibleUpTo(reserved, k, m) && GammaHolds(m, g) && t.Unpack? && UnpackCareful(reserved, k, n, d, g, t, None)
    requires InferUnpack(Recursive, k, n, d, g, t).Done?
    ensures Holds(m, [], InferUnpack(Recursive, k, n, d, g, t).value)
    decreases t, 0
  {
    InferSound(reserved, k, m, n, d, g, t.scrutinee);
    var o := Infer(Recursive, k, n, d, g, t.scrutinee);
    var x := Eigenvariable(k, t.objVar, o.left);
    var v := Opened(reserved, k, m, g, t.proofVar, o.value, x);
    var g' := g + [(t.proofVar, Instantiate(o.value.pred, x))];
    InferSound(reserved, k, Reinterpret(m, x.id, v), o.left, d, g', t.body);
    HoldsIgnores(m, x.id, v, [], Infer(Recursive, k, o.left, d, g', t.body).value);
  }

  lemma {:induction false} CheckPairSound<D(!new)>(reserved: Digest -> bool, k: Kernel, m: Model<D>, n: nat, d: nat, g: Gamma, t: TermKind, e: Prop)
    requires AdmissibleUpTo(reserved, k, m) && GammaHolds(m, g) && RuleCareful(reserved, k, n, d, g, t, e)
    requires t.Pair? && e.Prod? && CheckPair(Recursive, k, n, d, g, t, e).Done?
    ensures Holds(m, [], e)
    decreases t, 0
  {
    CheckSound(reserved, k, m, n, d, g, t.fst, e.first);
    CheckSound(reserved, k, m, Check(Recursive, k, n, d, g, t.fst, e.first).left, d, g, t.snd, e.second);
  }

  lemma {:induction false} CaseSound<D(!new)>(reserved: Digest -> bool, k: Kernel, m: Model<D>, n: nat, d: nat, g: Gamma, t: TermKind, e: Prop)
    requires AdmissibleUpTo(reserved, k, m) && GammaHolds(m, g) && t.Case? && CaseCareful(reserved, k, n, d, g, t, e)
    requires CheckCase(Recursive, k, n, d, g, t, e).Done?
    ensures Holds(m, [], e)
    decreases t, 0
  {
    InferSound(reserved, k, m, n, d, g, t.discriminant);
    var o := Infer(Recursive, k, n, d, g, t.discriminant);
    var gl := g + [(t.leftVar, o.value.leftCase)];
    if Holds(m, [], o.value.leftCase) {
      CheckSound(reserved, k, m, o.left, d, gl, t.leftBody, e);
    } else {
      var o2 := Check(Recursive, k, o.left, d, gl, t.leftBody, e);
      CheckSound(reserved, k, m, o2.left, d, g + [(t.rightVar, o.value.rightCase)], t.rightBody, e);
    }
  }

  lemma {:induction false} CheckCompSound<D(!new)>(reserved: Digest -> bool, k: Kernel, m: Model<D>, n: nat, d: nat, g: Gamma, t: TermKind, e: Prop)
    requires AdmissibleUpTo(reserved, k, m) && GammaHolds(m, g) && t.RealizesComp? && e.Realizes?
    requires JoinCareful(reserved, k, n, d, g, t, Some(e.wit)) && CheckComp(Recursive, k, n, d, g, t, e).Done?
    ensures Holds(m, [], e)
    decreases t, 0
  {
    InferSound(reserved, k, m, n, d, g, t.left);
    var o := Infer(Recursive, k, n, d, g, t.left);
    InferSound(reserved, k, m, o.left, d, g, t.right);
    var p, q := o.value, Infer(Recursive, k, o.left, d, g, t.right).value;
    assert WitnessDigest(k, Compose(q.wit, p.wit)) == WitnessDigest(k, e.wit);
    assert Holds(m, [], Realizes(Compose(q.wit, p.wit), e.src, e.dst));
  }

  lemma {:induction false} CheckTensorSound<D(!new)>(reserved: Digest -> bool, k: Kernel, m: Model<D>, n: nat, d: nat, g: Gamma, t: TermKind, e: Prop)
    requires AdmissibleUpTo(reserved, k, m) && GammaHolds(m, g) && t.RealizesTensor? && e.Realizes?
    requires JoinCareful(reserved, k, n, d, g, t, Some(e.wit)) && CheckTensor(Recursive, k, n, d, g, t, e).Done?
    ensures Holds(m, [], e)
    decreases t, 0
  {
    InferSound(reserved, k, m, n, d, g, t.left);
    var o := Infer(Recursive, k, n, d, g, t.left);
    InferSound(reserved, k, m, o.left, d, g, t.right);
    var p, q := o.value, Infer(Recursive, k, o.left, d, g, t.right).value;
    assert WitnessDigest(k, Tensor(p.wit, q.wit)) == WitnessDigest(k, e.wit);
    assert Holds(m, [], Realizes(Tensor(p.wit, q.wit), e.src, e.dst));
  }

  lemma {:induction false} InferSound<D(!new)>(reserved: Digest -> bool, k: Kernel, m: Model<D>, n: nat, d: nat, g: Gamma, t: TermKind)
    requires AdmissibleUpTo(reserved, k, m) && GammaHolds(m, g) && InferCareful(reserved, k, n, d, g, t)
    requires Infer(Recursive, k, n, d, g, t).Done?
    ensures Holds(m, [], Infer(Recursive, k, n, d, g, t).value)
    decreases t, 2
  {
    InferRuleSound(reserved, k, m, n - 1, d - 1, g, t);
  }

  lemma {:induction false} InferRuleSound<D(!new)>(reserved: Digest -> bool, k: Kernel, m: Model<D>, n: nat, d: nat, g: Gamma, t: TermKind)
    requires AdmissibleUpTo(reserved, k, m) && GammaHolds(m, g) && InferRuleCareful(reserved, k, n, d, g, t)
    requires InferRule(Recursive, k, n, d, g, t).Done?
    ensures Holds(m, [], InferRule(Recursive, k, n, d, g, t).value)
    decreases t, 1
  {
    match t
    case Hyp(v) => LookupHolds(m, g, v);
    case Subst(_, _, _) => SubstSound(reserved, k, m, n, d, g, t);
    case Unpack(_, _, _, _) => InferUnpackSound(reserved, k, m, n, d, g, t);
    case Pres(_, _, _, _) => PresSound(reserved, k, m, n, d, g, t);
    case App(_, _) => AppSound(reserved, k, m, n, d, g, t);
    case Proj1(inner) => InferSound(reserved, k, m, n, d, g, inner);
    case Proj2(inner) => InferSound(reserved, k, m, n, d, g, inner);
    case Pair(_, _) => PairSound(reserved, k, m, n, d, g, t);
    case RealizesComp(_, _) => InferRealizesSound(reserved, k, m, n, d, g, t);
    case RealizesTensor(_, _) => InferRealizesSound(reserved, k, m, n, d, g, t);
    case _ =>
  }

  lemma {:induction false} SubstSound<D(!new)>(reserved: Digest -> bool, k: Kernel, m: Model<D>, n: nat, d: nat, g: Gamma, t: TermKind)
    requires AdmissibleUpTo(reserved, k, m) && GammaHolds(m, g) && t.Subst? && SubstCareful(reserved, k, n, d, g, t)
    requires InferSubst(Recursive, k, n, d, g, t).Done?
    ensures Holds(m, [], InferSubst(Recursive, k, n, d, g, t).value)
    decreases t, 0
  {
    InferSound(reserved, k, m, n, d, g, t.eq);
    var o := Infer(Recursive, k, n, d, g, t.eq);
    CheckSound(reserved, k, m, o.left, d, g, t.sub, Instantiate(t.motive, o.value.lhs));
    InstantiateHolds(m, t.motive, o.value.lhs);
    InstantiateHolds(m, t.motive, o.value.rhs);
  }

  lemma {:induction false} AppSound<D(!new)>(reserved: Digest -> bool, k: Kernel, m: Model<D>, n: nat, d: nat, g: Gamma, t: TermKind)
    requires AdmissibleUpTo(reserved, k, m) && GammaHolds(m, g) && t.App? && InferRuleCareful(reserved, k, n, d, g, t)
    requires InferApp(Recursive, k, n, d, g, t).Done?
    ensures Holds(m, [], InferApp(Recursive, k, n, d, g, t).value)
    decreases t, 0
  {
    InferSound(reserved, k, m, n, d, g, t.function_);
    var o := Infer(Recursive, k, n, d, g, t.function_);
    CheckSound(reserved, k, m, o.left, d, g, t.argument, o.value.premise);
  }

  lemma {:induction false} PairSound<D(!new)>(reserved: Digest -> bool, k: Kernel, m: Model<D>, n: nat, d: nat, g: Gamma, t: TermKind)
    requires AdmissibleUpTo(reserved, k, m) && GammaHolds(m, g) && t.Pair? && InferRuleCareful(reserved, k, n, d, g, t)
    requires InferPair(Recursive, k, n, d, g, t).Done?
    ensures Holds(m, [], InferPair(Recursive, k, n, d, g, t).value)
    decreases t, 0
  {
    InferSound(reserved, k, m, n, d, g, t.fst);
    InferSound(reserved, k, m, Infer(Recursive, k, n, d, g, t.fst).left, d, g, t.snd);
  }

  lemma {:induction false} InferRealizesSound<D(!new)>(reserved: Digest -> bool, k: Kernel, m: Model<D>, n: nat, d: nat, g: Gamma, t: TermKind)
    requires AdmissibleUpTo(reserved, k, m) && GammaHolds(m, g) && (t.RealizesComp? || t.RealizesTensor?)
    requires JoinCareful(reserved, k, n, d, g, t, None) && InferRule(Recursive, k, n, d, g, t).Done?
    ensures Holds(m, [], InferRule(Recursive, k, n, d, g, t).value)
    decreases t, 0
  {
    InferSound(reserved, k, m, n, d, g, t.left);
    InferSound(reserved, k, m, Infer(Recursive, k, n, d, g, t.left).left, d, g, t.right);
  }

  lemma {:induction false} LookupHolds<D(!new)>(m: Model<D>, g: Gamma, v: Var)
    requires GammaHolds(m, g) && Lookup(g, v).Some?
    ensures Holds(m, [], Lookup(g, v).value)
    decreases |g|
  {
    if v.Named? && g[|g| - 1].0 != Some(v.name) {
      LookupHolds(m, g[..|g| - 1], v);
    }
  }

  lemma {:induction false} PresSound<D(!new)>(reserved: Digest -> bool, k: Kernel, m: Model<D>, n: nat, d: nat, g: Gamma, t: TermKind)
    requires AdmissibleUpTo(reserved, k, m) && GammaHolds(m, g) && t.Pres? && PresCareful(reserved, k, n, d, g, t)
    requires InferPres(Recursive, k, n, d, g, t).Done?
    ensures Holds(m, [], InferPres(Recursive, k, n, d, g, t).value)
    decreases t, 0
  {
    InferSound(reserved, k, m, n, d, g, t.realizes);
    var o := Infer(Recursive, k, n, d, g, t.realizes);
    var w, x, y := o.value.wit, o.value.src, o.value.dst;
    CheckSound(reserved, k, m, o.left, d, g, t.preserves, Preserves(w, t.motive));
    var o2 := Check(Recursive, k, o.left, d, g, t.preserves, Preserves(w, t.motive));
    CheckSound(reserved, k, m, o2.left, d, g, t.sub, Instantiate(t.motive, x));
    InstantiateHolds(m, t.motive, x);
    InstantiateHolds(m, t.motive, y);
    var a, b := Eval(m, [], x), Eval(m, [], y);
    assert [] + [a] == [a] && [] + [b] == [b];
    assert m.realizes(Eval(m, [], w), a, b);
  }

  /** Soundness of the kernel as implemented: every careful acceptance, of any
      term and any proposition, open or closed, `Unpack` included. */
  lemma AcceptanceSound<D(!new)>(reserved: Digest -> bool, k: Kernel, m: Model<D>, context: Digest, p: Prop, term: ExplicitTerm, b: Budget)
    requires Admissible(k, m)
    requires Acceptance(Unrolled, k, context, p, term, b).Accepted? && AcceptanceCareful(reserved, k, p, term, b)
    ensures Holds(m, [], p)
  {
    AdmissibleWeakens(reserved, k, m);
    CheckAgrees(k, b.maxSteps, b.maxDepth, [], term.kind, p);
    CheckSound(reserved, k, m, b.maxSteps, b.maxDepth, [], term.kind, p);
  }
}
