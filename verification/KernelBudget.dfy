/** The budget: how much always suffices, and that a verdict other than
    exhaustion does not depend on how much was given. */
module KernelBudget {
  import opened Options
  import opened KernelTerms
  import opened KernelRules
  import opened KernelScoping

  function Size(t: TermKind): (s: nat)
    ensures s >= 1
  {
    match t
    case Lam(_, body) => 1 + Size(body)
    case App(f, a) => 1 + Size(f) + Size(a)
    case Pair(a, b) => 1 + Size(a) + Size(b)
    case Proj1(a) => 1 + Size(a)
    case Proj2(a) => 1 + Size(a)
    case Inl(a) => 1 + Size(a)
    case Inr(a) => 1 + Size(a)
    case Case(s, _, a, _, b) => 1 + Size(s) + Size(a) + Size(b)
    case Subst(eq, _, sub) => 1 + Size(eq) + Size(sub)
    case Pack(_, body) => 1 + Size(body)
    case Unpack(s, _, _, body) => 1 + Size(s) + Size(body)
    case Pres(r, p, _, sub) => 1 + Size(r) + Size(p) + Size(sub)
    case RealizesComp(a, b) => 1 + Size(a) + Size(b)
    case RealizesTensor(a, b) => 1 + Size(a) + Size(b)
    case _ => 1
  }

  function Height(t: TermKind): (h: nat)
    ensures h >= 1
  {
    match t
    case Lam(_, body) => 1 + Height(body)
    case App(f, a) => 1 + Max(Height(f), Height(a))
    case Pair(a, b) => 1 + Max(Height(a), Height(b))
    case Proj1(a) => 1 + Height(a)
    case Proj2(a) => 1 + Height(a)
    case Inl(a) => 1 + Height(a)
    case Inr(a) => 1 + Height(a)
    case Case(s, _, a, _, b) => 1 + Max(Height(s), Max(Height(a), Height(b)))
    case Subst(eq, _, sub) => 1 + Max(Height(eq), Height(sub))
    case Pack(_, body) => 1 + Height(body)
    case Unpack(s, _, _, body) => 1 + Max(Height(s), Height(body))
    case Pres(r, p, _, sub) => 1 + Max(Height(r), Max(Height(p), Height(sub)))
    case RealizesComp(a, b) => 1 + Max(Height(a), Height(b))
    case RealizesTensor(a, b) => 1 + Max(Height(a), Height(b))
    case _ => 1
  }

  /** The run was not cut short, and a successful one kept at least `least` steps. */
  ghost predicate Within<T(!new)>(o: Outcome<T>, least: int) {
    match o
    case Done(_, left) => left >= least
    case Fail(v, _) => !v.ResourceExhausted?
  }

  lemma {:induction false} CheckWithin(m: CompRule, k: Kernel, n: nat, d: nat, g: Gamma, t: TermKind, e: Prop)
    requires n >= 2 * Size(t) && d >= 2 * Height(t)
    ensures Within(Check(m, k, n, d, g, t, e), n - 2 * Size(t))
    decreases t, 4
  {
    if t.Lam? && e.Impl? {
      CheckWithin(m, k, n - 1, d - 1, g + [(t.varName, e.premise)], t.body, e.conclusion);
    } else {
      CheckRuleWithin(m, k, n - 1, d - 1, g, t, e);
    }
  }

  /** The goal has the shape the term introduces. */
  predicate Introduces(t: TermKind, e: Prop) {
    || (t.Refl? && e.Eq?)
    || (t.Pack? && e.Exists?)
    || (t.Pair? && e.Prod?)
    || ((t.Inl? || t.Inr?) && e.Sum?)
    || ((t.RealizesComp? || t.RealizesTensor?) && e.Realizes?)
  }

  lemma {:induction false} CheckRuleWithin(m: CompRule, k: Kernel, n: nat, d: nat, g: Gamma, t: TermKind, e: Prop)
    requires n >= 2 * Size(t) - 1 && d >= 2 * Height(t) - 1
    ensures Within(CheckRule(m, k, n, d, g, t, e), n + 1 - 2 * Size(t))
    decreases t, 3
  {
    if Introduces(t, e) {
      IntroWithin(m, k, n, d, g, t, e);
    } else if t.Unpack? {
      UnpackWithin(m, k, n, d, g, t, e);
    } else if t.Case? {
      CaseWithin(m, k, n, d, g, t, e);
    } else if !t.Unsupported? {
      InferWithin(m, k, n, d, g, t);
      assert Within(Compare(Infer(m, k, n, d, g, t), e), n + 1 - 2 * Size(t));
    }
  }

  lemma {:induction false} IntroWithin(m: CompRule, k: Kernel, n: nat, d: nat, g: Gamma, t: TermKind, e: Prop)
    requires Introduces(t, e) && n >= 2 * Size(t) - 1 && d >= 2 * Height(t) - 1
    ensures Within(CheckRule(m, k, n, d, g, t, e), n + 1 - 2 * Size(t))
    decreases t, 1
  {
    match t
    case Refl(_) =>
    case Pack(w, body) => CheckWithin(m, k, n, d, g, body, Instantiate(e.pred, w));
    case Pair(a, b) =>
      CheckWithin(m, k, n, d, g, a, e.first);
      var o := Check(m, k, n, d, g, a, e.first);
      if o.Done? { CheckWithin(m, k, o.left, d, g, b, e.second); }
    case Inl(inner) => CheckWithin(m, k, n, d, g, inner, e.leftCase);
    case Inr(inner) => CheckWithin(m, k, n, d, g, inner, e.rightCase);
    case RealizesComp(_, _) => CheckRealizesWithin(m, k, n, d, g, t, e);
    case RealizesTensor(_, _) => CheckRealizesWithin(m, k, n, d, g, t, e);
  }

  lemma {:induction false} CheckRealizesWithin(m: CompRule, k: Kernel, n: nat, d: nat, g: Gamma, t: TermKind, e: Prop)
    requires (t.RealizesComp? || t.RealizesTensor?) && e.Realizes?
    requires n >= 2 * Size(t) - 2 && d >= 2 * Height(t) - 2
    ensures t.RealizesComp? ==> Within(CheckComp(m, k, n, d, g, t, e), n + 2 - 2 * Size(t))
    ensures t.RealizesTensor? ==> Within(CheckTensor(m, k, n, d, g, t, e), n + 2 - 2 * Size(t))
    decreases t, 0
  {
    InferWithin(m, k, n, d, g, t.left);
    var o := Infer(m, k, n, d, g, t.left);
    if o.Done? { InferWithin(m, k, o.left, d, g, t.right); }
  }

  lemma {:induction false} UnpackWithin(m: CompRule, k: Kernel, n: nat, d: nat, g: Gamma, t: TermKind, e: Prop)
    requires t.Unpack? && n >= 2 * Size(t) - 2 && d >= 2 * Height(t) - 2
    ensures Within(CheckUnpack(m, k, n, d, g, t, e), n + 2 - 2 * Size(t))
    ensures Within(InferUnpack(m, k, n, d, g, t), n + 2 - 2 * Size(t))
    decreases t, 0
  {
    InferWithin(m, k, n, d, g, t.scrutinee);
    var o := Infer(m, k, n, d, g, t.scrutinee);
    if o.Done? && o.value.Exists? {
      var g' := g + [(t.proofVar, Instantiate(o.value.pred, Eigenvariable(k, t.objVar, o.left)))];
      CheckWithin(m, k, o.left, d, g', t.body, e);
      InferWithin(m, k, o.left, d, g', t.body);
    }
  }

  lemma {:induction false} CaseWithin(m: CompRule, k: Kernel, n: nat, d: nat, g: Gamma, t: TermKind, e: Prop)
    requires t.Case? && n >= 2 * Size(t) - 2 && d >= 2 * Height(t) - 2
    ensures Within(CheckCase(m, k, n, d, g, t, e), n + 2 - 2 * Size(t))
    decreases t, 0
  {
    InferWithin(m, k, n, d, g, t.discriminant);
    var o := Infer(m, k, n, d, g, t.discriminant);
    if o.Done? && o.value.Sum? {
      var gl := g + [(t.leftVar, o.value.leftCase)];
      CheckWithin(m, k, o.left, d, gl, t.leftBody, e);
      var o2 := Check(m, k, o.left, d, gl, t.leftBody, e);
      if o2.Done? { CheckWithin(m, k, o2.left, d, g + [(t.rightVar, o.value.rightCase)], t.rightBody, e); }
    }
  }

  lemma {:induction false} InferWithin(m: CompRule, k: Kernel, n: nat, d: nat, g: Gamma, t: TermKind)
    requires n >= 2 * Size(t) - 1 && d >= 2 * Height(t) - 1
    ensures Within(Infer(m, k, n, d, g, t), n + 1 - 2 * Size(t))
    decreases t, 2
  {
    InferRuleWithin(m, k, n - 1, d - 1, g, t);
  }

  lemma {:induction false} InferRuleWithin(m: CompRule, k: Kernel, n: nat, d: nat, g: Gamma, t: TermKind)
    requires n >= 2 * Size(t) - 2 && d >= 2 * Height(t) - 2
    ensures Within(InferRule(m, k, n, d, g, t), n + 2 - 2 * Size(t))
    decreases t, 1
  {
    match t
    case Subst(_, _, _) => SubstWithin(m, k, n, d, g, t);
    case Unpack(_, _, _, _) => UnpackWithin(m, k, n, d, g, t, Atom(k.boundVarWitness));
    case Pres(_, _, _, _) => PresWithin(m, k, n, d, g, t);
    case App(_, _) => AppWithin(m, k, n, d, g, t);
    case Proj1(inner) => InferWithin(m, k, n, d, g, inner);
    case Proj2(inner) => InferWithin(m, k, n, d, g, inner);
    case Pair(_, _) => PairWithin(m, k, n, d, g, t);
    case RealizesComp(_, _) => CompWithin(m, k, n, d, g, t);
    case RealizesTensor(_, _) => PairWithin(m, k, n, d, g, t);
    case _ =>
  }

  lemma {:induction false} SubstWithin(m: CompRule, k: Kernel, n: nat, d: nat, g: Gamma, t: TermKind)
    requires t.Subst? && n >= 2 * Size(t) - 2 && d >= 2 * Height(t) - 2
    ensures Within(InferSubst(m, k, n, d, g, t), n + 2 - 2 * Size(t))
    decreases t, 0
  {
    InferWithin(m, k, n, d, g, t.eq);
    var o := Infer(m, k, n, d, g, t.eq);
    if o.Done? && o.value.Eq? { CheckWithin(m, k, o.left, d, g, t.sub, Instantiate(t.motive, o.value.lhs)); }
  }

  lemma {:induction false} AppWithin(m: CompRule, k: Kernel, n: nat, d: nat, g: Gamma, t: TermKind)
    requires t.App? && n >= 2 * Size(t) - 2 && d >= 2 * Height(t) - 2
    ensures Within(InferApp(m, k, n, d, g, t), n + 2 - 2 * Size(t))
    decreases t, 0
  {
    InferWithin(m, k, n, d, g, t.function_);
    var o := Infer(m, k, n, d, g, t.function_);
    if o.Done? && o.value.Impl? { CheckWithin(m, k, o.left, d, g, t.argument, o.value.premise); }
  }

  /** Pairs and tensors synthesise both components one after the other. */
  lemma {:induction false} PairWithin(m: CompRule, k: Kernel, n: nat, d: nat, g: Gamma, t: TermKind)
    requires (t.Pair? || t.RealizesTensor?) && n >= 2 * Size(t) - 2 && d >= 2 * Height(t) - 2
    ensures t.Pair? ==> Within(InferPair(m, k, n, d, g, t), n + 2 - 2 * Size(t))
    ensures t.RealizesTensor? ==> Within(InferTensor(m, k, n, d, g, t), n + 2 - 2 * Size(t))
    decreases t, 0
  {
    var a, b := if t.Pair? then t.fst else t.left, if t.Pair? then t.snd else t.right;
    InferWithin(m, k, n, d, g, a);
    var o := Infer(m, k, n, d, g, a);
    if o.Done? { InferWithin(m, k, o.left, d, g, b); }
  }

  lemma {:induction false} PresWithin(m: CompRule, k: Kernel, n: nat, d: nat, g: Gamma, t: TermKind)
    requires t.Pres? && n >= 2 * Size(t) - 2 && d >= 2 * Height(t) - 2
    ensures Within(InferPres(m, k, n, d, g, t), n + 2 - 2 * Size(t))
    decreases t, 0
  {
    InferWithin(m, k, n, d, g, t.realizes);
    var o := Infer(m, k, n, d, g, t.realizes);
    if o.Done? && o.value.Realizes? {
      CheckWithin(m, k, o.left, d, g, t.preserves, Preserves(o.value.wit, t.motive));
      var o2 := Check(m, k, o.left, d, g, t.preserves, Preserves(o.value.wit, t.motive));
      if o2.Done? { CheckWithin(m, k, o2.left, d, g, t.sub, Instantiate(t.motive, o.value.src)); }
    }
  }

  lemma {:induction false} CompWithin(m: CompRule, k: Kernel, n: nat, d: nat, g: Gamma, t: TermKind)
    requires t.RealizesComp? && n >= 2 * Size(t) - 2 && d >= 2 * Height(t) - 2
    ensures Within(InferComp(m, k, n, d, g, t), n + 2 - 2 * Size(t))
    decreases t, 0
  {
    InferWithin(m, k, n, d, g, t.left);
    var o := Infer(m, k, n, d, g, t.left);
    if o.Done? && o.value.Realizes? {
      if m.Unrolled? && t.right.RealizesComp? {
        SpineWithin(m, k, o.left, d, g, o.value.dst, t.right);
      } else {
        InferWithin(m, k, o.left, d, g, t.right);
      }
    }
  }

  lemma {:induction false} SpineWithin(m: CompRule, k: Kernel, n: nat, d: nat, g: Gamma, y: ObjectTerm, t: TermKind)
    requires t.RealizesComp? && n >= 2 * Size(t) - 1 && d >= 2 * Height(t) - 1
    ensures Within(Spine(m, k, n, d, g, y, t), n + 1 - 2 * Size(t))
    decreases t, 0
  {
    InferWithin(m, k, n - 1, d - 1, g, t.left);
    var o := Infer(m, k, n - 1, d - 1, g, t.left);
    if o.Done? && o.value.Realizes? {
      if t.right.RealizesComp? {
        SpineWithin(m, k, o.left, d - 1, g, o.value.dst, t.right);
      } else {
        InferWithin(m, k, o.left, d - 1, g, t.right);
      }
    }
  }

  /** Two steps a node and two depth units a level are enough for any term. */
  lemma BudgetSuffices(m: CompRule, k: Kernel, context: Digest, p: Prop, term: ExplicitTerm, b: Budget)
    requires b.maxSteps >= 2 * Size(term.kind) && b.maxDepth >= 2 * Height(term.kind)
    ensures !Acceptance(m, k, context, p, term, b).ResourceExhausted?
  {
    CheckWithin(m, k, b.maxSteps, b.maxDepth, [], term.kind, p);
  }

  // ----- a larger budget changes nothing -----

  /** `o` was not cut short, so `o2`, run with `extra` more steps, is `o` with
      `extra` more steps left. */
  ghost predicate SameWithMore<T(!new)>(o: Outcome<T>, o2: Outcome<T>, extra: nat) {
    match o
    case Done(x, left) => o2 == Done(x, left + extra)
    case Fail(v, left) => v.ResourceExhausted? || o2 == Fail(v, left + extra)
  }

  lemma {:induction false} CheckMonotone(m: CompRule, k: Kernel, n: nat, d: nat, g: Gamma, t: TermKind, e: Prop, x: nat, y: nat)
    requires UnpackFree(t)
    ensures SameWithMore(Check(m, k, n, d, g, t, e), Check(m, k, n + x, d + y, g, t, e), x)
    decreases t, 4
  {
    if n > 0 && d > 0 {
      if t.Lam? && e.Impl? {
        CheckMonotone(m, k, n - 1, d - 1, g + [(t.varName, e.premise)], t.body, e.conclusion, x, y);
      } else {
        CheckRuleMonotone(m, k, n - 1, d - 1, g, t, e, x, y);
      }
    }
  }

  lemma {:induction false} CheckRuleMonotone(m: CompRule, k: Kernel, n: nat, d: nat, g: Gamma, t: TermKind, e: Prop, x: nat, y: nat)
    requires UnpackFree(t)
    ensures SameWithMore(CheckRule(m, k, n, d, g, t, e), CheckRule(m, k, n + x, d + y, g, t, e), x)
    decreases t, 3
  {
    if Introduces(t, e) {
      IntroMonotone(m, k, n, d, g, t, e, x, y);
    } else if t.Case? {
      CaseMonotone(m, k, n, d, g, t, e, x, y);
    } else if !t.Unsupported? {
      InferMonotone(m, k, n, d, g, t, x, y);
      var o, o2 := Infer(m, k, n, d, g, t), Infer(m, k, n + x, d + y, g, t);
      assert SameWithMore(Compare(o, e), Compare(o2, e), x);
    }
  }

  lemma {:induction false} IntroMonotone(m: CompRule, k: Kernel, n: nat, d: nat, g: Gamma, t: TermKind, e: Prop, x: nat, y: nat)
    requires UnpackFree(t) && Introduces(t, e)
    ensures SameWithMore(CheckRule(m, k, n, d, g, t, e), CheckRule(m, k, n + x, d + y, g, t, e), x)
    decreases t, 1
  {
    match t
    case Refl(_) =>
    case Pack(w, body) => CheckMonotone(m, k, n, d, g, body, Instantiate(e.pred, w), x, y);
    case Pair(_, _) => PairMonotone(m, k, n, d, g, t, e, x, y);
    case Inl(inner) => CheckMonotone(m, k, n, d, g, inner, e.leftCase, x, y);
    case Inr(inner) => CheckMonotone(m, k, n, d, g, inner, e.rightCase, x, y);
    case RealizesComp(_, _) => CheckRealizesMonotone(m, k, n, d, g, t, e, x, y);
    case RealizesTensor(_, _) => CheckRealizesMonotone(m, k, n, d, g, t, e, x, y);
  }

  lemma {:induction false} PairMonotone(m: CompRule, k: Kernel, n: nat, d: nat, g: Gamma, t: TermKind, e: Prop, x: nat, y: nat)
    requires UnpackFree(t) && t.Pair? && e.Prod?
    ensures SameWithMore(CheckPair(m, k, n, d, g, t, e), CheckPair(m, k, n + x, d + y, g, t, e), x)
    decreases t, 0
  {
    CheckMonotone(m, k, n, d, g, t.fst, e.first, x, y);
    var o := Check(m, k, n, d, g, t.fst, e.first);
    if o.Done? { CheckMonotone(m, k, o.left, d, g, t.snd, e.second, x, y); }
  }

  lemma {:induction false} CheckRealizesMonotone(m: CompRule, k: Kernel, n: nat, d: nat, g: Gamma, t: TermKind, e: Prop, x: nat, y: nat)
    requires UnpackFree(t) && (t.RealizesComp? || t.RealizesTensor?) && e.Realizes?
    ensures t.RealizesComp? ==> SameWithMore(CheckComp(m, k, n, d, g, t, e), CheckComp(m, k, n + x, d + y, g, t, e), x)
    ensures t.RealizesTensor? ==> SameWithMore(CheckTensor(m, k, n, d, g, t, e), CheckTensor(m, k, n + x, d + y, g, t, e), x)
    decreases t, 0
  {
    InferMonotone(m, k, n, d, g, t.left, x, y);
    var o := Infer(m, k, n, d, g, t.left);
    if o.Done? { InferMonotone(m, k, o.left, d, g, t.right, x, y); }
  }

  lemma {:induction false} CaseMonotone(m: CompRule, k: Kernel, n: nat, d: nat, g: Gamma, t: TermKind, e: Prop, x: nat, y: nat)
    requires UnpackFree(t) && t.Case?
    ensures SameWithMore(CheckCase(m, k, n, d, g, t, e), CheckCase(m, k, n + x, d + y, g, t, e), x)
    decreases t, 0
  {
    InferMonotone(m, k, n, d, g, t.discriminant, x, y);
    var o := Infer(m, k, n, d, g, t.discriminant);
    if o.Done? && o.value.Sum? {
      var gl := g + [(t.leftVar, o.value.leftCase)];
      CheckMonotone(m, k, o.left, d, gl, t.leftBody, e, x, y);
      var o2 := Check(m, k, o.left, d, gl, t.leftBody, e);
      if o2.Done? { CheckMonotone(m, k, o2.left, d, g + [(t.rightVar, o.value.rightCase)], t.rightBody, e, x, y); }
    }
  }

  lemma {:induction false} InferMonotone(m: CompRule, k: Kernel, n: nat, d: nat, g: Gamma, t: TermKind, x: nat, y: nat)
    requires UnpackFree(t)
    ensures SameWithMore(Infer(m, k, n, d, g, t), Infer(m, k, n + x, d + y, g, t), x)
    decreases t, 2
  {
    if n > 0 && d > 0 {
      InferRuleMonotone(m, k, n - 1, d - 1, g, t, x, y);
    }
  }

  lemma {:induction false} InferRuleMonotone(m: CompRule, k: Kernel, n: nat, d: nat, g: Gamma, t: TermKind, x: nat, y: nat)
    requires UnpackFree(t)
    ensures SameWithMore(InferRule(m, k, n, d, g, t), InferRule(m, k, n + x, d + y, g, t), x)
    decreases t, 1
  {
    match t
    case Subst(_, _, _) => SubstMonotone(m, k, n, d, g, t, x, y);
    case Pres(_, _, _, _) => PresMonotone(m, k, n, d, g, t, x, y);
    case App(_, _) => AppMonotone(m, k, n, d, g, t, x, y);
    case Proj1(inner) => InferMonotone(m, k, n, d, g, inner, x, y);
    case Proj2(inner) => InferMonotone(m, k, n, d, g, inner, x, y);
    case Pair(_, _) => InferPairMonotone(m, k, n, d, g, t, x, y);
    case RealizesComp(_, _) => CompMonotone(m, k, n, d, g, t, x, y);
    case RealizesTensor(_, _) => InferPairMonotone(m, k, n, d, g, t, x, y);
    case _ =>
  }

  lemma {:induction false} SubstMonotone(m: CompRule, k: Kernel, n: nat, d: nat, g: Gamma, t: TermKind, x: nat, y: nat)
    requires UnpackFree(t) && t.Subst?
    ensures SameWithMore(InferSubst(m, k, n, d, g, t), InferSubst(m, k, n + x, d + y, g, t), x)
    decreases t, 0
  {
    InferMonotone(m, k, n, d, g, t.eq, x, y);
    var o := Infer(m, k, n, d, g, t.eq);
    if o.Done? && o.value.Eq? { CheckMonotone(m, k, o.left, d, g, t.sub, Instantiate(t.motive, o.value.lhs), x, y); }
  }

  lemma {:induction false} AppMonotone(m: CompRule, k: Kernel, n: nat, d: nat, g: Gamma, t: TermKind, x: nat, y: nat)
    requires UnpackFree(t) && t.App?
    ensures SameWithMore(InferApp(m, k, n, d, g, t), InferApp(m, k, n + x, d + y, g, t), x)
    decreases t, 0
  {
    InferMonotone(m, k, n, d, g, t.function_, x, y);
    var o := Infer(m, k, n, d, g, t.function_);
    if o.Done? && o.value.Impl? { CheckMonotone(m, k, o.left, d, g, t.argument, o.value.premise, x, y); }
  }

  lemma {:induction false} InferPairMonotone(m: CompRule, k: Kernel, n: nat, d: nat, g: Gamma, t: TermKind, x: nat, y: nat)
    requires UnpackFree(t) && (t.Pair? || t.RealizesTensor?)
    ensures t.Pair? ==> SameWithMore(InferPair(m, k, n, d, g, t), InferPair(m, k, n + x, d + y, g, t), x)
    ensures t.RealizesTensor? ==> SameWithMore(InferTensor(m, k, n, d, g, t), InferTensor(m, k, n + x, d + y, g, t), x)
    decreases t, 0
  {
    var a, b := if t.Pair? then t.fst else t.left, if t.Pair? then t.snd else t.right;
    InferMonotone(m, k, n, d, g, a, x, y);
    var o := Infer(m, k, n, d, g, a);
    if o.Done? { InferMonotone(m, k, o.left, d, g, b, x, y); }
  }

  lemma {:induction false} PresMonotone(m: CompRule, k: Kernel, n: nat, d: nat, g: Gamma, t: TermKind, x: nat, y: nat)
    requires UnpackFree(t) && t.Pres?
    ensures SameWithMore(InferPres(m, k, n, d, g, t), InferPres(m, k, n + x, d + y, g, t), x)
    decreases t, 0
  {
    InferMonotone(m, k, n, d, g, t.realizes, x, y);
    var o := Infer(m, k, n, d, g, t.realizes);
    if o.Done? && o.value.Realizes? {
      CheckMonotone(m, k, o.left, d, g, t.preserves, Preserves(o.value.wit, t.motive), x, y);
      var o2 := Check(m, k, o.left, d, g, t.preserves, Preserves(o.value.wit, t.motive));
      if o2.Done? { CheckMonotone(m, k, o2.left, d, g, t.sub, Instantiate(t.motive, o.value.src), x, y); }
    }
  }

  lemma {:induction false} CompMonotone(m: CompRule, k: Kernel, n: nat, d: nat, g: Gamma, t: TermKind, x: nat, y: nat)
    requires UnpackFree(t) && t.RealizesComp?
    ensures SameWithMore(InferComp(m, k, n, d, g, t), InferComp(m, k, n + x, d + y, g, t), x)
    decreases t, 0
  {
    InferMonotone(m, k, n, d, g, t.left, x, y);
    var o := Infer(m, k, n, d, g, t.left);
    if o.Done? && o.value.Realizes? {
      if m.Unrolled? && t.right.RealizesComp? {
        SpineMonotone(m, k, o.left, d, g, o.value.dst, t.right, x, y);
      } else {
        InferMonotone(m, k, o.left, d, g, t.right, x, y);
      }
    }
  }

  lemma {:induction false} SpineMonotone(m: CompRule, k: Kernel, n: nat, d: nat, g: Gamma, z: ObjectTerm, t: TermKind, x: nat, y: nat)
    requires UnpackFree(t) && t.RealizesComp?
    ensures SameWithMore(Spine(m, k, n, d, g, z, t), Spine(m, k, n + x, d + y, g, z, t), x)
    decreases t, 0
  {
    if n > 0 && d > 0 {
      InferMonotone(m, k, n - 1, d - 1, g, t.left, x, y);
      var o := Infer(m, k, n - 1, d - 1, g, t.left);
      if o.Done? && o.value.Realizes? {
        if t.right.RealizesComp? {
          SpineMonotone(m, k, o.left, d - 1, g, o.value.dst, t.right, x, y);
        } else {
          InferMonotone(m, k, o.left, d - 1, g, t.right, x, y);
        }
      }
    }
  }

  /** On Unpack-free terms every verdict but exhaustion is final: no larger budget
      changes it, and the budget of `BudgetSuffices` reaches it. */
  lemma VerdictIsFinal(m: CompRule, k: Kernel, context: Digest, p: Prop, term: ExplicitTerm, b: Budget, b2: Budget)
    requires UnpackFree(term.kind)
    requires b.maxSteps <= b2.maxSteps && b.maxDepth <= b2.maxDepth
    requires !Acceptance(m, k, context, p, term, b).ResourceExhausted?
    ensures Acceptance(m, k, context, p, term, b2) == Acceptance(m, k, context, p, term, b)
  {
    CheckMonotone(m, k, b.maxSteps, b.maxDepth, [], term.kind, p, b2.maxSteps - b.maxSteps, b2.maxDepth - b.maxDepth);
  }

  /** Unpack-freeness is needed: the eigenvariable is named after the steps left,
      so a goal that mentions the constant of one step count is refused at one
      budget and accepted at the next. */
  lemma UnpackDependsOnBudget(m: CompRule, k: Kernel, context: Digest, a: Digest)
    requires k.eigenvar("anon", 5) != k.eigenvar("anon", 6)
    ensures var c := Const(k.eigenvar("anon", 5));
            var p := Impl(Exists(Atom(a)), Eq(c, c));
            var term := ExplicitTerm(context, Lam(None, Unpack(Hyp(Index(0)), None, None, Refl(c))));
            Acceptance(m, k, context, p, term, Budget(8, 4)).Malformed?
            && Acceptance(m, k, context, p, term, Budget(9, 4)).Accepted?
  {
    var c := Const(k.eigenvar("anon", 5));
    var e := Eq(c, c);
    var u := Unpack(Hyp(Index(0)), None, None, Refl(c));
    var g: Gamma := [(None, Exists(Atom(a)))];
    assert [] + g == g;
    forall n: nat | n > 0 ensures Infer(m, k, n, 2, g, u.scrutinee) == Done(Exists(Atom(a)), n - 1) {}
    assert ObjectContains(c, Eigenvariable(k, None, 5));
    assert CheckUnpack(m, k, 6, 2, g, u, e) == Fail(Malformed, 5);
    assert Check(m, k, 7, 3, g, u, e) == Fail(Malformed, 5);
    var g' := g + [(None, Instantiate(Atom(a), Eigenvariable(k, None, 6)))];
    assert !ObjectContains(c, Eigenvariable(k, None, 6));
    assert Check(m, k, 6, 2, g', u.body, e) == Done((), 5);
    assert CheckUnpack(m, k, 7, 2, g, u, e) == Done((), 5);
    assert Check(m, k, 8, 3, g, u, e) == Done((), 5);
  }
}
