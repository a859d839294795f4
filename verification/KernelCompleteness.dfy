/** The kernel accepts exactly the derivable: on a budget that reaches as far as
    some derivation, and for terms without `Unpack` on every ample budget. */
module KernelCompleteness {
  import opened Options
  import opened KernelTerms
  import opened KernelRules
  import opened KernelBudget
  import opened KernelScoping
  import opened KernelDerivations
  import KernelRefinement

  /** `c` derives `p`, for the eigenvariables a run on this budget chooses, and the
      budget reaches that far. */
  predicate Reaches(k: Kernel, p: Prop, t: TermKind, b: Budget, c: Checking) {
    && Checks(k, [], t, p, c) && GoalTimed(k, b.maxSteps, t, c)
    && b.maxSteps >= GoalSteps(c) && b.maxDepth >= GoalLevels(c)
  }

  /** The kernel as implemented accepts if and only if the contexts agree and there
      is a derivation within the budget. The certificate is of just this context,
      proposition and term. */
  lemma AcceptanceExact(k: Kernel, context: Digest, p: Prop, term: ExplicitTerm, b: Budget)
    ensures var v := Acceptance(Unrolled, k, context, p, term, b);
            && (v.Accepted? <==> term.context == context && exists c :: Reaches(k, p, term.kind, b, c))
            && (v.Accepted? ==> v == Accepted(k.certificateId(context, p, term)))
            && (term.context != context ==> v == ContextMismatch(context, term.context))
  {
    KernelRefinement.CheckAgrees(k, b.maxSteps, b.maxDepth, [], term.kind, p);
    var o := Check(Recursive, k, b.maxSteps, b.maxDepth, [], term.kind, p);
    if o.Done? {
      var c := DoneReaches(k, p, term.kind, b);
    }
    forall c | Reaches(k, p, term.kind, b, c) ensures o.Done? {
      CheckFinds(k, b.maxSteps, b.maxDepth, [], term.kind, p, c);
    }
  }

  lemma DoneReaches(k: Kernel, p: Prop, t: TermKind, b: Budget) returns (c: Checking)
    requires Check(Recursive, k, b.maxSteps, b.maxDepth, [], t, p).Done?
    ensures Reaches(k, p, t, b, c)
  {
    c := CheckDerives(k, b.maxSteps, b.maxDepth, [], t, p);
    CheckFinds(k, b.maxSteps, b.maxDepth, [], t, p, c);
  }

  /** Completeness: what is derived is accepted on two steps a node and two depth
      units a level, at the eigenvariables that are chosen. */
  lemma DerivedIsAccepted(k: Kernel, context: Digest, p: Prop, t: TermKind, c: Checking, b: Budget)
    requires Checks(k, [], t, p, c) && GoalTimed(k, b.maxSteps, t, c)
    requires b.maxSteps >= 2 * Size(t) && b.maxDepth >= 2 * Height(t)
    ensures Acceptance(Unrolled, k, context, p, ExplicitTerm(context, t), b).Accepted?
  {
    BudgetSuffices(Recursive, k, context, p, ExplicitTerm(context, t), b);
    CheckFinds(k, b.maxSteps, b.maxDepth, [], t, p, c);
    KernelRefinement.CheckAgrees(k, b.maxSteps, b.maxDepth, [], t, p);
  }

  /** No eigenvariable occurs in the derivation. */
  predicate Plain(s: Synthesis)
    decreases s
  {
    match s
    case Rewritten(equation, _, _, premise) => Plain(equation) && PlainGoal(premise)
    case Carried(realized, _, _, _, preserved, premise) => Plain(realized) && PlainGoal(preserved) && PlainGoal(premise)
    case Fed(function_, _, argument) => Plain(function_) && PlainGoal(argument)
    case Taken(pair, _) => Plain(pair)
    case Coupled(first, _, second, _) => Plain(first) && Plain(second)
    case Chained(first, _, second, _) => Plain(first) && Plain(second)
    case Stacked(first, _, second, _) => Plain(first) && Plain(second)
    case OpenedFor(_, _, _, _) => false
    case _ => true
  }

  predicate PlainGoal(c: Checking)
    decreases c
  {
    match c
    case Reflexive => true
    case Abstracted(body) => PlainGoal(body)
    case Packed(body) => PlainGoal(body)
    case Paired(left, right) => PlainGoal(left) && PlainGoal(right)
    case InLeft(inner) => PlainGoal(inner)
    case InRight(inner) => PlainGoal(inner)
    case Split(discriminant, _, _, left, right) => Plain(discriminant) && PlainGoal(left) && PlainGoal(right)
    case ChainedTo(first, _, second, _) => Plain(first) && Plain(second)
    case StackedTo(first, _, second, _) => Plain(first) && Plain(second)
    case Opened(_, _, _, _) => false
    case Found(synthesis) => Plain(synthesis)
  }

  lemma {:induction false} UnpackFreePlain(k: Kernel, g: Gamma, t: TermKind, p: Prop, s: Synthesis)
    requires UnpackFree(t) && Synthesizes(k, g, t, p, s)
    ensures Plain(s)
    decreases s
  {
    match s
    case Rewritten(equation, lhs, rhs, premise) =>
      UnpackFreePlain(k, g, t.eq, Eq(lhs, rhs), equation);
      UnpackFreePlainGoal(k, g, t.sub, Instantiate(t.motive, lhs), premise);
    case Carried(realized, wit, src, dst, preserved, premise) =>
      UnpackFreePlain(k, g, t.realizes, Realizes(wit, src, dst), realized);
      UnpackFreePlainGoal(k, g, t.preserves, Preserves(wit, t.motive), preserved);
      UnpackFreePlainGoal(k, g, t.sub, Instantiate(t.motive, src), premise);
    case Fed(function_, domain, argument) =>
      UnpackFreePlain(k, g, t.function_, Impl(domain, p), function_);
      UnpackFreePlainGoal(k, g, t.argument, domain, argument);
    case Taken(pair, other) => UnpackFreePlain(k, g, t.inner, if t.Proj1? then Prod(p, other) else Prod(other, p), pair);
    case Coupled(first, a, second, b) => UnpackFreePlain(k, g, t.fst, a, first); UnpackFreePlain(k, g, t.snd, b, second);
    case Chained(first, a, second, b) => UnpackFreePlain(k, g, t.left, a, first); UnpackFreePlain(k, g, t.right, b, second);
    case Stacked(first, a, second, b) => UnpackFreePlain(k, g, t.left, a, first); UnpackFreePlain(k, g, t.right, b, second);
    case _ =>
  }

  lemma {:induction false} UnpackFreePlainGoal(k: Kernel, g: Gamma, t: TermKind, e: Prop, c: Checking)
    requires UnpackFree(t) && Checks(k, g, t, e, c)
    ensures PlainGoal(c)
    decreases c
  {
    match c
    case Abstracted(body) => UnpackFreePlainGoal(k, g + [(t.varName, e.premise)], t.body, e.conclusion, body);
    case Packed(body) => UnpackFreePlainGoal(k, g, t.bodyProof, Instantiate(e.pred, t.wit), body);
    case Paired(left, right) =>
      UnpackFreePlainGoal(k, g, t.fst, e.first, left);
      UnpackFreePlainGoal(k, g, t.snd, e.second, right);
    case InLeft(inner) => UnpackFreePlainGoal(k, g, t.inner, e.leftCase, inner);
    case InRight(inner) => UnpackFreePlainGoal(k, g, t.inner, e.rightCase, inner);
    case Split(discriminant, l, r, left, right) =>
      UnpackFreePlain(k, g, t.discriminant, Sum(l, r), discriminant);
      UnpackFreePlainGoal(k, g + [(t.leftVar, l)], t.leftBody, e, left);
      UnpackFreePlainGoal(k, g + [(t.rightVar, r)], t.rightBody, e, right);
    case ChainedTo(first, a, second, b) => UnpackFreePlain(k, g, t.left, a, first); UnpackFreePlain(k, g, t.right, b, second);
    case StackedTo(first, a, second, b) => UnpackFreePlain(k, g, t.left, a, first); UnpackFreePlain(k, g, t.right, b, second);
    case Found(synthesis) => UnpackFreePlain(k, g, t, e, synthesis);
    case _ =>
  }

  lemma {:induction false} PlainTimed(k: Kernel, n: int, t: TermKind, s: Synthesis)
    requires Plain(s)
    ensures Timed(k, n, t, s)
    decreases s
  {
    match s
    case Rewritten(equation, _, _, premise) =>
      if t.Subst? { PlainTimed(k, n - 1, t.eq, equation); PlainGoalTimed(k, n - 1 - Steps(equation), t.sub, premise); }
    case Carried(realized, _, _, _, preserved, premise) =>
      if t.Pres? {
        PlainTimed(k, n - 1, t.realizes, realized);
        PlainGoalTimed(k, n - 1 - Steps(realized), t.preserves, preserved);
        PlainGoalTimed(k, n - 1 - Steps(realized) - GoalSteps(preserved), t.sub, premise);
      }
    case Fed(function_, _, argument) =>
      if t.App? { PlainTimed(k, n - 1, t.function_, function_); PlainGoalTimed(k, n - 1 - Steps(function_), t.argument, argument); }
    case Taken(pair, _) => if t.Proj1? || t.Proj2? { PlainTimed(k, n - 1, t.inner, pair); }
    case Coupled(first, _, second, _) =>
      if t.Pair? { PlainTimed(k, n - 1, t.fst, first); PlainTimed(k, n - 1 - Steps(first), t.snd, second); }
    case Chained(first, _, second, _) =>
      if t.RealizesComp? { PlainTimed(k, n - 1, t.left, first); PlainTimed(k, n - 1 - Steps(first), t.right, second); }
    case Stacked(first, _, second, _) =>
      if t.RealizesTensor? { PlainTimed(k, n - 1, t.left, first); PlainTimed(k, n - 1 - Steps(first), t.right, second); }
    case _ =>
  }

  lemma {:induction false} PlainGoalTimed(k: Kernel, n: int, t: TermKind, c: Checking)
    requires PlainGoal(c)
    ensures GoalTimed(k, n, t, c)
    decreases c
  {
    match c
    case Abstracted(body) => if t.Lam? { PlainGoalTimed(k, n - 1, t.body, body); }
    case Packed(body) => if t.Pack? { PlainGoalTimed(k, n - 1, t.bodyProof, body); }
    case Paired(left, right) =>
      if t.Pair? { PlainGoalTimed(k, n - 1, t.fst, left); PlainGoalTimed(k, n - 1 - GoalSteps(left), t.snd, right); }
    case InLeft(inner) => if t.Inl? { PlainGoalTimed(k, n - 1, t.inner, inner); }
    case InRight(inner) => if t.Inr? { PlainGoalTimed(k, n - 1, t.inner, inner); }
    case Split(discriminant, _, _, left, right) =>
      if t.Case? {
        PlainTimed(k, n - 1, t.discriminant, discriminant);
        PlainGoalTimed(k, n - 1 - Steps(discriminant), t.leftBody, left);
        PlainGoalTimed(k, n - 1 - Steps(discriminant) - GoalSteps(left), t.rightBody, right);
      }
    case ChainedTo(first, _, second, _) =>
      if t.RealizesComp? { PlainTimed(k, n - 1, t.left, first); PlainTimed(k, n - 1 - Steps(first), t.right, second); }
    case StackedTo(first, _, second, _) =>
      if t.RealizesTensor? { PlainTimed(k, n - 1, t.left, first); PlainTimed(k, n - 1 - Steps(first), t.right, second); }
    case Found(synthesis) => PlainTimed(k, n - 1, t, synthesis);
    case _ =>
  }

  predicate Derives(k: Kernel, p: Prop, t: TermKind, c: Checking) {
    Checks(k, [], t, p, c)
  }

  ghost predicate Derivable(k: Kernel, p: Prop, t: TermKind) {
    exists c :: Derives(k, p, t, c)
  }

  /** Without `Unpack`, acceptance on any ample budget is derivability, which knows
      of no budget. */
  lemma DerivableIffAccepted(k: Kernel, context: Digest, p: Prop, t: TermKind, b: Budget)
    requires UnpackFree(t) && b.maxSteps >= 2 * Size(t) && b.maxDepth >= 2 * Height(t)
    ensures Acceptance(Unrolled, k, context, p, ExplicitTerm(context, t), b).Accepted? <==> Derivable(k, p, t)
  {
    AcceptanceExact(k, context, p, ExplicitTerm(context, t), b);
    forall c | Derives(k, p, t, c)
      ensures Acceptance(Unrolled, k, context, p, ExplicitTerm(context, t), b).Accepted?
    {
      UnpackFreePlainGoal(k, [], t, p, c);
      PlainGoalTimed(k, b.maxSteps, t, c);
      DerivedIsAccepted(k, context, p, t, c, b);
    }
    if Acceptance(Unrolled, k, context, p, ExplicitTerm(context, t), b).Accepted? {
      var c :| Reaches(k, p, t, b, c);
      assert Derives(k, p, t, c);
    }
  }

  /** Whether a rule looks at the goal makes no difference to what can be derived:
      a type that is found is also checked. */
  lemma {:induction false} FoundIsChecked(k: Kernel, g: Gamma, t: TermKind, p: Prop, s: Synthesis) returns (c: Checking)
    requires UnpackFree(t) && Synthesizes(k, g, t, p, s)
    ensures Checks(k, g, t, p, c)
    decreases s
  {
    match s
    case Reflected => c := Reflexive;
    case Coupled(first, a, second, b) =>
      var left := FoundIsChecked(k, g, t.fst, a, first);
      var right := FoundIsChecked(k, g, t.snd, b, second);
      c := Paired(left, right);
    case Chained(first, a, second, b) => c := ChainedTo(first, a, second, b);
    case Stacked(first, a, second, b) => c := StackedTo(first, a, second, b);
    case _ => c := Found(s);
  }

  // ----- the escape test -----

  function Parts(t: ObjectTerm): set<ObjectTerm> {
    match t
    case Const(_) => {t}
    case BoundVar(_) => {t}
    case Compose(a, b) => {t} + Parts(a) + Parts(b)
    case Tensor(a, b) => {t} + Parts(a) + Parts(b)
  }

  function Objects(p: Prop): set<ObjectTerm> {
    match p
    case Atom(_) => {}
    case Impl(a, b) => Objects(a) + Objects(b)
    case Prod(a, b) => Objects(a) + Objects(b)
    case Sum(a, b) => Objects(a) + Objects(b)
    case Eq(a, b) => Parts(a) + Parts(b)
    case Exists(body) => Objects(body)
    case Applied(_, args) => set i, o | 0 <= i < |args| && o in Parts(args[i]) :: o
    case Realizes(w, x, y) => Parts(w) + Parts(x) + Parts(y)
    case Preserves(w, motive) => Parts(w) + Objects(motive)
  }

  lemma {:induction false} ContainsIsPart(t: ObjectTerm, x: ObjectTerm)
    ensures ObjectContains(t, x) <==> x in Parts(t)
  {
    match t
    case Const(_) =>
    case BoundVar(_) =>
    case Compose(a, b) => ContainsIsPart(a, x); ContainsIsPart(b, x);
    case Tensor(a, b) => ContainsIsPart(a, x); ContainsIsPart(b, x);
  }

  /** The test for an eigenvariable finds it exactly where it occurs. */
  lemma {:induction false} ContainsExact(p: Prop, x: ObjectTerm)
    ensures PropContains(p, x) <==> x in Objects(p)
  {
    match p
    case Atom(_) =>
    case Impl(a, b) => ContainsExact(a, x); ContainsExact(b, x);
    case Prod(a, b) => ContainsExact(a, x); ContainsExact(b, x);
    case Sum(a, b) => ContainsExact(a, x); ContainsExact(b, x);
    case Eq(a, b) => ContainsIsPart(a, x); ContainsIsPart(b, x);
    case Exists(body) => ContainsExact(body, x);
    case Applied(_, args) =>
      forall i | 0 <= i < |args| ensures ObjectContains(args[i], x) <==> x in Parts(args[i]) { ContainsIsPart(args[i], x); }
    case Realizes(w, a, b) => ContainsIsPart(w, x); ContainsIsPart(a, x); ContainsIsPart(b, x);
    case Preserves(w, motive) => ContainsIsPart(w, x); ContainsExact(motive, x);
  }
}
