/** Two conditions on a term and a goal, both checkable before a run, under which
    every run is careful: everything written is closed, or open objects stay out
    of witnesses and no motive mentions a binder around it. */
module KernelScoping {
  import opened Options
  import opened KernelTerms
  import opened KernelRules
  import KernelRefinement
  import opened KernelModels
  import opened KernelSoundness

  datatype Discipline = Closed | Isolated

  predicate UnpackFree(t: TermKind) {
    match t
    case Lam(_, body) => UnpackFree(body)
    case App(f, a) => UnpackFree(f) && UnpackFree(a)
    case Pair(a, b) => UnpackFree(a) && UnpackFree(b)
    case Proj1(a) => UnpackFree(a)
    case Proj2(a) => UnpackFree(a)
    case Inl(a) => UnpackFree(a)
    case Inr(a) => UnpackFree(a)
    case Case(s, _, a, _, b) => UnpackFree(s) && UnpackFree(a) && UnpackFree(b)
    case Subst(eq, _, sub) => UnpackFree(eq) && UnpackFree(sub)
    case Pack(_, body) => UnpackFree(body)
    case Unpack(_, _, _, _) => false
    case Pres(r, p, _, sub) => UnpackFree(r) && UnpackFree(p) && UnpackFree(sub)
    case RealizesComp(a, b) => UnpackFree(a) && UnpackFree(b)
    case RealizesTensor(a, b) => UnpackFree(a) && UnpackFree(b)
    case _ => true
  }

  predicate ObjectTame(c: Discipline, t: ObjectTerm, n: nat) {
    c.Closed? ==> ObjectScoped(t, n)
  }

  predicate WitnessTame(c: Discipline, t: ObjectTerm, n: nat) {
    ObjectScoped(t, if c.Closed? then n else 0)
  }

  /** `p` under `n` binders. */
  predicate PropTame(c: Discipline, p: Prop, n: nat) {
    match p
    case Atom(_) => true
    case Impl(a, b) => PropTame(c, a, n) && PropTame(c, b, n)
    case Prod(a, b) => PropTame(c, a, n) && PropTame(c, b, n)
    case Sum(a, b) => PropTame(c, a, n) && PropTame(c, b, n)
    case Eq(a, b) => ObjectTame(c, a, n) && ObjectTame(c, b, n)
    case Exists(body) => PropTame(c, body, n + 1)
    case Applied(_, args) => forall i :: 0 <= i < |args| ==> ObjectTame(c, args[i], n)
    case Realizes(w, x, y) => WitnessTame(c, w, n) && ObjectTame(c, x, n) && ObjectTame(c, y, n)
    case Preserves(w, motive) =>
      WitnessTame(c, w, n) && PropTame(c, motive, n + 1)
      && (c.Isolated? ==> forall i :: 0 <= i < n ==> !PropMentions(motive, i))
  }

  /** The objects and the motives written in an Unpack-free term. */
  predicate TermTame(c: Discipline, t: TermKind) {
    match t
    case Lam(_, body) => TermTame(c, body)
    case App(f, a) => TermTame(c, f) && TermTame(c, a)
    case Pair(a, b) => TermTame(c, a) && TermTame(c, b)
    case Proj1(a) => TermTame(c, a)
    case Proj2(a) => TermTame(c, a)
    case Inl(a) => TermTame(c, a)
    case Inr(a) => TermTame(c, a)
    case Case(s, _, a, _, b) => TermTame(c, s) && TermTame(c, a) && TermTame(c, b)
    case Refl(o) => ObjectTame(c, o, 0)
    case Subst(eq, motive, sub) => TermTame(c, eq) && PropTame(c, motive, 1) && TermTame(c, sub)
    case Pack(w, body) => ObjectTame(c, w, 0) && TermTame(c, body)
    case Unpack(_, _, _, _) => false
    case Pres(r, p, motive, sub) => TermTame(c, r) && TermTame(c, p) && PropTame(c, motive, 1) && TermTame(c, sub)
    case RealizesComp(a, b) => TermTame(c, a) && TermTame(c, b)
    case RealizesTensor(a, b) => TermTame(c, a) && TermTame(c, b)
    case _ => true
  }

  predicate GammaTame(c: Discipline, g: Gamma) {
    forall i :: 0 <= i < |g| ==> PropTame(c, g[i].1, 0)
  }

  // ----- instantiation keeps the condition -----

  lemma {:induction false} ScopeWeakens(t: ObjectTerm, n: nat)
    requires ObjectScoped(t, 0)
    ensures ObjectScoped(t, n)
  {
    match t
    case Const(_) =>
    case BoundVar(_) =>
    case Compose(a, b) => ScopeWeakens(a, n); ScopeWeakens(b, n);
    case Tensor(a, b) => ScopeWeakens(a, n); ScopeWeakens(b, n);
  }

  lemma {:induction false} SubstScoped(t: ObjectTerm, r: ObjectTerm, depth: nat, n: nat)
    requires ObjectScoped(t, n + 1) && ObjectScoped(r, 0) && depth <= n
    ensures ObjectScoped(SubstObject(t, r, depth), n)
  {
    match t
    case Const(_) =>
    case BoundVar(_) =>
      if depth > 0 { ShiftAgrees(r, 0, depth); }
      ShiftNone(r);
      ScopeWeakens(r, n);
    case Compose(a, b) => SubstScoped(a, r, depth, n); SubstScoped(b, r, depth, n);
    case Tensor(a, b) => SubstScoped(a, r, depth, n); SubstScoped(b, r, depth, n);
  }

  lemma {:induction false} ShiftNone(t: ObjectTerm)
    ensures Shift(t, 0) == t
  {
    match t
    case Const(_) =>
    case BoundVar(_) =>
    case Compose(a, b) => ShiftNone(a); ShiftNone(b);
    case Tensor(a, b) => ShiftNone(a); ShiftNone(b);
  }

  /** Objects without a variable are left alone. */
  lemma {:induction false} SubstClosed(t: ObjectTerm, r: ObjectTerm, depth: nat)
    requires ObjectScoped(t, 0)
    ensures SubstObject(t, r, depth) == t
  {
    match t
    case Const(_) =>
    case BoundVar(_) =>
    case Compose(a, b) => SubstClosed(a, r, depth); SubstClosed(b, r, depth);
    case Tensor(a, b) => SubstClosed(a, r, depth); SubstClosed(b, r, depth);
  }

  function Moved(i: nat, depth: nat): nat { if i < depth then i else i + 1 }

  lemma {:induction false} ObjectMoves(t: ObjectTerm, r: ObjectTerm, depth: nat, i: nat)
    requires !ObjectMentions(t, depth)
    ensures ObjectMentions(SubstObject(t, r, depth), i) <==> ObjectMentions(t, Moved(i, depth))
  {
    match t
    case Const(_) =>
    case BoundVar(_) =>
    case Compose(a, b) => ObjectMoves(a, r, depth, i); ObjectMoves(b, r, depth, i);
    case Tensor(a, b) => ObjectMoves(a, r, depth, i); ObjectMoves(b, r, depth, i);
  }

  lemma ArgsMove(f: Digest, args: seq<ObjectTerm>, r: ObjectTerm, depth: nat, i: nat)
    requires !PropMentions(Applied(f, args), depth)
    ensures PropMentions(SubstProp(Applied(f, args), r, depth), i) <==> PropMentions(Applied(f, args), Moved(i, depth))
  {
    var s := SubstProp(Applied(f, args), r, depth).args;
    forall j | 0 <= j < |args| ensures ObjectMentions(s[j], i) <==> ObjectMentions(args[j], Moved(i, depth)) {
      ObjectMoves(args[j], r, depth, i);
    }
  }

  /** Substituting for a variable that does not occur only renumbers the others. */
  lemma {:induction false} PropMoves(p: Prop, r: ObjectTerm, depth: nat, i: nat)
    requires !PropMentions(p, depth)
    ensures PropMentions(SubstProp(p, r, depth), i) <==> PropMentions(p, Moved(i, depth))
  {
    match p
    case Atom(_) =>
    case Impl(a, b) => PropMoves(a, r, depth, i); PropMoves(b, r, depth, i);
    case Prod(a, b) => PropMoves(a, r, depth, i); PropMoves(b, r, depth, i);
    case Sum(a, b) => PropMoves(a, r, depth, i); PropMoves(b, r, depth, i);
    case Eq(a, b) => ObjectMoves(a, r, depth, i); ObjectMoves(b, r, depth, i);
    case Exists(body) => PropMoves(body, r, depth + 1, i + 1);
    case Applied(f, args) => ArgsMove(f, args, r, depth, i);
    case Realizes(w, x, y) => ObjectMoves(w, r, depth, i); ObjectMoves(x, r, depth, i); ObjectMoves(y, r, depth, i);
    case Preserves(w, motive) => ObjectMoves(w, r, depth, i); PropMoves(motive, r, depth, i);
  }

  lemma ObjectStaysTame(c: Discipline, t: ObjectTerm, r: ObjectTerm, depth: nat, n: nat)
    requires ObjectTame(c, t, n + 1) && ObjectTame(c, r, 0) && depth <= n
    ensures ObjectTame(c, SubstObject(t, r, depth), n)
  {
    if c.Closed? { SubstScoped(t, r, depth, n); }
  }

  lemma WitnessStaysTame(c: Discipline, w: ObjectTerm, r: ObjectTerm, depth: nat, n: nat)
    requires WitnessTame(c, w, n + 1) && ObjectTame(c, r, 0) && depth <= n
    ensures WitnessTame(c, SubstObject(w, r, depth), n)
  {
    if c.Closed? { SubstScoped(w, r, depth, n); } else { SubstClosed(w, r, depth); }
  }

  lemma {:induction false} SubstTame(c: Discipline, p: Prop, r: ObjectTerm, depth: nat, n: nat)
    requires PropTame(c, p, n + 1) && ObjectTame(c, r, 0) && depth <= n
    ensures PropTame(c, SubstProp(p, r, depth), n)
  {
    match p
    case Atom(_) =>
    case Impl(a, b) => SubstTame(c, a, r, depth, n); SubstTame(c, b, r, depth, n);
    case Prod(a, b) => SubstTame(c, a, r, depth, n); SubstTame(c, b, r, depth, n);
    case Sum(a, b) => SubstTame(c, a, r, depth, n); SubstTame(c, b, r, depth, n);
    case Eq(a, b) => ObjectStaysTame(c, a, r, depth, n); ObjectStaysTame(c, b, r, depth, n);
    case Exists(body) => SubstTame(c, body, r, depth + 1, n + 1);
    case Applied(_, args) =>
      forall i | 0 <= i < |args| ensures ObjectTame(c, SubstObject(args[i], r, depth), n) {
        ObjectStaysTame(c, args[i], r, depth, n);
      }
    case Realizes(w, x, y) =>
      WitnessStaysTame(c, w, r, depth, n); ObjectStaysTame(c, x, r, depth, n); ObjectStaysTame(c, y, r, depth, n);
    case Preserves(w, motive) =>
      WitnessStaysTame(c, w, r, depth, n);
      SubstTame(c, motive, r, depth, n + 1);
      if c.Isolated? {
        forall i | 0 <= i < n ensures !PropMentions(SubstProp(motive, r, depth), i) {
          PropMoves(motive, r, depth, i);
        }
      }
  }

  lemma {:induction false} IsolatedLeavesMotives(p: Prop, i: nat, n: nat)
    requires PropTame(Isolated, p, n) && i < n
    ensures !InMotive(p, i)
  {
    match p
    case Impl(a, b) => IsolatedLeavesMotives(a, i, n); IsolatedLeavesMotives(b, i, n);
    case Prod(a, b) => IsolatedLeavesMotives(a, i, n); IsolatedLeavesMotives(b, i, n);
    case Sum(a, b) => IsolatedLeavesMotives(a, i, n); IsolatedLeavesMotives(b, i, n);
    case Exists(body) => IsolatedLeavesMotives(body, i + 1, n + 1);
    case _ =>
  }

  lemma InstantiateTame(c: Discipline, pred: Prop, r: ObjectTerm)
    requires PropTame(c, pred, 1) && ObjectTame(c, r, 0)
    ensures PropTame(c, Instantiate(pred, r), 0) && CaptureFree(pred, r)
  {
    SubstTame(c, pred, r, 0, 0);
    if c.Isolated? { IsolatedLeavesMotives(pred, 0, 1); }
  }

  // ----- the rules -----

  lemma {:induction false} CheckTame(c: Discipline, k: Kernel, n: nat, d: nat, g: Gamma, t: TermKind, e: Prop)
    requires TermTame(c, t) && GammaTame(c, g) && PropTame(c, e, 0) && Check(Recursive, k, n, d, g, t, e).Done?
    ensures CheckCareful(NoneReserved, k, n, d, g, t, e)
    decreases t, 4
  {
    if t.Lam? && e.Impl? {
      CheckTame(c, k, n - 1, d - 1, g + [(t.varName, e.premise)], t.body, e.conclusion);
    } else {
      RuleTame(c, k, n - 1, d - 1, g, t, e);
    }
  }

  lemma {:induction false} RuleTame(c: Discipline, k: Kernel, n: nat, d: nat, g: Gamma, t: TermKind, e: Prop)
    requires TermTame(c, t) && GammaTame(c, g) && PropTame(c, e, 0) && CheckRule(Recursive, k, n, d, g, t, e).Done?
    ensures RuleCareful(NoneReserved, k, n, d, g, t, e)
    decreases t, 3
  {
    if t.Refl? && e.Eq? {
    } else if t.Pack? && e.Exists? {
      InstantiateTame(c, e.pred, t.wit);
      CheckTame(c, k, n, d, g, t.bodyProof, Instantiate(e.pred, t.wit));
    } else if t.Pair? && e.Prod? {
      assert CheckPair(Recursive, k, n, d, g, t, e).Done?;
      CheckTame(c, k, n, d, g, t.fst, e.first);
      CheckTame(c, k, Check(Recursive, k, n, d, g, t.fst, e.first).left, d, g, t.snd, e.second);
    } else if t.Inl? && e.Sum? {
      CheckTame(c, k, n, d, g, t.inner, e.leftCase);
    } else if t.Inr? && e.Sum? {
      CheckTame(c, k, n, d, g, t.inner, e.rightCase);
    } else if t.Case? {
      CaseTame(c, k, n, d, g, t, e);
    } else if (t.RealizesComp? || t.RealizesTensor?) && e.Realizes? {
      JoinTame(c, k, n, d, g, t, e);
    } else if !t.Unsupported? {
      InferTame(c, k, n, d, g, t);
    }
  }

  lemma {:induction false} CaseTame(c: Discipline, k: Kernel, n: nat, d: nat, g: Gamma, t: TermKind, e: Prop)
    requires TermTame(c, t) && GammaTame(c, g) && PropTame(c, e, 0) && t.Case? && CheckCase(Recursive, k, n, d, g, t, e).Done?
    ensures CaseCareful(NoneReserved, k, n, d, g, t, e)
    decreases t, 0
  {
    InferTame(c, k, n, d, g, t.discriminant);
    var o := Infer(Recursive, k, n, d, g, t.discriminant);
    CheckTame(c, k, o.left, d, g + [(t.leftVar, o.value.leftCase)], t.leftBody, e);
    var o2 := Check(Recursive, k, o.left, d, g + [(t.leftVar, o.value.leftCase)], t.leftBody, e);
    CheckTame(c, k, o2.left, d, g + [(t.rightVar, o.value.rightCase)], t.rightBody, e);
  }

  lemma {:induction false} JoinTame(c: Discipline, k: Kernel, n: nat, d: nat, g: Gamma, t: TermKind, e: Prop)
    requires TermTame(c, t) && GammaTame(c, g) && PropTame(c, e, 0)
    requires (t.RealizesComp? || t.RealizesTensor?) && e.Realizes? && CheckRule(Recursive, k, n, d, g, t, e).Done?
    ensures JoinCareful(NoneReserved, k, n, d, g, t, Some(e.wit))
    decreases t, 0
  {
    InferTame(c, k, n, d, g, t.left);
    var p := Infer(Recursive, k, n, d, g, t.left);
    InferTame(c, k, p.left, d, g, t.right);
    var q := Infer(Recursive, k, p.left, d, g, t.right);
    var built := Joined(t.RealizesComp?, p.value.wit, q.value.wit);
    NoneReservedIn(built);
    NoneReservedIn(e.wit);
    assert ObjectScoped(built, 0);
  }

  lemma {:induction false} InferTame(c: Discipline, k: Kernel, n: nat, d: nat, g: Gamma, t: TermKind)
    requires TermTame(c, t) && GammaTame(c, g) && Infer(Recursive, k, n, d, g, t).Done?
    ensures InferCareful(NoneReserved, k, n, d, g, t) && PropTame(c, Infer(Recursive, k, n, d, g, t).value, 0)
    decreases t, 2
  {
    InferRuleTame(c, k, n - 1, d - 1, g, t);
  }

  lemma {:induction false} InferRuleTame(c: Discipline, k: Kernel, n: nat, d: nat, g: Gamma, t: TermKind)
    requires TermTame(c, t) && GammaTame(c, g) && InferRule(Recursive, k, n, d, g, t).Done?
    ensures InferRuleCareful(NoneReserved, k, n, d, g, t) && PropTame(c, InferRule(Recursive, k, n, d, g, t).value, 0)
    decreases t, 1
  {
    match t
    case Hyp(v) => LookupTame(c, g, v);
    case Subst(_, _, _) => SubstRuleTame(c, k, n, d, g, t);
    case Pres(_, _, _, _) => PresTame(c, k, n, d, g, t);
    case App(_, _) => AppTame(c, k, n, d, g, t);
    case Proj1(inner) => InferTame(c, k, n, d, g, inner);
    case Proj2(inner) => InferTame(c, k, n, d, g, inner);
    case Pair(_, _) => PairTame(c, k, n, d, g, t);
    case RealizesComp(_, _) => JoinInfersTame(c, k, n, d, g, t);
    case RealizesTensor(_, _) => JoinInfersTame(c, k, n, d, g, t);
    case _ =>
  }

  lemma {:induction false} LookupTame(c: Discipline, g: Gamma, v: Var)
    requires GammaTame(c, g) && Lookup(g, v).Some?
    ensures PropTame(c, Lookup(g, v).value, 0)
    decreases |g|
  {
    if v.Named? && g[|g| - 1].0 != Some(v.name) {
      LookupTame(c, g[..|g| - 1], v);
    }
  }

  lemma {:induction false} SubstRuleTame(c: Discipline, k: Kernel, n: nat, d: nat, g: Gamma, t: TermKind)
    requires TermTame(c, t) && GammaTame(c, g) && t.Subst? && InferSubst(Recursive, k, n, d, g, t).Done?
    ensures SubstCareful(NoneReserved, k, n, d, g, t) && PropTame(c, InferSubst(Recursive, k, n, d, g, t).value, 0)
    decreases t, 0
  {
    InferTame(c, k, n, d, g, t.eq);
    var o := Infer(Recursive, k, n, d, g, t.eq);
    InstantiateTame(c, t.motive, o.value.lhs);
    InstantiateTame(c, t.motive, o.value.rhs);
    CheckTame(c, k, o.left, d, g, t.sub, Instantiate(t.motive, o.value.lhs));
  }

  lemma {:induction false} PresTame(c: Discipline, k: Kernel, n: nat, d: nat, g: Gamma, t: TermKind)
    requires TermTame(c, t) && GammaTame(c, g) && t.Pres? && InferPres(Recursive, k, n, d, g, t).Done?
    ensures PresCareful(NoneReserved, k, n, d, g, t) && PropTame(c, InferPres(Recursive, k, n, d, g, t).value, 0)
    decreases t, 0
  {
    InferTame(c, k, n, d, g, t.realizes);
    var o := Infer(Recursive, k, n, d, g, t.realizes);
    InstantiateTame(c, t.motive, o.value.src);
    InstantiateTame(c, t.motive, o.value.dst);
    CheckTame(c, k, o.left, d, g, t.preserves, Preserves(o.value.wit, t.motive));
    var o2 := Check(Recursive, k, o.left, d, g, t.preserves, Preserves(o.value.wit, t.motive));
    CheckTame(c, k, o2.left, d, g, t.sub, Instantiate(t.motive, o.value.src));
  }

  lemma {:induction false} AppTame(c: Discipline, k: Kernel, n: nat, d: nat, g: Gamma, t: TermKind)
    requires TermTame(c, t) && GammaTame(c, g) && t.App? && InferApp(Recursive, k, n, d, g, t).Done?
    ensures InferRuleCareful(NoneReserved, k, n, d, g, t) && PropTame(c, InferApp(Recursive, k, n, d, g, t).value, 0)
    decreases t, 0
  {
    InferTame(c, k, n, d, g, t.function_);
    var o := Infer(Recursive, k, n, d, g, t.function_);
    CheckTame(c, k, o.left, d, g, t.argument, o.value.premise);
  }

  lemma {:induction false} PairTame(c: Discipline, k: Kernel, n: nat, d: nat, g: Gamma, t: TermKind)
    requires TermTame(c, t) && GammaTame(c, g) && t.Pair? && InferPair(Recursive, k, n, d, g, t).Done?
    ensures InferRuleCareful(NoneReserved, k, n, d, g, t) && PropTame(c, InferPair(Recursive, k, n, d, g, t).value, 0)
    decreases t, 0
  {
    InferTame(c, k, n, d, g, t.fst);
    InferTame(c, k, Infer(Recursive, k, n, d, g, t.fst).left, d, g, t.snd);
  }

  lemma {:induction false} JoinInfersTame(c: Discipline, k: Kernel, n: nat, d: nat, g: Gamma, t: TermKind)
    requires TermTame(c, t) && GammaTame(c, g) && (t.RealizesComp? || t.RealizesTensor?) && InferRule(Recursive, k, n, d, g, t).Done?
    ensures JoinCareful(NoneReserved, k, n, d, g, t, None) && PropTame(c, InferRule(Recursive, k, n, d, g, t).value, 0)
    decreases t, 0
  {
    InferTame(c, k, n, d, g, t.left);
    InferTame(c, k, Infer(Recursive, k, n, d, g, t.left).left, d, g, t.right);
  }

  /** Soundness for whoever only looks at the term and the goal. */
  lemma TameAcceptanceSound<D(!new)>(c: Discipline, k: Kernel, m: Model<D>, context: Digest, p: Prop, term: ExplicitTerm, b: Budget)
    requires Admissible(k, m)
    requires TermTame(c, term.kind) && PropTame(c, p, 0)
    requires Acceptance(Unrolled, k, context, p, term, b).Accepted?
    ensures Holds(m, [], p)
  {
    TameIsCareful(c, k, context, p, term, b);
    AcceptanceSound(NoneReserved, k, m, context, p, term, b);
  }

  lemma TameIsCareful(c: Discipline, k: Kernel, context: Digest, p: Prop, term: ExplicitTerm, b: Budget)
    requires TermTame(c, term.kind) && PropTame(c, p, 0)
    requires Acceptance(Unrolled, k, context, p, term, b).Accepted?
    ensures AcceptanceCareful(NoneReserved, k, p, term, b)
  {
    KernelRefinement.CheckAgrees(k, b.maxSteps, b.maxDepth, [], term.kind, p);
    CheckTame(c, k, b.maxSteps, b.maxDepth, [], term.kind, p);
  }

}
