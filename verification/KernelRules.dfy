/** The typing rules of the acceptance checker as functions: the budget comes in
    as the steps and the depth left, and every outcome carries the steps left. */
module KernelRules {
  import opened Options
  import opened KernelTerms

  datatype Rejection =
    | TypeMismatch
    | HypothesisNotFound
    | ProofGoalNotReached
    | UnknownPrimitiveRelation
    | PrimitiveRowNotFound

  datatype ExhaustedBy = StepLimit | DepthLimit

  datatype Verdict =
    | Accepted(certificateId: Digest)
    | Rejected(reason: Rejection)
    | Malformed
    | UnsupportedTerm(construct: string)
    | ContextMismatch(claimed: Digest, termContext: Digest)
    | ResourceExhausted(limit: ExhaustedBy)

  /** A verdict a rule can fail with. */
  type Failure = v: Verdict | !v.Accepted? witness Malformed

  datatype Outcome<+T> = Done(value: T, left: nat) | Fail(verdict: Failure, left: nat) {
    predicate IsFailure() { Fail? }
    function PropagateFailure<U>(): Outcome<U> requires Fail? { Fail(verdict, left) }
    function Extract(): (T, nat) requires Done? { (value, left) }
  }

  /** How a composition node is synthesised: by the recursive rule, or by the
      loop that walks a right-nested chain and tests each middle endpoint as
      soon as it is known. */
  datatype CompRule = Recursive | Unrolled

  const MISMATCH: Failure := Rejected(TypeMismatch)

  function Lookup(g: Gamma, v: Var): Option<Prop> {
    match v
    case Index(i) => if i < |g| then Some(g[|g| - 1 - i].1) else None
    case Named(name) =>
      if |g| == 0 then None
      else if g[|g| - 1].0 == Some(name) then Some(g[|g| - 1].1)
      else Lookup(g[..|g| - 1], v)
  }

  /** Some hypothesis already carries this (optional) name. */
  predicate NameTaken(g: Gamma, name: Option<string>) {
    name.Some? && exists i :: 0 <= i < |g| && g[i].0 == name
  }

  function Eigenvariable(k: Kernel, objVar: Option<string>, steps: nat): ObjectTerm {
    Const(k.eigenvar(if objVar.Some? then objVar.value else "anon", steps))
  }

  function InferPrimRealizes(k: Kernel, n: nat, relation: Digest, src: ObjectTerm, dst: ObjectTerm): Outcome<Prop> {
    var resolved := k.resolve(relation);
    if resolved.None? then Fail(Rejected(UnknownPrimitiveRelation), n)
    else if !(src.Const? && dst.Const?) then Fail(MISMATCH, n)
    else if !Admits(resolved.value, src.id, dst.id) then Fail(Rejected(PrimitiveRowNotFound), n)
    else Done(Realizes(Const(resolved.value.generator), src, dst), n)
  }

  /** The synthesis fallback: what was inferred must be the goal itself. */
  function Compare(inferred: Outcome<Prop>, e: Prop): Outcome<()> {
    var (p, n) :- inferred;
    if p == e then Done((), n) else Fail(MISMATCH, n)
  }

  /** Checking, with (→I) as its recursive rule. */
  function Check(m: CompRule, k: Kernel, n: nat, d: nat, g: Gamma, t: TermKind, e: Prop): Outcome<()>
    decreases t, 4
  {
    if n == 0 then Fail(ResourceExhausted(StepLimit), 0)
    else if d == 0 then Fail(ResourceExhausted(DepthLimit), n - 1)
    else if t.Lam? && e.Impl? then Check(m, k, n - 1, d - 1, g + [(t.varName, e.premise)], t.body, e.conclusion)
    else CheckRule(m, k, n - 1, d - 1, g, t, e)
  }

  function CheckRule(m: CompRule, k: Kernel, n: nat, d: nat, g: Gamma, t: TermKind, e: Prop): Outcome<()>
    decreases t, 3
  {
    if t.Refl? && e.Eq? then
      if e.lhs == e.rhs && e.lhs == t.term then Done((), n) else Fail(MISMATCH, n)
    else if t.Pack? && e.Exists? then Check(m, k, n, d, g, t.bodyProof, Instantiate(e.pred, t.wit))
    else if t.Unpack? then CheckUnpack(m, k, n, d, g, t, e)
    else if t.Pair? && e.Prod? then CheckPair(m, k, n, d, g, t, e)
    else if t.Inl? && e.Sum? then Check(m, k, n, d, g, t.inner, e.leftCase)
    else if t.Inr? && e.Sum? then Check(m, k, n, d, g, t.inner, e.rightCase)
    else if t.Case? then CheckCase(m, k, n, d, g, t, e)
    else if t.RealizesComp? && e.Realizes? then CheckComp(m, k, n, d, g, t, e)
    else if t.RealizesTensor? && e.Realizes? then CheckTensor(m, k, n, d, g, t, e)
    else if t.Unsupported? then Fail(UnsupportedTerm(t.message), n)
    else Compare(Infer(m, k, n, d, g, t), e)
  }

  function CheckPair(m: CompRule, k: Kernel, n: nat, d: nat, g: Gamma, t: TermKind, e: Prop): Outcome<()>
    requires t.Pair? && e.Prod?
    decreases t, 0
  {
    var (_, n1) :- Check(m, k, n, d, g, t.fst, e.first);
    Check(m, k, n1, d, g, t.snd, e.second)
  }

  function CheckUnpack(m: CompRule, k: Kernel, n: nat, d: nat, g: Gamma, t: TermKind, e: Prop): Outcome<()>
    requires t.Unpack?
    decreases t, 0
  {
    var (p, n1) :- Infer(m, k, n, d, g, t.scrutinee);
    if !p.Exists? then Fail(MISMATCH, n1)
    else if NameTaken(g, t.proofVar) then Fail(Malformed, n1)
    else
      var x := Eigenvariable(k, t.objVar, n1);
      if PropContains(e, x) then Fail(Malformed, n1)
      else Check(m, k, n1, d, g + [(t.proofVar, Instantiate(p.pred, x))], t.body, e)
  }

  function CheckCase(m: CompRule, k: Kernel, n: nat, d: nat, g: Gamma, t: TermKind, e: Prop): Outcome<()>
    requires t.Case?
    decreases t, 0
  {
    var (p, n1) :- Infer(m, k, n, d, g, t.discriminant);
    if !p.Sum? then Fail(MISMATCH, n1)
    else if NameTaken(g, t.leftVar) || NameTaken(g, t.rightVar) then Fail(Malformed, n1)
    else
      var (_, n2) :- Check(m, k, n1, d, g + [(t.leftVar, p.leftCase)], t.leftBody, e);
      Check(m, k, n2, d, g + [(t.rightVar, p.rightCase)], t.rightBody, e)
  }

  function CheckComp(m: CompRule, k: Kernel, n: nat, d: nat, g: Gamma, t: TermKind, e: Prop): Outcome<()>
    requires t.RealizesComp? && e.Realizes?
    decreases t, 0
  {
    var (p, n1) :- Infer(m, k, n, d, g, t.left);
    if !p.Realizes? then Fail(MISMATCH, n1)
    else
      var (q, n2) :- Infer(m, k, n1, d, g, t.right);
      if q.Realizes? && p.src == e.src && p.dst == q.src && q.dst == e.dst
         && WitnessDigest(k, e.wit) == k.compose(WitnessDigest(k, q.wit), WitnessDigest(k, p.wit))
      then Done((), n2)
      else Fail(MISMATCH, n2)
  }

  function CheckTensor(m: CompRule, k: Kernel, n: nat, d: nat, g: Gamma, t: TermKind, e: Prop): Outcome<()>
    requires t.RealizesTensor? && e.Realizes?
    decreases t, 0
  {
    var (p, n1) :- Infer(m, k, n, d, g, t.left);
    if !p.Realizes? then Fail(MISMATCH, n1)
    else
      var (q, n2) :- Infer(m, k, n1, d, g, t.right);
      if q.Realizes? && e.src == Tensor(p.src, q.src) && e.dst == Tensor(p.dst, q.dst)
         && WitnessDigest(k, e.wit) == k.tensor(WitnessDigest(k, p.wit), WitnessDigest(k, q.wit))
      then Done((), n2)
      else Fail(MISMATCH, n2)
  }

  function Infer(m: CompRule, k: Kernel, n: nat, d: nat, g: Gamma, t: TermKind): Outcome<Prop>
    decreases t, 2
  {
    if n == 0 then Fail(ResourceExhausted(StepLimit), 0)
    else if d == 0 then Fail(ResourceExhausted(DepthLimit), n - 1)
    else InferRule(m, k, n - 1, d - 1, g, t)
  }

  function InferRule(m: CompRule, k: Kernel, n: nat, d: nat, g: Gamma, t: TermKind): Outcome<Prop>
    decreases t, 1
  {
    match t
    case Hyp(v) =>
      var found := Lookup(g, v);
      if found.Some? then Done(found.value, n) else Fail(Rejected(HypothesisNotFound), n)
    case Refl(o) => Done(Eq(o, o), n)
    case Subst(_, _, _) => InferSubst(m, k, n, d, g, t)
    case Unpack(_, _, _, _) => InferUnpack(m, k, n, d, g, t)
    case Pres(_, _, _, _) => InferPres(m, k, n, d, g, t)
    case App(_, _) => InferApp(m, k, n, d, g, t)
    case Proj1(_) => InferProj(m, k, n, d, g, t)
    case Proj2(_) => InferProj(m, k, n, d, g, t)
    case Pair(_, _) => InferPair(m, k, n, d, g, t)
    case RealizesComp(_, _) => InferComp(m, k, n, d, g, t)
    case RealizesTensor(_, _) => InferTensor(m, k, n, d, g, t)
    case PrimRealizes(relation, src, dst) => InferPrimRealizes(k, n, relation, src, dst)
    case Unsupported(message) => Fail(UnsupportedTerm(message), n)
    case _ => Fail(Rejected(ProofGoalNotReached), n)
  }

  function InferApp(m: CompRule, k: Kernel, n: nat, d: nat, g: Gamma, t: TermKind): Outcome<Prop>
    requires t.App?
    decreases t, 0
  {
    var (p, n1) :- Infer(m, k, n, d, g, t.function_);
    if !p.Impl? then Fail(MISMATCH, n1)
    else
      var (_, n2) :- Check(m, k, n1, d, g, t.argument, p.premise);
      Done(p.conclusion, n2)
  }

  function InferProj(m: CompRule, k: Kernel, n: nat, d: nat, g: Gamma, t: TermKind): Outcome<Prop>
    requires t.Proj1? || t.Proj2?
    decreases t, 0
  {
    var (p, n1) :- Infer(m, k, n, d, g, t.inner);
    if p.Prod? then Done(if t.Proj1? then p.first else p.second, n1) else Fail(MISMATCH, n1)
  }

  function InferPair(m: CompRule, k: Kernel, n: nat, d: nat, g: Gamma, t: TermKind): Outcome<Prop>
    requires t.Pair?
    decreases t, 0
  {
    var (p, n1) :- Infer(m, k, n, d, g, t.fst);
    var (q, n2) :- Infer(m, k, n1, d, g, t.snd);
    Done(Prod(p, q), n2)
  }

  function InferSubst(m: CompRule, k: Kernel, n: nat, d: nat, g: Gamma, t: TermKind): Outcome<Prop>
    requires t.Subst?
    decreases t, 0
  {
    var (p, n1) :- Infer(m, k, n, d, g, t.eq);
    if !p.Eq? then Fail(MISMATCH, n1)
    else
      var (_, n2) :- Check(m, k, n1, d, g, t.sub, Instantiate(t.motive, p.lhs));
      Done(Instantiate(t.motive, p.rhs), n2)
  }

  function InferUnpack(m: CompRule, k: Kernel, n: nat, d: nat, g: Gamma, t: TermKind): Outcome<Prop>
    requires t.Unpack?
    decreases t, 0
  {
    var (p, n1) :- Infer(m, k, n, d, g, t.scrutinee);
    if !p.Exists? then Fail(MISMATCH, n1)
    else if NameTaken(g, t.proofVar) then Fail(Malformed, n1)
    else
      var x := Eigenvariable(k, t.objVar, n1);
      var (q, n2) :- Infer(m, k, n1, d, g + [(t.proofVar, Instantiate(p.pred, x))], t.body);
      if PropContains(q, x) then Fail(Malformed, n2) else Done(q, n2)
  }

  function InferPres(m: CompRule, k: Kernel, n: nat, d: nat, g: Gamma, t: TermKind): Outcome<Prop>
    requires t.Pres?
    decreases t, 0
  {
    var (p, n1) :- Infer(m, k, n, d, g, t.realizes);
    if !p.Realizes? then Fail(MISMATCH, n1)
    else
      var (_, n2) :- Check(m, k, n1, d, g, t.preserves, Preserves(p.wit, t.motive));
      var (_, n3) :- Check(m, k, n2, d, g, t.sub, Instantiate(t.motive, p.src));
      Done(Instantiate(t.motive, p.dst), n3)
  }

  /** Two realizations joined at a shared middle endpoint. */
  function Join(p: Prop, q: Prop, n: nat): Outcome<Prop>
    requires p.Realizes?
  {
    if !q.Realizes? then Fail(MISMATCH, n)
    else if p.dst != q.src then Fail(MISMATCH, n)
    else Done(Realizes(Compose(q.wit, p.wit), p.src, q.dst), n)
  }

  function InferComp(m: CompRule, k: Kernel, n: nat, d: nat, g: Gamma, t: TermKind): Outcome<Prop>
    requires t.RealizesComp?
    decreases t, 0
  {
    var (p, n1) :- Infer(m, k, n, d, g, t.left);
    if !p.Realizes? then Fail(MISMATCH, n1)
    else
      var (q, n2) :- if m.Unrolled? && t.right.RealizesComp?
                     then Spine(m, k, n1, d, g, p.dst, t.right)
                     else Infer(m, k, n1, d, g, t.right);
      Join(p, q, n2)
  }

  /** The rest `t` of a right-nested chain whose left part ends at `y`: one step
      and one depth unit for the node, then its left component, whose source
      must be `y` before anything further right is looked at. */
  function Spine(m: CompRule, k: Kernel, n: nat, d: nat, g: Gamma, y: ObjectTerm, t: TermKind): Outcome<Prop>
    requires t.RealizesComp?
    decreases t, 0
  {
    if n == 0 then Fail(ResourceExhausted(StepLimit), 0)
    else if d == 0 then Fail(ResourceExhausted(DepthLimit), n - 1)
    else
      var (p, n1) :- Infer(m, k, n - 1, d - 1, g, t.left);
      if !p.Realizes? then Fail(MISMATCH, n1)
      else if y != p.src then Fail(MISMATCH, n1)
      else
        var (q, n2) :- if t.right.RealizesComp? then Spine(m, k, n1, d - 1, g, p.dst, t.right)
                       else Infer(m, k, n1, d - 1, g, t.right);
        Join(p, q, n2)
  }

  function InferTensor(m: CompRule, k: Kernel, n: nat, d: nat, g: Gamma, t: TermKind): Outcome<Prop>
    requires t.RealizesTensor?
    decreases t, 0
  {
    var (p, n1) :- Infer(m, k, n, d, g, t.left);
    if !p.Realizes? then Fail(MISMATCH, n1)
    else
      var (q, n2) :- Infer(m, k, n1, d, g, t.right);
      if !q.Realizes? then Fail(MISMATCH, n2)
      else Done(Realizes(Tensor(p.wit, q.wit), Tensor(p.src, q.src), Tensor(p.dst, q.dst)), n2)
  }

  function Max(a: nat, b: nat): nat {
    if a >= b then a else b
  }

  datatype Budget = Budget(maxSteps: nat, maxDepth: nat)

  /** The kernel's entry point. */
  function Acceptance(m: CompRule, k: Kernel, context: Digest, p: Prop, term: ExplicitTerm, b: Budget): Verdict {
    if term.context != context then ContextMismatch(context, term.context)
    else
      var out := Check(m, k, b.maxSteps, b.maxDepth, [], term.kind, p);
      if out.Done? then Accepted(k.certificateId(context, p, term)) else out.verdict
  }
}
