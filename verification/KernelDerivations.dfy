/** The typing rules as derivations, without budgets and without the checker, and
    that the checker accepts exactly what can be derived, in exactly as many
    steps as the derivation has, each on a budget that reaches that far. */
module KernelDerivations {
  import opened Options
  import opened KernelTerms
  import opened KernelRules
  import KernelRefinement

  /** Derivations of `g ⊢ t ⇒ p`: the type of the term is found from the term. */
  datatype Synthesis =
    | Assumed(at: nat)
    | Reflected
    | Rewritten(equation: Synthesis, lhs: ObjectTerm, rhs: ObjectTerm, premise: Checking)
    | Carried(realized: Synthesis, wit: ObjectTerm, src: ObjectTerm, dst: ObjectTerm, preserved: Checking, premise: Checking)
    | Fed(function_: Synthesis, domain: Prop, argument: Checking)
    | Taken(pair: Synthesis, other: Prop)
    | Coupled(first: Synthesis, p: Prop, second: Synthesis, q: Prop)
    | Chained(first: Synthesis, p: Prop, second: Synthesis, q: Prop)
    | Stacked(first: Synthesis, p: Prop, second: Synthesis, q: Prop)
    | Listed
    | OpenedFor(scrutinee: Synthesis, pred: Prop, eigen: ObjectTerm, rest: Synthesis)

  /** Derivations of `g ⊢ t ⇐ e`: the term is checked against a goal. */
  datatype Checking =
    | Reflexive
    | Abstracted(body: Checking)
    | Packed(body: Checking)
    | Paired(left: Checking, right: Checking)
    | InLeft(inner: Checking)
    | InRight(inner: Checking)
    | Split(discriminant: Synthesis, l: Prop, r: Prop, left: Checking, right: Checking)
    | ChainedTo(first: Synthesis, p: Prop, second: Synthesis, q: Prop)
    | StackedTo(first: Synthesis, p: Prop, second: Synthesis, q: Prop)
    | Opened(scrutinee: Synthesis, pred: Prop, eigen: ObjectTerm, goal: Checking)
    | Found(synthesis: Synthesis)

  /** A variable denotes the hypothesis it counts to, or the innermost of its name. */
  predicate Denotes(g: Gamma, v: Var, at: nat) {
    at < |g| &&
    match v
    case Index(i) => at + i + 1 == |g|
    case Named(name) => g[at].0 == Some(name) && forall j :: at < j < |g| ==> g[j].0 != Some(name)
  }

  /** No hypothesis in force has this name. */
  predicate NewName(g: Gamma, name: Option<string>) {
    name.Some? ==> forall i :: 0 <= i < |g| ==> g[i].0 != name
  }

  predicate RegistryRow(k: Kernel, relation: Digest, src: ObjectTerm, dst: ObjectTerm, p: Prop) {
    && k.resolve(relation).Some? && src.Const? && dst.Const?
    && (src.id, dst.id) in k.resolve(relation).value.rows
    && p == Realizes(Const(k.resolve(relation).value.generator), src, dst)
  }

  /** The rules that look at the goal; any other term is checked by finding its
      type. */
  predicate LooksAtGoal(t: TermKind, e: Prop) {
    || (t.Lam? && e.Impl?) || (t.Refl? && e.Eq?) || (t.Pack? && e.Exists?) || t.Unpack?
    || (t.Pair? && e.Prod?) || ((t.Inl? || t.Inr?) && e.Sum?) || t.Case?
    || ((t.RealizesComp? || t.RealizesTensor?) && e.Realizes?)
  }

  predicate Synthesizes(k: Kernel, g: Gamma, t: TermKind, p: Prop, s: Synthesis)
    decreases s
  {
    match s
    case Assumed(at) => t.Hyp? && Denotes(g, t.hyp, at) && p == g[at].1
    case Reflected => t.Refl? && p == Eq(t.term, t.term)
    case Rewritten(equation, lhs, rhs, premise) =>
      && t.Subst? && p == Instantiate(t.motive, rhs)
      && Synthesizes(k, g, t.eq, Eq(lhs, rhs), equation)
      && Checks(k, g, t.sub, Instantiate(t.motive, lhs), premise)
    case Carried(realized, wit, src, dst, preserved, premise) =>
      && t.Pres? && p == Instantiate(t.motive, dst)
      && Synthesizes(k, g, t.realizes, Realizes(wit, src, dst), realized)
      && Checks(k, g, t.preserves, Preserves(wit, t.motive), preserved)
      && Checks(k, g, t.sub, Instantiate(t.motive, src), premise)
    case Fed(function_, domain, argument) =>
      t.App? && Synthesizes(k, g, t.function_, Impl(domain, p), function_) && Checks(k, g, t.argument, domain, argument)
    case Taken(pair, other) =>
      || (t.Proj1? && Synthesizes(k, g, t.inner, Prod(p, other), pair))
      || (t.Proj2? && Synthesizes(k, g, t.inner, Prod(other, p), pair))
    case Coupled(first, a, second, b) =>
      t.Pair? && p == Prod(a, b) && Synthesizes(k, g, t.fst, a, first) && Synthesizes(k, g, t.snd, b, second)
    case Chained(first, a, second, b) =>
      && t.RealizesComp? && Synthesizes(k, g, t.left, a, first) && Synthesizes(k, g, t.right, b, second)
      && a.Realizes? && b.Realizes? && a.dst == b.src && p == Realizes(Compose(b.wit, a.wit), a.src, b.dst)
    case Stacked(first, a, second, b) =>
      && t.RealizesTensor? && Synthesizes(k, g, t.left, a, first) && Synthesizes(k, g, t.right, b, second)
      && a.Realizes? && b.Realizes? && p == Realizes(Tensor(a.wit, b.wit), Tensor(a.src, b.src), Tensor(a.dst, b.dst))
    case Listed => t.PrimRealizes? && RegistryRow(k, t.relation, t.src, t.dst, p)
    case OpenedFor(scrutinee, pred, eigen, rest) =>
      && t.Unpack? && Synthesizes(k, g, t.scrutinee, Exists(pred), scrutinee)
      && NewName(g, t.proofVar) && !PropContains(p, eigen)
      && Synthesizes(k, g + [(t.proofVar, Instantiate(pred, eigen))], t.body, p, rest)
  }

  predicate Checks(k: Kernel, g: Gamma, t: TermKind, e: Prop, c: Checking)
    decreases c
  {
    match c
    case Reflexive => t.Refl? && e == Eq(t.term, t.term)
    case Abstracted(body) => t.Lam? && e.Impl? && Checks(k, g + [(t.varName, e.premise)], t.body, e.conclusion, body)
    case Packed(body) => t.Pack? && e.Exists? && Checks(k, g, t.bodyProof, Instantiate(e.pred, t.wit), body)
    case Paired(left, right) =>
      t.Pair? && e.Prod? && Checks(k, g, t.fst, e.first, left) && Checks(k, g, t.snd, e.second, right)
    case InLeft(inner) => t.Inl? && e.Sum? && Checks(k, g, t.inner, e.leftCase, inner)
    case InRight(inner) => t.Inr? && e.Sum? && Checks(k, g, t.inner, e.rightCase, inner)
    case Split(discriminant, l, r, left, right) =>
      && t.Case? && Synthesizes(k, g, t.discriminant, Sum(l, r), discriminant)
      && NewName(g, t.leftVar) && NewName(g, t.rightVar)
      && Checks(k, g + [(t.leftVar, l)], t.leftBody, e, left) && Checks(k, g + [(t.rightVar, r)], t.rightBody, e, right)
    case ChainedTo(first, a, second, b) =>
      && t.RealizesComp? && e.Realizes? && Synthesizes(k, g, t.left, a, first) && Synthesizes(k, g, t.right, b, second)
      && a.Realizes? && b.Realizes? && a.src == e.src && a.dst == b.src && b.dst == e.dst
      && WitnessDigest(k, e.wit) == k.compose(WitnessDigest(k, b.wit), WitnessDigest(k, a.wit))
    case StackedTo(first, a, second, b) =>
      && t.RealizesTensor? && e.Realizes? && Synthesizes(k, g, t.left, a, first) && Synthesizes(k, g, t.right, b, second)
      && a.Realizes? && b.Realizes? && e.src == Tensor(a.src, b.src) && e.dst == Tensor(a.dst, b.dst)
      && WitnessDigest(k, e.wit) == k.tensor(WitnessDigest(k, a.wit), WitnessDigest(k, b.wit))
    case Opened(scrutinee, pred, eigen, goal) =>
      && t.Unpack? && Synthesizes(k, g, t.scrutinee, Exists(pred), scrutinee)
      && NewName(g, t.proofVar) && !PropContains(e, eigen)
      && Checks(k, g + [(t.proofVar, Instantiate(pred, eigen))], t.body, e, goal)
    case Found(synthesis) => !LooksAtGoal(t, e) && Synthesizes(k, g, t, e, synthesis)
  }

  // ----- what a derivation costs -----

  /** One step a rule. */
  function Steps(s: Synthesis): (n: nat)
    ensures n >= 1
    decreases s
  {
    match s
    case Assumed(_) => 1
    case Reflected => 1
    case Rewritten(equation, _, _, premise) => 1 + Steps(equation) + GoalSteps(premise)
    case Carried(realized, _, _, _, preserved, premise) => 1 + Steps(realized) + GoalSteps(preserved) + GoalSteps(premise)
    case Fed(function_, _, argument) => 1 + Steps(function_) + GoalSteps(argument)
    case Taken(pair, _) => 1 + Steps(pair)
    case Coupled(first, _, second, _) => 1 + Steps(first) + Steps(second)
    case Chained(first, _, second, _) => 1 + Steps(first) + Steps(second)
    case Stacked(first, _, second, _) => 1 + Steps(first) + Steps(second)
    case Listed => 1
    case OpenedFor(scrutinee, _, _, rest) => 1 + Steps(scrutinee) + Steps(rest)
  }

  function GoalSteps(c: Checking): (n: nat)
    ensures n >= 1
    decreases c
  {
    match c
    case Reflexive => 1
    case Abstracted(body) => 1 + GoalSteps(body)
    case Packed(body) => 1 + GoalSteps(body)
    case Paired(left, right) => 1 + GoalSteps(left) + GoalSteps(right)
    case InLeft(inner) => 1 + GoalSteps(inner)
    case InRight(inner) => 1 + GoalSteps(inner)
    case Split(discriminant, _, _, left, right) => 1 + Steps(discriminant) + GoalSteps(left) + GoalSteps(right)
    case ChainedTo(first, _, second, _) => 1 + Steps(first) + Steps(second)
    case StackedTo(first, _, second, _) => 1 + Steps(first) + Steps(second)
    case Opened(scrutinee, _, _, goal) => 1 + Steps(scrutinee) + GoalSteps(goal)
    case Found(synthesis) => 1 + Steps(synthesis)
  }

  /** One depth unit a level. */
  function Levels(s: Synthesis): (n: nat)
    ensures n >= 1
    decreases s
  {
    match s
    case Assumed(_) => 1
    case Reflected => 1
    case Rewritten(equation, _, _, premise) => 1 + Max(Levels(equation), GoalLevels(premise))
    case Carried(realized, _, _, _, preserved, premise) =>
      1 + Max(Levels(realized), Max(GoalLevels(preserved), GoalLevels(premise)))
    case Fed(function_, _, argument) => 1 + Max(Levels(function_), GoalLevels(argument))
    case Taken(pair, _) => 1 + Levels(pair)
    case Coupled(first, _, second, _) => 1 + Max(Levels(first), Levels(second))
    case Chained(first, _, second, _) => 1 + Max(Levels(first), Levels(second))
    case Stacked(first, _, second, _) => 1 + Max(Levels(first), Levels(second))
    case Listed => 1
    case OpenedFor(scrutinee, _, _, rest) => 1 + Max(Levels(scrutinee), Levels(rest))
  }

  function GoalLevels(c: Checking): (n: nat)
    ensures n >= 1
    decreases c
  {
    match c
    case Reflexive => 1
    case Abstracted(body) => 1 + GoalLevels(body)
    case Packed(body) => 1 + GoalLevels(body)
    case Paired(left, right) => 1 + Max(GoalLevels(left), GoalLevels(right))
    case InLeft(inner) => 1 + GoalLevels(inner)
    case InRight(inner) => 1 + GoalLevels(inner)
    case Split(discriminant, _, _, left, right) => 1 + Max(Levels(discriminant), Max(GoalLevels(left), GoalLevels(right)))
    case ChainedTo(first, _, second, _) => 1 + Max(Levels(first), Levels(second))
    case StackedTo(first, _, second, _) => 1 + Max(Levels(first), Levels(second))
    case Opened(scrutinee, _, _, goal) => 1 + Max(Levels(scrutinee), GoalLevels(goal))
    case Found(synthesis) => 1 + Levels(synthesis)
  }

  // ----- which eigenvariables a run chooses -----

  /** The eigenvariable is the one named after the steps left, if any are. */
  predicate NamedAfter(k: Kernel, objVar: Option<string>, eigen: ObjectTerm, left: int) {
    left >= 0 ==> eigen == Eigenvariable(k, objVar, left)
  }

  /** Every `Unpack` is derived for the eigenvariable that is chosen when the rules
      are applied from left to right with `n` steps left at the start. Without
      `Unpack` this says nothing. */
  predicate Timed(k: Kernel, n: int, t: TermKind, s: Synthesis)
    decreases s
  {
    match s
    case Rewritten(equation, _, _, premise) =>
      t.Subst? ==> Timed(k, n - 1, t.eq, equation) && GoalTimed(k, n - 1 - Steps(equation), t.sub, premise)
    case Carried(realized, _, _, _, preserved, premise) =>
      t.Pres? ==>
        && Timed(k, n - 1, t.realizes, realized)
        && GoalTimed(k, n - 1 - Steps(realized), t.preserves, preserved)
        && GoalTimed(k, n - 1 - Steps(realized) - GoalSteps(preserved), t.sub, premise)
    case Fed(function_, _, argument) =>
      t.App? ==> Timed(k, n - 1, t.function_, function_) && GoalTimed(k, n - 1 - Steps(function_), t.argument, argument)
    case Taken(pair, _) => t.Proj1? || t.Proj2? ==> Timed(k, n - 1, t.inner, pair)
    case Coupled(first, _, second, _) =>
      t.Pair? ==> Timed(k, n - 1, t.fst, first) && Timed(k, n - 1 - Steps(first), t.snd, second)
    case Chained(first, _, second, _) =>
      t.RealizesComp? ==> Timed(k, n - 1, t.left, first) && Timed(k, n - 1 - Steps(first), t.right, second)
    case Stacked(first, _, second, _) =>
      t.RealizesTensor? ==> Timed(k, n - 1, t.left, first) && Timed(k, n - 1 - Steps(first), t.right, second)
    case OpenedFor(scrutinee, _, eigen, rest) =>
      t.Unpack? ==>
        && Timed(k, n - 1, t.scrutinee, scrutinee)
        && NamedAfter(k, t.objVar, eigen, n - 1 - Steps(scrutinee))
        && Timed(k, n - 1 - Steps(scrutinee), t.body, rest)
    case _ => true
  }

  predicate GoalTimed(k: Kernel, n: int, t: TermKind, c: Checking)
    decreases c
  {
    match c
    case Reflexive => true
    case Abstracted(body) => t.Lam? ==> GoalTimed(k, n - 1, t.body, body)
    case Packed(body) => t.Pack? ==> GoalTimed(k, n - 1, t.bodyProof, body)
    case Paired(left, right) =>
      t.Pair? ==> GoalTimed(k, n - 1, t.fst, left) && GoalTimed(k, n - 1 - GoalSteps(left), t.snd, right)
    case InLeft(inner) => t.Inl? ==> GoalTimed(k, n - 1, t.inner, inner)
    case InRight(inner) => t.Inr? ==> GoalTimed(k, n - 1, t.inner, inner)
    case Split(discriminant, _, _, left, right) =>
      t.Case? ==>
        && Timed(k, n - 1, t.discriminant, discriminant)
        && GoalTimed(k, n - 1 - Steps(discriminant), t.leftBody, left)
        && GoalTimed(k, n - 1 - Steps(discriminant) - GoalSteps(left), t.rightBody, right)
    case ChainedTo(first, _, second, _) =>
      t.RealizesComp? ==> Timed(k, n - 1, t.left, first) && Timed(k, n - 1 - Steps(first), t.right, second)
    case StackedTo(first, _, second, _) =>
      t.RealizesTensor? ==> Timed(k, n - 1, t.left, first) && Timed(k, n - 1 - Steps(first), t.right, second)
    case Opened(scrutinee, _, eigen, goal) =>
      t.Unpack? ==>
        && Timed(k, n - 1, t.scrutinee, scrutinee)
        && NamedAfter(k, t.objVar, eigen, n - 1 - Steps(scrutinee))
        && GoalTimed(k, n - 1 - Steps(scrutinee), t.body, goal)
    case Found(synthesis) => Timed(k, n - 1, t, synthesis)
  }

  // ----- the checker finds every derivation -----

  /** The value, with the steps the derivation does not take left, on a budget that
      reaches that far; and exhaustion on any other. */
  ghost predicate Exactly<T(!new)>(o: Outcome<T>, value: T, n: nat, d: nat, steps: nat, levels: nat) {
    if n >= steps && d >= levels then o == Done(value, n - steps) else o.Fail? && o.verdict.ResourceExhausted?
  }

  lemma {:induction false} LookupDenotes(g: Gamma, v: Var, at: nat)
    ensures Denotes(g, v, at) ==> Lookup(g, v) == Some(g[at].1)
    decreases |g|
  {
    if v.Named? && Denotes(g, v, at) && at < |g| - 1 {
      assert g[|g| - 1].0 != Some(v.name);
      LookupDenotes(g[..|g| - 1], v, at);
    }
  }

  lemma {:induction false} DenotesLookup(g: Gamma, v: Var) returns (at: nat)
    requires Lookup(g, v).Some?
    ensures Denotes(g, v, at) && Lookup(g, v) == Some(g[at].1)
    decreases |g|
  {
    match v
    case Index(i) => at := |g| - 1 - i;
    case Named(name) =>
      if g[|g| - 1].0 == Some(name) {
        at := |g| - 1;
      } else {
        at := DenotesLookup(g[..|g| - 1], v);
        assert forall j :: at < j < |g| - 1 ==> g[..|g| - 1][j] == g[j];
      }
  }

  lemma NewNameIsFree(g: Gamma, name: Option<string>)
    ensures NewName(g, name) <==> !NameTaken(g, name)
  {
  }

  lemma {:induction false} InferFinds(k: Kernel, n: nat, d: nat, g: Gamma, t: TermKind, p: Prop, s: Synthesis)
    requires Synthesizes(k, g, t, p, s) && Timed(k, n, t, s)
    ensures Exactly(Infer(Recursive, k, n, d, g, t), p, n, d, Steps(s), Levels(s))
    decreases s, 2
  {
    if n > 0 && d > 0 { InferRuleFinds(k, n - 1, d - 1, g, t, p, s); }
  }

  lemma {:induction false} InferRuleFinds(k: Kernel, n: nat, d: nat, g: Gamma, t: TermKind, p: Prop, s: Synthesis)
    requires Synthesizes(k, g, t, p, s) && Timed(k, n + 1, t, s)
    ensures Exactly(InferRule(Recursive, k, n, d, g, t), p, n, d, Steps(s) - 1, Levels(s) - 1)
    decreases s, 1, 1
  {
    match s
    case Rewritten(_, _, _, _) => RewrittenFinds(k, n, d, g, t, p, s);
    case Carried(_, _, _, _, _, _) => CarriedFinds(k, n, d, g, t, p, s);
    case Fed(_, _, _) => FedFinds(k, n, d, g, t, p, s);
    case Taken(_, _) => TakenFinds(k, n, d, g, t, p, s);
    case OpenedFor(_, _, _, _) => OpenedForFinds(k, n, d, g, t, p, s);
    case _ => BuiltFinds(k, n, d, g, t, p, s);
  }

  /** The rules that build a type from those of the parts, and the leaves. */
  lemma {:induction false} BuiltFinds(k: Kernel, n: nat, d: nat, g: Gamma, t: TermKind, p: Prop, s: Synthesis)
    requires !s.Rewritten? && !s.Carried? && !s.Fed? && !s.Taken? && !s.OpenedFor?
    requires Synthesizes(k, g, t, p, s) && Timed(k, n + 1, t, s)
    ensures Exactly(InferRule(Recursive, k, n, d, g, t), p, n, d, Steps(s) - 1, Levels(s) - 1)
    decreases s, 1, 0
  {
    match s
    case Coupled(_, _, _, _) => CoupledFinds(k, n, d, g, t, p, s);
    case Chained(_, _, _, _) => ChainedFinds(k, n, d, g, t, p, s);
    case Stacked(_, _, _, _) => StackedFinds(k, n, d, g, t, p, s);
    case _ => LeafFinds(k, n, d, g, t, p, s);
  }

  lemma LeafFinds(k: Kernel, n: nat, d: nat, g: Gamma, t: TermKind, p: Prop, s: Synthesis)
    requires (s.Assumed? || s.Reflected? || s.Listed?) && Synthesizes(k, g, t, p, s)
    ensures InferRule(Recursive, k, n, d, g, t) == Done(p, n) && Steps(s) == Levels(s) == 1
  {
    if s.Assumed? { LookupDenotes(g, t.hyp, s.at); }
  }

  lemma {:induction false} TakenFinds(k: Kernel, n: nat, d: nat, g: Gamma, t: TermKind, p: Prop, s: Synthesis)
    requires s.Taken? && Synthesizes(k, g, t, p, s) && Timed(k, n + 1, t, s)
    ensures Exactly(InferRule(Recursive, k, n, d, g, t), p, n, d, Steps(s) - 1, Levels(s) - 1)
    decreases s, 0
  {
    InferFinds(k, n, d, g, t.inner, if t.Proj1? then Prod(p, s.other) else Prod(s.other, p), s.pair);
  }

  lemma {:induction false} RewrittenFinds(k: Kernel, n: nat, d: nat, g: Gamma, t: TermKind, p: Prop, s: Synthesis)
    requires s.Rewritten? && Synthesizes(k, g, t, p, s) && Timed(k, n + 1, t, s)
    ensures Exactly(InferRule(Recursive, k, n, d, g, t), p, n, d, Steps(s) - 1, Levels(s) - 1)
    decreases s, 0
  {
    InferFinds(k, n, d, g, t.eq, Eq(s.lhs, s.rhs), s.equation);
    var m := n - Steps(s.equation);
    if m >= 0 { CheckFinds(k, m, d, g, t.sub, Instantiate(t.motive, s.lhs), s.premise); }
  }

  lemma {:induction false} CarriedFinds(k: Kernel, n: nat, d: nat, g: Gamma, t: TermKind, p: Prop, s: Synthesis)
    requires s.Carried? && Synthesizes(k, g, t, p, s) && Timed(k, n + 1, t, s)
    ensures Exactly(InferRule(Recursive, k, n, d, g, t), p, n, d, Steps(s) - 1, Levels(s) - 1)
    decreases s, 0
  {
    InferFinds(k, n, d, g, t.realizes, Realizes(s.wit, s.src, s.dst), s.realized);
    var m := n - Steps(s.realized);
    if m >= 0 {
      CheckFinds(k, m, d, g, t.preserves, Preserves(s.wit, t.motive), s.preserved);
      var l := m - GoalSteps(s.preserved);
      if l >= 0 { CheckFinds(k, l, d, g, t.sub, Instantiate(t.motive, s.src), s.premise); }
    }
  }

  lemma {:induction false} FedFinds(k: Kernel, n: nat, d: nat, g: Gamma, t: TermKind, p: Prop, s: Synthesis)
    requires s.Fed? && Synthesizes(k, g, t, p, s) && Timed(k, n + 1, t, s)
    ensures Exactly(InferRule(Recursive, k, n, d, g, t), p, n, d, Steps(s) - 1, Levels(s) - 1)
    decreases s, 0
  {
    InferFinds(k, n, d, g, t.function_, Impl(s.domain, p), s.function_);
    var m := n - Steps(s.function_);
    if m >= 0 { CheckFinds(k, m, d, g, t.argument, s.domain, s.argument); }
  }

  lemma {:induction false} CoupledFinds(k: Kernel, n: nat, d: nat, g: Gamma, t: TermKind, p: Prop, s: Synthesis)
    requires s.Coupled? && Synthesizes(k, g, t, p, s) && Timed(k, n + 1, t, s)
    ensures Exactly(InferRule(Recursive, k, n, d, g, t), p, n, d, Steps(s) - 1, Levels(s) - 1)
    decreases s, 0
  {
    InferFinds(k, n, d, g, t.fst, s.p, s.first);
    var m := n - Steps(s.first);
    if m >= 0 { InferFinds(k, m, d, g, t.snd, s.q, s.second); }
  }

  lemma {:induction false} ChainedFinds(k: Kernel, n: nat, d: nat, g: Gamma, t: TermKind, p: Prop, s: Synthesis)
    requires s.Chained? && Synthesizes(k, g, t, p, s) && Timed(k, n + 1, t, s)
    ensures Exactly(InferRule(Recursive, k, n, d, g, t), p, n, d, Steps(s) - 1, Levels(s) - 1)
    decreases s, 0
  {
    InferFinds(k, n, d, g, t.left, s.p, s.first);
    var m := n - Steps(s.first);
    if m >= 0 { InferFinds(k, m, d, g, t.right, s.q, s.second); }
  }

  lemma {:induction false} StackedFinds(k: Kernel, n: nat, d: nat, g: Gamma, t: TermKind, p: Prop, s: Synthesis)
    requires s.Stacked? && Synthesizes(k, g, t, p, s) && Timed(k, n + 1, t, s)
    ensures Exactly(InferRule(Recursive, k, n, d, g, t), p, n, d, Steps(s) - 1, Levels(s) - 1)
    decreases s, 0
  {
    InferFinds(k, n, d, g, t.left, s.p, s.first);
    var m := n - Steps(s.first);
    if m >= 0 { InferFinds(k, m, d, g, t.right, s.q, s.second); }
  }

  lemma {:induction false} OpenedForFinds(k: Kernel, n: nat, d: nat, g: Gamma, t: TermKind, p: Prop, s: Synthesis)
    requires s.OpenedFor? && Synthesizes(k, g, t, p, s) && Timed(k, n + 1, t, s)
    ensures Exactly(InferUnpack(Recursive, k, n, d, g, t), p, n, d, Steps(s) - 1, Levels(s) - 1)
    decreases s, 0
  {
    InferFinds(k, n, d, g, t.scrutinee, Exists(s.pred), s.scrutinee);
    var m := n - Steps(s.scrutinee);
    if m >= 0 {
      InferFinds(k, m, d, g + [(t.proofVar, Instantiate(s.pred, s.eigen))], t.body, p, s.rest);
      OpenedForStep(k, n, d, g, t, p, s.pred, s.eigen);
    }
  }

  /** `Unpack` in synthesis, once the scrutinee is known. */
  lemma OpenedForStep(k: Kernel, n: nat, d: nat, g: Gamma, t: TermKind, p: Prop, pred: Prop, x: ObjectTerm)
    requires t.Unpack? && NewName(g, t.proofVar) && !PropContains(p, x)
    ensures var o := Infer(Recursive, k, n, d, g, t.scrutinee);
            o.Done? && o.value == Exists(pred) && x == Eigenvariable(k, t.objVar, o.left) ==>
              var o2 := Infer(Recursive, k, o.left, d, g + [(t.proofVar, Instantiate(pred, x))], t.body);
              o2.Fail? || o2.value == p ==> InferUnpack(Recursive, k, n, d, g, t) == o2
  {
    NewNameIsFree(g, t.proofVar);
  }

  lemma {:induction false} CheckFinds(k: Kernel, n: nat, d: nat, g: Gamma, t: TermKind, e: Prop, c: Checking)
    requires Checks(k, g, t, e, c) && GoalTimed(k, n, t, c)
    ensures Exactly(Check(Recursive, k, n, d, g, t, e), (), n, d, GoalSteps(c), GoalLevels(c))
    decreases c, 2
  {
    if n > 0 && d > 0 {
      if c.Abstracted? {
        CheckFinds(k, n - 1, d - 1, g + [(t.varName, e.premise)], t.body, e.conclusion, c.body);
      } else {
        CheckRuleFinds(k, n - 1, d - 1, g, t, e, c);
      }
    }
  }

  lemma {:induction false} CheckRuleFinds(k: Kernel, n: nat, d: nat, g: Gamma, t: TermKind, e: Prop, c: Checking)
    requires Checks(k, g, t, e, c) && GoalTimed(k, n + 1, t, c) && !c.Abstracted?
    ensures Exactly(CheckRule(Recursive, k, n, d, g, t, e), (), n, d, GoalSteps(c) - 1, GoalLevels(c) - 1)
    decreases c, 1
  {
    match c
    case Reflexive =>
    case Packed(body) => CheckFinds(k, n, d, g, t.bodyProof, Instantiate(e.pred, t.wit), body);
    case Paired(_, _) => PairedFinds(k, n, d, g, t, e, c);
    case InLeft(inner) => CheckFinds(k, n, d, g, t.inner, e.leftCase, inner);
    case InRight(inner) => CheckFinds(k, n, d, g, t.inner, e.rightCase, inner);
    case Split(_, _, _, _, _) => SplitFinds(k, n, d, g, t, e, c);
    case ChainedTo(_, _, _, _) => ChainedToFinds(k, n, d, g, t, e, c);
    case StackedTo(_, _, _, _) => StackedToFinds(k, n, d, g, t, e, c);
    case Opened(_, _, _, _) => OpenedFinds(k, n, d, g, t, e, c);
    case Found(synthesis) => FoundFinds(k, n, d, g, t, e, c);
  }

  lemma {:induction false} PairedFinds(k: Kernel, n: nat, d: nat, g: Gamma, t: TermKind, e: Prop, c: Checking)
    requires c.Paired? && Checks(k, g, t, e, c) && GoalTimed(k, n + 1, t, c)
    ensures Exactly(CheckRule(Recursive, k, n, d, g, t, e), (), n, d, GoalSteps(c) - 1, GoalLevels(c) - 1)
    decreases c, 0
  {
    CheckFinds(k, n, d, g, t.fst, e.first, c.left);
    var m := n - GoalSteps(c.left);
    if m >= 0 { CheckFinds(k, m, d, g, t.snd, e.second, c.right); }
  }

  lemma {:induction false} SplitFinds(k: Kernel, n: nat, d: nat, g: Gamma, t: TermKind, e: Prop, c: Checking)
    requires c.Split? && Checks(k, g, t, e, c) && GoalTimed(k, n + 1, t, c)
    ensures Exactly(CheckCase(Recursive, k, n, d, g, t, e), (), n, d, GoalSteps(c) - 1, GoalLevels(c) - 1)
    decreases c, 0
  {
    InferFinds(k, n, d, g, t.discriminant, Sum(c.l, c.r), c.discriminant);
    var m := n - Steps(c.discriminant);
    if m >= 0 {
      SplitStep(k, n, d, g, t, e, c.l, c.r);
      CheckFinds(k, m, d, g + [(t.leftVar, c.l)], t.leftBody, e, c.left);
      var l := m - GoalSteps(c.left);
      if l >= 0 { CheckFinds(k, l, d, g + [(t.rightVar, c.r)], t.rightBody, e, c.right); }
    }
  }

  /** `Case`, once the discriminant is known. */
  lemma SplitStep(k: Kernel, n: nat, d: nat, g: Gamma, t: TermKind, e: Prop, l: Prop, r: Prop)
    requires t.Case? && NewName(g, t.leftVar) && NewName(g, t.rightVar)
    ensures var o := Infer(Recursive, k, n, d, g, t.discriminant);
            o.Done? && o.value == Sum(l, r) ==>
              var o2 := Check(Recursive, k, o.left, d, g + [(t.leftVar, l)], t.leftBody, e);
              CheckCase(Recursive, k, n, d, g, t, e) ==
              if o2.Done? then Check(Recursive, k, o2.left, d, g + [(t.rightVar, r)], t.rightBody, e) else o2
  {
    NewNameIsFree(g, t.leftVar);
    NewNameIsFree(g, t.rightVar);
  }

  lemma {:induction false} ChainedToFinds(k: Kernel, n: nat, d: nat, g: Gamma, t: TermKind, e: Prop, c: Checking)
    requires c.ChainedTo? && Checks(k, g, t, e, c) && GoalTimed(k, n + 1, t, c)
    ensures Exactly(CheckRule(Recursive, k, n, d, g, t, e), (), n, d, GoalSteps(c) - 1, GoalLevels(c) - 1)
    decreases c, 0
  {
    InferFinds(k, n, d, g, t.left, c.p, c.first);
    var m := n - Steps(c.first);
    if m >= 0 { InferFinds(k, m, d, g, t.right, c.q, c.second); }
  }

  lemma {:induction false} StackedToFinds(k: Kernel, n: nat, d: nat, g: Gamma, t: TermKind, e: Prop, c: Checking)
    requires c.StackedTo? && Checks(k, g, t, e, c) && GoalTimed(k, n + 1, t, c)
    ensures Exactly(CheckRule(Recursive, k, n, d, g, t, e), (), n, d, GoalSteps(c) - 1, GoalLevels(c) - 1)
    decreases c, 0
  {
    InferFinds(k, n, d, g, t.left, c.p, c.first);
    var m := n - Steps(c.first);
    if m >= 0 { InferFinds(k, m, d, g, t.right, c.q, c.second); }
  }

  lemma {:induction false} OpenedFinds(k: Kernel, n: nat, d: nat, g: Gamma, t: TermKind, e: Prop, c: Checking)
    requires c.Opened? && Checks(k, g, t, e, c) && GoalTimed(k, n + 1, t, c)
    ensures Exactly(CheckUnpack(Recursive, k, n, d, g, t, e), (), n, d, GoalSteps(c) - 1, GoalLevels(c) - 1)
    decreases c, 0
  {
    InferFinds(k, n, d, g, t.scrutinee, Exists(c.pred), c.scrutinee);
    var m := n - Steps(c.scrutinee);
    if m >= 0 {
      CheckFinds(k, m, d, g + [(t.proofVar, Instantiate(c.pred, c.eigen))], t.body, e, c.goal);
      OpenedStep(k, n, d, g, t, e, c.pred, c.eigen);
    }
  }

  /** `Unpack` against a goal, once the scrutinee is known. */
  lemma OpenedStep(k: Kernel, n: nat, d: nat, g: Gamma, t: TermKind, e: Prop, pred: Prop, x: ObjectTerm)
    requires t.Unpack? && NewName(g, t.proofVar) && !PropContains(e, x)
    ensures var o := Infer(Recursive, k, n, d, g, t.scrutinee);
            o.Done? && o.value == Exists(pred) && x == Eigenvariable(k, t.objVar, o.left) ==>
              CheckUnpack(Recursive, k, n, d, g, t, e) ==
              Check(Recursive, k, o.left, d, g + [(t.proofVar, Instantiate(pred, x))], t.body, e)
  {
    NewNameIsFree(g, t.proofVar);
  }

  lemma {:induction false} FoundFinds(k: Kernel, n: nat, d: nat, g: Gamma, t: TermKind, e: Prop, c: Checking)
    requires c.Found? && Checks(k, g, t, e, c) && GoalTimed(k, n + 1, t, c)
    ensures Exactly(CheckRule(Recursive, k, n, d, g, t, e), (), n, d, GoalSteps(c) - 1, GoalLevels(c) - 1)
    decreases c, 0
  {
    InferFinds(k, n, d, g, t, e, c.synthesis);
    assert !t.Unsupported?;
    assert CheckRule(Recursive, k, n, d, g, t, e) == Compare(Infer(Recursive, k, n, d, g, t), e);
  }

  // ----- every acceptance is derived -----

  /** `s` is the derivation that `o` came of, begun with `n` steps left. */
  ghost predicate CameOf(k: Kernel, n: nat, g: Gamma, t: TermKind, o: Outcome<Prop>, s: Synthesis) {
    o.Done? && Synthesizes(k, g, t, o.value, s) && Timed(k, n, t, s) && o.left == n - Steps(s)
  }

  ghost predicate GoalCameOf(k: Kernel, n: nat, g: Gamma, t: TermKind, e: Prop, o: Outcome<()>, c: Checking) {
    o.Done? && Checks(k, g, t, e, c) && GoalTimed(k, n, t, c) && o.left == n - GoalSteps(c)
  }

  lemma {:induction false} InferDerives(k: Kernel, n: nat, d: nat, g: Gamma, t: TermKind) returns (s: Synthesis)
    requires Infer(Recursive, k, n, d, g, t).Done?
    ensures CameOf(k, n, g, t, Infer(Recursive, k, n, d, g, t), s)
    decreases t, 2
  {
    s := InferRuleDerives(k, n - 1, d - 1, g, t);
  }

  lemma {:induction false} InferRuleDerives(k: Kernel, n: nat, d: nat, g: Gamma, t: TermKind) returns (s: Synthesis)
    requires InferRule(Recursive, k, n, d, g, t).Done?
    ensures CameOf(k, n + 1, g, t, InferRule(Recursive, k, n, d, g, t), s)
    decreases t, 1
  {
    match t
    case Subst(_, _, _) => s := SubstDerives(k, n, d, g, t);
    case Pres(_, _, _, _) => s := PresDerives(k, n, d, g, t);
    case App(_, _) => s := AppDerives(k, n, d, g, t);
    case Proj1(_) => s := ProjDerives(k, n, d, g, t);
    case Proj2(_) => s := ProjDerives(k, n, d, g, t);
    case Pair(_, _) => s := PairDerives(k, n, d, g, t);
    case RealizesComp(_, _) => s := CompDerives(k, n, d, g, t);
    case RealizesTensor(_, _) => s := TensorDerives(k, n, d, g, t);
    case Unpack(_, _, _, _) => s := UnpackDerives(k, n, d, g, t);
    case _ => s := LeafDerives(k, n, d, g, t);
  }

  lemma LeafDerives(k: Kernel, n: nat, d: nat, g: Gamma, t: TermKind) returns (s: Synthesis)
    requires (t.Hyp? || t.Refl? || t.PrimRealizes?) && InferRule(Recursive, k, n, d, g, t).Done?
    ensures CameOf(k, n + 1, g, t, InferRule(Recursive, k, n, d, g, t), s)
  {
    match t
    case Hyp(v) => var at := DenotesLookup(g, v); s := Assumed(at);
    case Refl(_) => s := Reflected;
    case PrimRealizes(_, _, _) => s := Listed;
  }

  lemma {:induction false} SubstDerives(k: Kernel, n: nat, d: nat, g: Gamma, t: TermKind) returns (s: Synthesis)
    requires t.Subst? && InferSubst(Recursive, k, n, d, g, t).Done?
    ensures CameOf(k, n + 1, g, t, InferSubst(Recursive, k, n, d, g, t), s)
    decreases t, 0
  {
    var equation := InferDerives(k, n, d, g, t.eq);
    var o := Infer(Recursive, k, n, d, g, t.eq);
    var premise := CheckDerives(k, o.left, d, g, t.sub, Instantiate(t.motive, o.value.lhs));
    s := Rewritten(equation, o.value.lhs, o.value.rhs, premise);
  }

  lemma {:induction false} PresDerives(k: Kernel, n: nat, d: nat, g: Gamma, t: TermKind) returns (s: Synthesis)
    requires t.Pres? && InferPres(Recursive, k, n, d, g, t).Done?
    ensures CameOf(k, n + 1, g, t, InferPres(Recursive, k, n, d, g, t), s)
    decreases t, 0
  {
    var realized := InferDerives(k, n, d, g, t.realizes);
    var o := Infer(Recursive, k, n, d, g, t.realizes);
    var kept := Preserves(o.value.wit, t.motive);
    var preserved := CheckDerives(k, o.left, d, g, t.preserves, kept);
    var o2 := Check(Recursive, k, o.left, d, g, t.preserves, kept);
    var premise := CheckDerives(k, o2.left, d, g, t.sub, Instantiate(t.motive, o.value.src));
    s := Carried(realized, o.value.wit, o.value.src, o.value.dst, preserved, premise);
  }

  lemma {:induction false} AppDerives(k: Kernel, n: nat, d: nat, g: Gamma, t: TermKind) returns (s: Synthesis)
    requires t.App? && InferApp(Recursive, k, n, d, g, t).Done?
    ensures CameOf(k, n + 1, g, t, InferApp(Recursive, k, n, d, g, t), s)
    decreases t, 0
  {
    var function_ := InferDerives(k, n, d, g, t.function_);
    var o := Infer(Recursive, k, n, d, g, t.function_);
    var argument := CheckDerives(k, o.left, d, g, t.argument, o.value.premise);
    s := Fed(function_, o.value.premise, argument);
  }

  lemma {:induction false} ProjDerives(k: Kernel, n: nat, d: nat, g: Gamma, t: TermKind) returns (s: Synthesis)
    requires (t.Proj1? || t.Proj2?) && InferProj(Recursive, k, n, d, g, t).Done?
    ensures CameOf(k, n + 1, g, t, InferProj(Recursive, k, n, d, g, t), s)
    decreases t, 0
  {
    var pair := InferDerives(k, n, d, g, t.inner);
    var p := Infer(Recursive, k, n, d, g, t.inner).value;
    s := Taken(pair, if t.Proj1? then p.second else p.first);
  }

  lemma {:induction false} PairDerives(k: Kernel, n: nat, d: nat, g: Gamma, t: TermKind) returns (s: Synthesis)
    requires t.Pair? && InferPair(Recursive, k, n, d, g, t).Done?
    ensures CameOf(k, n + 1, g, t, InferPair(Recursive, k, n, d, g, t), s)
    decreases t, 0
  {
    var first := InferDerives(k, n, d, g, t.fst);
    var o := Infer(Recursive, k, n, d, g, t.fst);
    var second := InferDerives(k, o.left, d, g, t.snd);
    s := Coupled(first, o.value, second, Infer(Recursive, k, o.left, d, g, t.snd).value);
  }

  lemma {:induction false} CompDerives(k: Kernel, n: nat, d: nat, g: Gamma, t: TermKind) returns (s: Synthesis)
    requires t.RealizesComp? && InferComp(Recursive, k, n, d, g, t).Done?
    ensures CameOf(k, n + 1, g, t, InferComp(Recursive, k, n, d, g, t), s)
    decreases t, 0
  {
    var first := InferDerives(k, n, d, g, t.left);
    var o := Infer(Recursive, k, n, d, g, t.left);
    var second := InferDerives(k, o.left, d, g, t.right);
    s := Chained(first, o.value, second, Infer(Recursive, k, o.left, d, g, t.right).value);
  }

  lemma {:induction false} TensorDerives(k: Kernel, n: nat, d: nat, g: Gamma, t: TermKind) returns (s: Synthesis)
    requires t.RealizesTensor? && InferTensor(Recursive, k, n, d, g, t).Done?
    ensures CameOf(k, n + 1, g, t, InferTensor(Recursive, k, n, d, g, t), s)
    decreases t, 0
  {
    var first := InferDerives(k, n, d, g, t.left);
    var o := Infer(Recursive, k, n, d, g, t.left);
    var second := InferDerives(k, o.left, d, g, t.right);
    s := Stacked(first, o.value, second, Infer(Recursive, k, o.left, d, g, t.right).value);
  }

  lemma {:induction false} UnpackDerives(k: Kernel, n: nat, d: nat, g: Gamma, t: TermKind) returns (s: Synthesis)
    requires t.Unpack? && InferUnpack(Recursive, k, n, d, g, t).Done?
    ensures CameOf(k, n + 1, g, t, InferUnpack(Recursive, k, n, d, g, t), s)
    decreases t, 0
  {
    NewNameIsFree(g, t.proofVar);
    var scrutinee := InferDerives(k, n, d, g, t.scrutinee);
    var o := Infer(Recursive, k, n, d, g, t.scrutinee);
    var x := Eigenvariable(k, t.objVar, o.left);
    var rest := InferDerives(k, o.left, d, g + [(t.proofVar, Instantiate(o.value.pred, x))], t.body);
    s := OpenedFor(scrutinee, o.value.pred, x, rest);
  }

  lemma {:induction false} CheckDerives(k: Kernel, n: nat, d: nat, g: Gamma, t: TermKind, e: Prop) returns (c: Checking)
    requires Check(Recursive, k, n, d, g, t, e).Done?
    ensures GoalCameOf(k, n, g, t, e, Check(Recursive, k, n, d, g, t, e), c)
    decreases t, 4
  {
    if t.Lam? && e.Impl? {
      var body := CheckDerives(k, n - 1, d - 1, g + [(t.varName, e.premise)], t.body, e.conclusion);
      c := Abstracted(body);
    } else {
      c := RuleDerives(k, n - 1, d - 1, g, t, e);
    }
  }

  lemma {:induction false} RuleDerives(k: Kernel, n: nat, d: nat, g: Gamma, t: TermKind, e: Prop) returns (c: Checking)
    requires CheckRule(Recursive, k, n, d, g, t, e).Done? && !(t.Lam? && e.Impl?)
    ensures GoalCameOf(k, n + 1, g, t, e, CheckRule(Recursive, k, n, d, g, t, e), c)
    decreases t, 3, 1
  {
    if LooksAtGoal(t, e) {
      c := GoalRuleDerives(k, n, d, g, t, e);
    } else {
      c := FoundDerives(k, n, d, g, t, e);
    }
  }

  lemma {:induction false} FoundDerives(k: Kernel, n: nat, d: nat, g: Gamma, t: TermKind, e: Prop) returns (c: Checking)
    requires CheckRule(Recursive, k, n, d, g, t, e).Done? && !LooksAtGoal(t, e)
    ensures GoalCameOf(k, n + 1, g, t, e, CheckRule(Recursive, k, n, d, g, t, e), c)
    decreases t, 3, 0
  {
    assert CheckRule(Recursive, k, n, d, g, t, e) == Compare(Infer(Recursive, k, n, d, g, t), e);
    var s := InferDerives(k, n, d, g, t);
    c := Found(s);
  }

  lemma {:induction false} GoalRuleDerives(k: Kernel, n: nat, d: nat, g: Gamma, t: TermKind, e: Prop) returns (c: Checking)
    requires CheckRule(Recursive, k, n, d, g, t, e).Done? && LooksAtGoal(t, e) && !t.Lam?
    ensures GoalCameOf(k, n + 1, g, t, e, CheckRule(Recursive, k, n, d, g, t, e), c)
    decreases t, 3, 0
  {
    if t.Refl? {
      c := Reflexive;
    } else if t.Pack? {
      var body := CheckDerives(k, n, d, g, t.bodyProof, Instantiate(e.pred, t.wit));
      c := Packed(body);
    } else if t.Unpack? {
      c := CheckUnpackDerives(k, n, d, g, t, e);
    } else if t.Pair? {
      c := CheckPairDerives(k, n, d, g, t, e);
    } else if t.Inl? {
      var inner := CheckDerives(k, n, d, g, t.inner, e.leftCase);
      c := InLeft(inner);
    } else if t.Inr? {
      var inner := CheckDerives(k, n, d, g, t.inner, e.rightCase);
      c := InRight(inner);
    } else if t.Case? {
      c := CaseDerives(k, n, d, g, t, e);
    } else if t.RealizesComp? {
      c := CheckCompDerives(k, n, d, g, t, e);
    } else {
      c := CheckTensorDerives(k, n, d, g, t, e);
    }
  }

  lemma {:induction false} CheckUnpackDerives(k: Kernel, n: nat, d: nat, g: Gamma, t: TermKind, e: Prop) returns (c: Checking)
    requires t.Unpack? && CheckUnpack(Recursive, k, n, d, g, t, e).Done?
    ensures GoalCameOf(k, n + 1, g, t, e, CheckUnpack(Recursive, k, n, d, g, t, e), c)
    decreases t, 0
  {
    NewNameIsFree(g, t.proofVar);
    var scrutinee := InferDerives(k, n, d, g, t.scrutinee);
    var o := Infer(Recursive, k, n, d, g, t.scrutinee);
    var x := Eigenvariable(k, t.objVar, o.left);
    var goal := CheckDerives(k, o.left, d, g + [(t.proofVar, Instantiate(o.value.pred, x))], t.body, e);
    c := Opened(scrutinee, o.value.pred, x, goal);
  }

  lemma {:induction false} CheckPairDerives(k: Kernel, n: nat, d: nat, g: Gamma, t: TermKind, e: Prop) returns (c: Checking)
    requires t.Pair? && e.Prod? && CheckPair(Recursive, k, n, d, g, t, e).Done?
    ensures GoalCameOf(k, n + 1, g, t, e, CheckPair(Recursive, k, n, d, g, t, e), c)
    decreases t, 0
  {
    var left := CheckDerives(k, n, d, g, t.fst, e.first);
    var right := CheckDerives(k, Check(Recursive, k, n, d, g, t.fst, e.first).left, d, g, t.snd, e.second);
    c := Paired(left, right);
  }

  lemma {:induction false} CaseDerives(k: Kernel, n: nat, d: nat, g: Gamma, t: TermKind, e: Prop) returns (c: Checking)
    requires t.Case? && CheckCase(Recursive, k, n, d, g, t, e).Done?
    ensures GoalCameOf(k, n + 1, g, t, e, CheckCase(Recursive, k, n, d, g, t, e), c)
    decreases t, 0
  {
    NewNameIsFree(g, t.leftVar);
    NewNameIsFree(g, t.rightVar);
    var discriminant := InferDerives(k, n, d, g, t.discriminant);
    var o := Infer(Recursive, k, n, d, g, t.discriminant);
    var gl, gr := g + [(t.leftVar, o.value.leftCase)], g + [(t.rightVar, o.value.rightCase)];
    var o2 := Check(Recursive, k, o.left, d, gl, t.leftBody, e);
    var left := CheckDerives(k, o.left, d, gl, t.leftBody, e);
    var right := CheckDerives(k, o2.left, d, gr, t.rightBody, e);
    c := Split(discriminant, o.value.leftCase, o.value.rightCase, left, right);
    SplitCame(k, n, g, t, e, o, o2, Check(Recursive, k, o2.left, d, gr, t.rightBody, e), c);
  }

  lemma SplitCame(k: Kernel, n: nat, g: Gamma, t: TermKind, e: Prop, o: Outcome<Prop>, o2: Outcome<()>, o3: Outcome<()>, c: Checking)
    requires t.Case? && c.Split? && NewName(g, t.leftVar) && NewName(g, t.rightVar)
    requires CameOf(k, n, g, t.discriminant, o, c.discriminant) && o.value == Sum(c.l, c.r)
    requires GoalCameOf(k, o.left, g + [(t.leftVar, c.l)], t.leftBody, e, o2, c.left)
    requires GoalCameOf(k, o2.left, g + [(t.rightVar, c.r)], t.rightBody, e, o3, c.right)
    ensures GoalCameOf(k, n + 1, g, t, e, o3, c)
  {
  }

  lemma {:induction false} CheckCompDerives(k: Kernel, n: nat, d: nat, g: Gamma, t: TermKind, e: Prop) returns (c: Checking)
    requires t.RealizesComp? && e.Realizes? && CheckComp(Recursive, k, n, d, g, t, e).Done?
    ensures GoalCameOf(k, n + 1, g, t, e, CheckComp(Recursive, k, n, d, g, t, e), c)
    decreases t, 0
  {
    var first := InferDerives(k, n, d, g, t.left);
    var o := Infer(Recursive, k, n, d, g, t.left);
    var second := InferDerives(k, o.left, d, g, t.right);
    c := ChainedTo(first, o.value, second, Infer(Recursive, k, o.left, d, g, t.right).value);
  }

  lemma {:induction false} CheckTensorDerives(k: Kernel, n: nat, d: nat, g: Gamma, t: TermKind, e: Prop) returns (c: Checking)
    requires t.RealizesTensor? && e.Realizes? && CheckTensor(Recursive, k, n, d, g, t, e).Done?
    ensures GoalCameOf(k, n + 1, g, t, e, CheckTensor(Recursive, k, n, d, g, t, e), c)
    decreases t, 0
  {
    var first := InferDerives(k, n, d, g, t.left);
    var o := Infer(Recursive, k, n, d, g, t.left);
    var second := InferDerives(k, o.left, d, g, t.right);
    c := StackedTo(first, o.value, second, Infer(Recursive, k, o.left, d, g, t.right).value);
  }
}
