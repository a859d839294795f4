/** What the elaborator builds the kernel accepts, and the accepted account is
    exactly what the term says. */
module ElabProofs {
  import opened Options
  import opened KernelTerms
  import opened KernelRules
  import opened KernelRefinement
  import opened KernelBudget
  import opened KernelModels
  import opened KernelScoping
  import opened ElabTree

  // ----- the kernel accepts what is built -----

  /** The hypothesis stack under all the binders. */
  function HypStack(steps: seq<LeafStep>): (g: Gamma)
    ensures |g| == |steps|
  {
    seq(|steps|, i requires 0 <= i < |steps| => (BinderName(i), StepProp(steps[i])))
  }

  lemma InferCompStep(k: Kernel, n: nat, d: nat, g: Gamma, a: TermKind, b: TermKind, p: Prop, q: Prop, n1: nat, n2: nat)
    requires n > 0 && d > 0 && p.Realizes? && q.Realizes? && p.dst == q.src
    requires Infer(Recursive, k, n - 1, d - 1, g, a) == Done(p, n1)
    requires Infer(Recursive, k, n1, d - 1, g, b) == Done(q, n2)
    ensures Infer(Recursive, k, n, d, g, RealizesComp(a, b)) == Done(Realizes(Compose(q.wit, p.wit), p.src, q.dst), n2)
  {
    assert InferRule(Recursive, k, n - 1, d - 1, g, RealizesComp(a, b)) == InferComp(Recursive, k, n - 1, d - 1, g, RealizesComp(a, b));
  }

  lemma InferTensorStep(k: Kernel, n: nat, d: nat, g: Gamma, a: TermKind, b: TermKind, p: Prop, q: Prop, n1: nat, n2: nat)
    requires n > 0 && d > 0 && p.Realizes? && q.Realizes?
    requires Infer(Recursive, k, n - 1, d - 1, g, a) == Done(p, n1)
    requires Infer(Recursive, k, n1, d - 1, g, b) == Done(q, n2)
    ensures Infer(Recursive, k, n, d, g, RealizesTensor(a, b)) ==
            Done(Realizes(Tensor(p.wit, q.wit), Tensor(p.src, q.src), Tensor(p.dst, q.dst)), n2)
  {
    assert InferRule(Recursive, k, n - 1, d - 1, g, RealizesTensor(a, b)) == InferTensor(Recursive, k, n - 1, d - 1, g, RealizesTensor(a, b));
  }

  /** The leaves of `t` sit in `leaves` from `next` on. */
  ghost predicate LeavesAt(t: RealizesTree, leaves: seq<LeafStep>, next: nat) {
    next + LeafCount(t) <= |leaves| &&
    match t
    case Leaf(s) => leaves[next] == s
    case Seq(a, b) => LeavesAt(a, leaves, next) && LeavesAt(b, leaves, next + LeafCount(a))
    case Par(a, b) => LeavesAt(a, leaves, next) && LeavesAt(b, leaves, next + LeafCount(a))
  }

  lemma {:induction false} OwnLeaves(t: RealizesTree, before: seq<LeafStep>, after: seq<LeafStep>)
    ensures LeavesAt(t, before + Leaves(t) + after, |before|)
    decreases LeafCount(t), 2
  {
    match t
    case Leaf(_) =>
    case Seq(a, b) => OwnLeavesOf(a, b, before, after);
    case Par(a, b) => OwnLeavesOf(a, b, before, after);
  }

  lemma {:induction false} OwnLeavesOf(a: RealizesTree, b: RealizesTree, before: seq<LeafStep>, after: seq<LeafStep>)
    ensures LeavesAt(a, before + (Leaves(a) + Leaves(b)) + after, |before|)
    ensures LeavesAt(b, before + (Leaves(a) + Leaves(b)) + after, |before| + LeafCount(a))
    decreases LeafCount(a) + LeafCount(b), 1
  {
    OwnLeaves(a, before, Leaves(b) + after);
    OwnLeaves(b, before + Leaves(a), after);
    assert before + (Leaves(a) + Leaves(b)) + after == before + Leaves(a) + (Leaves(b) + after);
    assert before + (Leaves(a) + Leaves(b)) + after == (before + Leaves(a)) + Leaves(b) + after;
  }

  /** Each open leaf is the hypothesis at its place among the open leaves. */
  ghost predicate HypsMatch(g: Gamma, leaves: seq<LeafStep>, closures: Closures) {
    |leaves| == |closures| && |g| == OpenCount(closures) &&
    forall i :: 0 <= i < |leaves| && closures[i].None? ==>
      OpenBefore(closures, i) < |g| && g[OpenBefore(closures, i)].1 == StepProp(leaves[i])
  }

  lemma HypStackMatches(leaves: seq<LeafStep>, closures: Closures)
    requires |leaves| == |closures|
    ensures HypsMatch(HypStack(OpenSteps(leaves, closures)), leaves, closures)
  {
    forall i | 0 <= i < |leaves| && closures[i].None?
      ensures OpenBefore(closures, i) < OpenCount(closures)
      ensures OpenSteps(leaves, closures)[OpenBefore(closures, i)] == leaves[i]
    {
      OpenLeafAt(leaves, closures, |leaves|, i);
    }
  }

  function Nodes(t: RealizesTree): nat {
    match t
    case Leaf(_) => 1
    case Seq(a, b) => 1 + Nodes(a) + Nodes(b)
    case Par(a, b) => 1 + Nodes(a) + Nodes(b)
  }

  function Levels(t: RealizesTree): nat {
    match t
    case Leaf(_) => 1
    case Seq(a, b) => 1 + Max(Levels(a), Levels(b))
    case Par(a, b) => 1 + Max(Levels(a), Levels(b))
  }

  /** Every de Bruijn index of the emitted term hits the hypothesis of its own
      leaf, so synthesis yields the tree's conclusion. */
  lemma {:induction false} EmitInfers(k: Kernel, g: Gamma, t: RealizesTree, leaves: seq<LeafStep>, closures: Closures, next: nat, n: nat, d: nat)
    requires Closable(k, leaves, closures) && HypsMatch(g, leaves, closures)
    requires WellFormed(t) && LeavesAt(t, leaves, next)
    requires n >= Nodes(t) && d >= Levels(t)
    ensures Infer(Recursive, k, n, d, g, Emit(t, closures, next)) == Done(Conclusion(t), n - Nodes(t))
    decreases LeafCount(t), 3
  {
    match t
    case Leaf(s) =>
    case Seq(a, b) => SeqInfers(k, g, a, b, leaves, closures, next, n, d);
    case Par(a, b) => ParInfers(k, g, a, b, leaves, closures, next, n, d);
  }

  lemma {:induction false} SeqInfers(k: Kernel, g: Gamma, a: RealizesTree, b: RealizesTree, leaves: seq<LeafStep>, closures: Closures,
                                     next: nat, n: nat, d: nat)
    requires Closable(k, leaves, closures) && HypsMatch(g, leaves, closures)
    requires WellFormed(Seq(a, b)) && LeavesAt(Seq(a, b), leaves, next)
    requires n >= Nodes(Seq(a, b)) && d >= Levels(Seq(a, b))
    ensures Infer(Recursive, k, n, d, g, Emit(Seq(a, b), closures, next)) == Done(Conclusion(Seq(a, b)), n - Nodes(Seq(a, b)))
    decreases LeafCount(a) + LeafCount(b), 2
  {
    var n1 := BothInfer(k, g, a, b, leaves, closures, next, n - 1, d - 1);
    InferCompStep(k, n, d, g, Emit(a, closures, next), Emit(b, closures, next + LeafCount(a)),
                  Conclusion(a), Conclusion(b), n1, n - Nodes(Seq(a, b)));
  }

  lemma {:induction false} ParInfers(k: Kernel, g: Gamma, a: RealizesTree, b: RealizesTree, leaves: seq<LeafStep>, closures: Closures,
                                     next: nat, n: nat, d: nat)
    requires Closable(k, leaves, closures) && HypsMatch(g, leaves, closures)
    requires WellFormed(Par(a, b)) && LeavesAt(Par(a, b), leaves, next)
    requires n >= Nodes(Par(a, b)) && d >= Levels(Par(a, b))
    ensures Infer(Recursive, k, n, d, g, Emit(Par(a, b), closures, next)) == Done(Conclusion(Par(a, b)), n - Nodes(Par(a, b)))
    decreases LeafCount(a) + LeafCount(b), 2
  {
    var n1 := BothInfer(k, g, a, b, leaves, closures, next, n - 1, d - 1);
    InferTensorStep(k, n, d, g, Emit(a, closures, next), Emit(b, closures, next + LeafCount(a)),
                    Conclusion(a), Conclusion(b), n1, n - Nodes(Par(a, b)));
  }

  /** Two neighbouring subtrees, one after the other. */
  lemma {:induction false} BothInfer(k: Kernel, g: Gamma, a: RealizesTree, b: RealizesTree, leaves: seq<LeafStep>, closures: Closures,
                                     next: nat, n: nat, d: nat) returns (n1: nat)
    requires Closable(k, leaves, closures) && HypsMatch(g, leaves, closures)
    requires WellFormed(a) && LeavesAt(a, leaves, next)
    requires WellFormed(b) && LeavesAt(b, leaves, next + LeafCount(a))
    requires n >= Nodes(a) + Nodes(b) && d >= Levels(a) && d >= Levels(b)
    ensures Infer(Recursive, k, n, d, g, Emit(a, closures, next)) == Done(Conclusion(a), n1)
    ensures Infer(Recursive, k, n1, d, g, Emit(b, closures, next + LeafCount(a))) == Done(Conclusion(b), n - Nodes(a) - Nodes(b))
    decreases LeafCount(a) + LeafCount(b), 1
  {
    n1 := n - Nodes(a);
    EmitInfers(k, g, a, leaves, closures, next, n, d);
    EmitInfers(k, g, b, leaves, closures, next + LeafCount(a), n1, d);
  }

  /** Checked against the conclusion, whichever rule the root takes. */
  lemma {:induction false} EmitChecks(k: Kernel, g: Gamma, t: RealizesTree, closures: Closures, n: nat, d: nat)
    requires WellFormed(t) && Closable(k, Leaves(t), closures) && HypsMatch(g, Leaves(t), closures)
    requires n >= 2 * Nodes(t) && d >= 2 * Levels(t)
    ensures Check(Recursive, k, n, d, g, Emit(t, closures, 0), Conclusion(t)).Done?
  {
    OwnLeaves(t, [], []);
    assert [] + Leaves(t) + [] == Leaves(t);
    match t
    case Leaf(_) => LeafChecks(k, g, t, closures, n, d);
    case Seq(a, b) => SeqChecks(k, g, a, b, Leaves(t), closures, 0, n, d);
    case Par(a, b) => ParChecks(k, g, a, b, Leaves(t), closures, 0, n, d);
  }

  lemma SeqChecks(k: Kernel, g: Gamma, a: RealizesTree, b: RealizesTree, leaves: seq<LeafStep>, closures: Closures,
                  next: nat, n: nat, d: nat)
    requires WellFormed(Seq(a, b)) && LeavesAt(Seq(a, b), leaves, next)
    requires Closable(k, leaves, closures) && HypsMatch(g, leaves, closures)
    requires n > Nodes(a) + Nodes(b) && d > Max(Levels(a), Levels(b))
    ensures Check(Recursive, k, n, d, g, Emit(Seq(a, b), closures, next), Conclusion(Seq(a, b))).Done?
  {
    var n1 := BothInfer(k, g, a, b, leaves, closures, next, n - 1, d - 1);
    CheckCompStep(k, n, d, g, Emit(a, closures, next), Emit(b, closures, next + LeafCount(a)), Conclusion(a), Conclusion(b), n1);
  }

  lemma ParChecks(k: Kernel, g: Gamma, a: RealizesTree, b: RealizesTree, leaves: seq<LeafStep>, closures: Closures,
                  next: nat, n: nat, d: nat)
    requires WellFormed(Par(a, b)) && LeavesAt(Par(a, b), leaves, next)
    requires Closable(k, leaves, closures) && HypsMatch(g, leaves, closures)
    requires n > Nodes(a) + Nodes(b) && d > Max(Levels(a), Levels(b))
    ensures Check(Recursive, k, n, d, g, Emit(Par(a, b), closures, next), Conclusion(Par(a, b))).Done?
  {
    var n1 := BothInfer(k, g, a, b, leaves, closures, next, n - 1, d - 1);
    CheckTensorStep(k, n, d, g, Emit(a, closures, next), Emit(b, closures, next + LeafCount(a)), Conclusion(a), Conclusion(b), n1);
  }

  lemma LeafChecks(k: Kernel, g: Gamma, t: RealizesTree, closures: Closures, n: nat, d: nat)
    requires t.Leaf? && Closable(k, Leaves(t), closures) && HypsMatch(g, Leaves(t), closures)
    requires n >= 2 && d >= 2
    ensures Check(Recursive, k, n, d, g, Emit(t, closures, 0), Conclusion(t)).Done?
  {
    EmitInfers(k, g, t, Leaves(t), closures, 0, n - 1, d - 1);
    assert Compare(Infer(Recursive, k, n - 1, d - 1, g, Emit(t, closures, 0)), Conclusion(t)).Done?;
  }

  lemma CheckCompStep(k: Kernel, n: nat, d: nat, g: Gamma, a: TermKind, b: TermKind, p: Prop, q: Prop, n1: nat)
    requires n > 0 && d > 0 && p.Realizes? && q.Realizes? && p.dst == q.src
    requires Infer(Recursive, k, n - 1, d - 1, g, a) == Done(p, n1)
    requires var o := Infer(Recursive, k, n1, d - 1, g, b); o.Done? && o.value == q
    ensures Check(Recursive, k, n, d, g, RealizesComp(a, b), Realizes(Compose(q.wit, p.wit), p.src, q.dst)).Done?
  {
    assert CheckComp(Recursive, k, n - 1, d - 1, g, RealizesComp(a, b), Realizes(Compose(q.wit, p.wit), p.src, q.dst)).Done?;
  }

  lemma CheckTensorStep(k: Kernel, n: nat, d: nat, g: Gamma, a: TermKind, b: TermKind, p: Prop, q: Prop, n1: nat)
    requires n > 0 && d > 0 && p.Realizes? && q.Realizes?
    requires Infer(Recursive, k, n - 1, d - 1, g, a) == Done(p, n1)
    requires var o := Infer(Recursive, k, n1, d - 1, g, b); o.Done? && o.value == q
    ensures Check(Recursive, k, n, d, g, RealizesTensor(a, b),
                  Realizes(Tensor(p.wit, q.wit), Tensor(p.src, q.src), Tensor(p.dst, q.dst))).Done?
  {
    assert CheckTensor(Recursive, k, n - 1, d - 1, g, RealizesTensor(a, b),
                       Realizes(Tensor(p.wit, q.wit), Tensor(p.src, q.src), Tensor(p.dst, q.dst))).Done?;
  }

  /** Below the λ-spine, checking is checking the body under the hypotheses. */
  lemma {:induction false} SpineChecks(k: Kernel, steps: seq<LeafStep>, i: nat, body: TermKind, goal: Prop, n: nat, d: nat)
    requires i <= |steps| && n >= |steps| - i && d >= |steps| - i
    ensures Check(Recursive, k, n, d, HypStack(steps[..i]), Binders(i, |steps|, body), Implication(StepProps(steps[i..]), goal))
         == Check(Recursive, k, n - (|steps| - i), d - (|steps| - i), HypStack(steps), body, goal)
    decreases |steps| - i
  {
    if i < |steps| {
      var rest := StepProps(steps[i..]);
      assert rest[1..] == StepProps(steps[i + 1..]);
      assert rest[0] == StepProp(steps[i]);
      assert HypStack(steps[..i]) + [(BinderName(i), rest[0])] == HypStack(steps[..i + 1]);
      SpineChecks(k, steps, i + 1, body, goal, n - 1, d - 1);
    } else {
      assert steps[..i] == steps;
    }
  }

  lemma {:induction false} BindersPlain(i: nat, count: nat, body: TermKind)
    requires i <= count
    ensures UnpackFree(Binders(i, count, body)) == UnpackFree(body)
    ensures TermTame(Closed, Binders(i, count, body)) == TermTame(Closed, body)
    ensures !body.Lam? ==> StripBinders(Binders(i, count, body)) == body
    decreases count - i
  {
    if i < count { BindersPlain(i + 1, count, body); }
  }

  lemma {:induction false} ObjectClosed(o: TreeObj)
    ensures ObjectScoped(ToObject(o), 0)
  {
    match o
    case Atomic(_) =>
    case Product(a, b) => ObjectClosed(a); ObjectClosed(b);
  }

  lemma {:induction false} EmitPlain(t: RealizesTree, closures: Closures, next: nat)
    requires next + LeafCount(t) <= |closures|
    ensures var e := Emit(t, closures, next); UnpackFree(e) && TermTame(Closed, e) && !e.Lam?
  {
    match t
    case Leaf(_) =>
    case Seq(a, b) => EmitPlain(a, closures, next); EmitPlain(b, closures, next + LeafCount(a));
    case Par(a, b) => EmitPlain(a, closures, next); EmitPlain(b, closures, next + LeafCount(a));
  }

  /** A budget the elaborated proof fits in: one unit a binder, two a node, and
      two a level of the tree. */
  ghost predicate Ample(b: Budget, t: RealizesTree, closures: Closures) {
    b.maxSteps >= OpenCount(closures) + 2 * Nodes(t) && b.maxDepth >= OpenCount(closures) + 2 * Levels(t)
  }

  lemma ProofAcceptedWithin(k: Kernel, t: RealizesTree, closures: Closures, context: Digest, b: Budget)
    requires WellFormed(t) && Closable(k, Leaves(t), closures)
    requires Ample(b, t, closures)
    ensures Acceptance(Unrolled, k, context, ProofProp(t, closures), ExplicitTerm(context, ProofKind(t, closures)), b).Accepted?
  {
    ProofChecks(k, t, closures, b.maxSteps, b.maxDepth);
    CheckAgrees(k, b.maxSteps, b.maxDepth, [], ProofKind(t, closures), ProofProp(t, closures));
  }

  lemma ProofChecks(k: Kernel, t: RealizesTree, closures: Closures, n: nat, d: nat)
    requires WellFormed(t) && Closable(k, Leaves(t), closures)
    requires n >= OpenCount(closures) + 2 * Nodes(t) && d >= OpenCount(closures) + 2 * Levels(t)
    ensures Check(Recursive, k, n, d, [], ProofKind(t, closures), ProofProp(t, closures)).Done?
  {
    var steps := OpenSteps(Leaves(t), closures);
    HypStackMatches(Leaves(t), closures);
    EmitChecks(k, HypStack(steps), t, closures, n - |steps|, d - |steps|);
    SpineChecks(k, steps, 0, Emit(t, closures, 0), Conclusion(t), n, d);
    assert steps[0..] == steps && HypStack(steps[..0]) == [];
  }

  /** Completeness of elaboration: on any budget the kernel either accepts the
      built proof or runs out, and on an ample one it accepts. */
  lemma ElaborationComplete(k: Kernel, t: RealizesTree, closures: Closures, context: Digest, b: Budget)
    requires WellFormed(t) && Closable(k, Leaves(t), closures)
    ensures var v := Acceptance(Unrolled, k, context, ProofProp(t, closures), ExplicitTerm(context, ProofKind(t, closures)), b);
            v.Accepted? || v.ResourceExhausted?
    ensures Ample(b, t, closures) ==>
            Acceptance(Unrolled, k, context, ProofProp(t, closures), ExplicitTerm(context, ProofKind(t, closures)), b).Accepted?
  {
    var p, term := ProofProp(t, closures), ExplicitTerm(context, ProofKind(t, closures));
    var big := Budget(b.maxSteps + OpenCount(closures) + 2 * Nodes(t), b.maxDepth + OpenCount(closures) + 2 * Levels(t));
    ProofAcceptedWithin(k, t, closures, context, big);
    ProofPlain(t, closures);
    if !Acceptance(Unrolled, k, context, p, term, b).ResourceExhausted? {
      VerdictIsFinal(Unrolled, k, context, p, term, b, big);
    } else if Ample(b, t, closures) {
      ProofAcceptedWithin(k, t, closures, context, b);
    }
  }

  lemma ProofPlain(t: RealizesTree, closures: Closures)
    requires |closures| == |Leaves(t)|
    ensures UnpackFree(ProofKind(t, closures)) && TermTame(Closed, ProofKind(t, closures))
    ensures StripBinders(ProofKind(t, closures)) == Emit(t, closures, 0)
  {
    EmitPlain(t, closures, 0);
    BindersPlain(0, OpenCount(closures), Emit(t, closures, 0));
  }

  /** The elaborator's own closure choice is always admissible. */
  lemma {:induction false} ClassifyAdmissible(k: Kernel, candidates: seq<Digest>, leaves: seq<LeafStep>)
    ensures Closable(k, leaves, Classify(k, candidates, leaves))
  {
    forall i | 0 <= i < |leaves| && Classify(k, candidates, leaves)[i].Some?
      ensures RelationCloses(k, Classify(k, candidates, leaves)[i].value, leaves[i])
    {
      ClassifyLeafCloses(k, candidates, leaves[i]);
    }
  }

  /** A leaf is left open exactly when no candidate closes it. */
  lemma {:induction false} ClassifyLeafCloses(k: Kernel, candidates: seq<Digest>, s: LeafStep)
    ensures var c := ClassifyLeaf(k, candidates, s);
            if c.Some? then c.value in candidates && RelationCloses(k, c.value, s)
            else forall r :: r in candidates ==> !RelationCloses(k, r, s)
  {
    if |candidates| > 0 && !RelationCloses(k, candidates[0], s) {
      ClassifyLeafCloses(k, candidates[1..], s);
    }
  }

  // ----- meaning -----

  lemma {:induction false} WitnessClosed(t: RealizesTree)
    ensures ObjectScoped(WitnessObject(t), 0)
  {
    match t
    case Leaf(_) =>
    case Seq(a, b) => WitnessClosed(a); WitnessClosed(b);
    case Par(a, b) => WitnessClosed(a); WitnessClosed(b);
  }

  lemma {:induction false} ImplicationHolds<D(!new)>(m: Model<D>, steps: seq<LeafStep>, goal: Prop)
    ensures Holds(m, [], Implication(StepProps(steps), goal)) <==>
            ((forall i :: 0 <= i < |steps| ==> Holds(m, [], StepProp(steps[i]))) ==> Holds(m, [], goal))
  {
    if |steps| > 0 {
      assert StepProps(steps)[1..] == StepProps(steps[1..]);
      assert StepProps(steps)[0] == StepProp(steps[0]);
      ImplicationHolds(m, steps[1..], goal);
      assert forall i :: 0 < i < |steps| ==> steps[i] == steps[1..][i - 1];
      assert (forall i :: 0 <= i < |steps| ==> Holds(m, [], StepProp(steps[i]))) <==>
             Holds(m, [], StepProp(steps[0])) && (forall i :: 0 <= i < |steps[1..]| ==> Holds(m, [], StepProp(steps[1..][i])));
    }
  }

  lemma {:induction false} ImplicationScoped(steps: seq<LeafStep>, goal: Prop)
    requires PropTame(Closed, goal, 0)
    ensures PropTame(Closed, Implication(StepProps(steps), goal), 0)
  {
    if |steps| > 0 {
      assert StepProps(steps)[1..] == StepProps(steps[1..]);
      ImplicationScoped(steps[1..], goal);
      ObjectClosed(steps[0].src);
      ObjectClosed(steps[0].dst);
    }
  }

  /** End to end: in every admissible model in which the open leaves hold, the
      tree's composite realization holds. */
  lemma ElaboratedProofMeans<D(!new)>(el: Elaborator, m: Model<D>, d: TreeDerivation, context: Digest, b: Budget)
    requires Admissible(el.k, m)
    requires Elaborate(el, d, context, b).Ok?
    requires forall s :: s in OpenSteps(Leaves(d.tree), Classify(el.k, el.candidates, Leaves(d.tree))) ==> Holds(m, [], StepProp(s))
    ensures Holds(m, [], Conclusion(d.tree))
  {
    var closures := Classify(el.k, el.candidates, Leaves(d.tree));
    var steps := OpenSteps(Leaves(d.tree), closures);
    ProofPlain(d.tree, closures);
    WitnessClosed(d.tree);
    ObjectClosed(Src(d.tree));
    ObjectClosed(Dst(d.tree));
    ImplicationScoped(steps, Conclusion(d.tree));
    TameAcceptanceSound(Closed, el.k, m, context, ProofProp(d.tree, closures), ExplicitTerm(context, ProofKind(d.tree, closures)), b);
    ImplicationHolds(m, steps, Conclusion(d.tree));
  }

  // ----- independent verification -----

  /** Reading a term recovers exactly the pattern it was emitted for. */
  lemma {:induction false} ReadRecovers(t: RealizesTree, closures: Closures, next: nat)
    requires next + LeafCount(t) <= |closures|
    ensures var r := ReadClosures(t, Emit(t, closures, next));
            r.Some? && forall i :: 0 <= i < LeafCount(t) ==> r.value[i] == closures[next + i]
  {
    match t
    case Leaf(_) =>
    case Seq(a, b) => ReadRecovers(a, closures, next); ReadRecovers(b, closures, next + LeafCount(a));
    case Par(a, b) => ReadRecovers(a, closures, next); ReadRecovers(b, closures, next + LeafCount(a));
  }

  lemma ReadRecoversProof(t: RealizesTree, closures: Closures)
    requires |closures| == |Leaves(t)|
    ensures ReadClosures(t, StripBinders(ProofKind(t, closures))) == Some(closures)
  {
    ProofPlain(t, closures);
    ReadRecovers(t, closures, 0);
    assert ReadClosures(t, Emit(t, closures, 0)).value == closures;
  }

  lemma {:induction false} FirstUnadmittedCorrect(k: Kernel, leaves: seq<LeafStep>, closures: Closures, from: nat)
    requires |leaves| == |closures| && from <= |leaves|
    ensures FirstUnadmitted(k, leaves, closures, from).None? <==>
            forall i :: from <= i < |leaves| && closures[i].Some? ==> RelationCloses(k, closures[i].value, leaves[i])
    decreases |leaves| - from
  {
    if from < |leaves| && !(closures[from].Some? && !RelationCloses(k, closures[from].value, leaves[from])) {
      FirstUnadmittedCorrect(k, leaves, closures, from + 1);
    }
  }

  /** Verification succeeds exactly on the canonical terms of admissible patterns
      in the expected context that the kernel accepts, and mints that pattern. */
  lemma VerifyExact(el: Elaborator, d: TreeDerivation, context: Digest, term: ExplicitTerm, b: Budget, closures: Closures)
    requires |closures| == |Leaves(d.tree)|
    ensures (exists p :: VerifyTreeProof(el, d, context, term, b) == Ok(p) && p.occurrences == Occurrences(Leaves(d.tree), closures)) <==>
            d.structureVerified && WellFormed(d.tree) && Closable(el.k, Leaves(d.tree), closures)
            && term == ExplicitTerm(context, ProofKind(d.tree, closures))
            && Acceptance(Unrolled, el.k, context, ProofProp(d.tree, closures), term, b).Accepted?
  {
    var leaves := Leaves(d.tree);
    var v := VerifyTreeProof(el, d, context, term, b);
    if v.Ok? && v.proof.occurrences == Occurrences(leaves, closures) {
      var read := ReadClosures(d.tree, StripBinders(term.kind));
      FirstUnadmittedCorrect(el.k, leaves, read.value, 0);
      OccurrencesDetermineClosures(leaves, read.value, closures);
    }
    if d.structureVerified && WellFormed(d.tree) && Closable(el.k, leaves, closures)
       && term == ExplicitTerm(context, ProofKind(d.tree, closures))
       && Acceptance(Unrolled, el.k, context, ProofProp(d.tree, closures), term, b).Accepted?
    {
      ReadRecoversProof(d.tree, closures);
      FirstUnadmittedCorrect(el.k, leaves, closures, 0);
      assert v == Ok(v.proof);
    }
  }

  lemma OccurrencesDetermineClosures(leaves: seq<LeafStep>, a: Closures, b: Closures)
    requires |leaves| == |a| == |b| && Occurrences(leaves, a) == Occurrences(leaves, b)
    ensures a == b
  {
    forall i | 0 <= i < |a| ensures a[i] == b[i] {
      assert Occurrences(leaves, a)[i].closedBy == Occurrences(leaves, b)[i].closedBy;
    }
  }

  /** The steps of the occurrences that are not closed, in order. */
  function RemainingSteps(occurrences: seq<LeafOccurrence>): seq<LeafStep> {
    if |occurrences| == 0 then []
    else
      var last := occurrences[|occurrences| - 1];
      RemainingSteps(occurrences[..|occurrences| - 1]) + (if last.closedBy.None? then [last.step] else [])
  }

  lemma {:induction false} RemainingAreOpen(leaves: seq<LeafStep>, closures: Closures, i: nat)
    requires i <= |leaves| == |closures|
    ensures RemainingSteps(Occurrences(leaves, closures)[..i]) == OpenUpTo(leaves, closures, i)
  {
    if i > 0 {
      var o := Occurrences(leaves, closures);
      assert o[..i][..i - 1] == o[..i - 1];
      RemainingAreOpen(leaves, closures, i - 1);
    }
  }

  /** What a verified proof says: its context is the expected one, its term the
      given one, its antecedents are exactly the occurrences still open, in leaf
      order, and every closed occurrence is a registry row for that very leaf. */
  lemma VerifiedAccount(el: Elaborator, d: TreeDerivation, context: Digest, term: ExplicitTerm, b: Budget)
    requires VerifyTreeProof(el, d, context, term, b).Ok?
    ensures var p := VerifyTreeProof(el, d, context, term, b).proof;
            && p.context == context && term.context == context && p.term == term
            && p.derivation == el.derivationId(d) && p.certificateId == el.k.certificateId(context, p.proposition, term)
            && p.proposition == Implication(StepProps(RemainingSteps(p.occurrences)), Conclusion(d.tree))
            && |p.occurrences| == |Leaves(d.tree)|
            && forall i :: 0 <= i < |p.occurrences| ==>
                 && p.occurrences[i].index == i
                 && p.occurrences[i].step == Leaves(d.tree)[i]
                 && (p.occurrences[i].closedBy.Some? ==> RelationCloses(el.k, p.occurrences[i].closedBy.value, Leaves(d.tree)[i]))
  {
    var p := VerifyTreeProof(el, d, context, term, b).proof;
    var read := ReadClosures(d.tree, StripBinders(term.kind));
    FirstUnadmittedCorrect(el.k, Leaves(d.tree), read.value, 0);
    RemainingAreOpen(Leaves(d.tree), read.value, |Leaves(d.tree)|);
    assert p.occurrences[..|Leaves(d.tree)|] == p.occurrences;
  }

  ghost predicate CollisionFree(el: Elaborator) {
    forall d1, d2 :: el.derivationId(d1) == el.derivationId(d2) ==> d1 == d2
  }

  /** Verifying a canonical term against its own derivation and context. */
  lemma VerifyCanonical(el: Elaborator, d: TreeDerivation, context: Digest, closures: Closures, b: Budget)
    requires d.structureVerified && WellFormed(d.tree) && Closable(el.k, Leaves(d.tree), closures)
    ensures var term := ExplicitTerm(context, ProofKind(d.tree, closures));
            var v := Acceptance(Unrolled, el.k, context, ProofProp(d.tree, closures), term, b);
            VerifyTreeProof(el, d, context, term, b) ==
              if v.Accepted? then Ok(Mint(el, d, context, closures, v.certificateId)) else Err(NotAccepted(v))
  {
    ReadRecoversProof(d.tree, closures);
    FirstUnadmittedCorrect(el.k, Leaves(d.tree), closures, 0);
  }

  /** An elaborated proof rechecks exactly against its own derivation and context,
      on every budget that does not run out; any other derivation or context fails. */
  lemma RecheckExact(el: Elaborator, d: TreeDerivation, context: Digest, b: Budget,
                     d2: TreeDerivation, context2: Digest, b2: Budget)
    requires CollisionFree(el)
    requires Elaborate(el, d, context, b).Ok?
    ensures var p := Elaborate(el, d, context, b).proof;
            Recheck(el, p, d2, context2, b2).None? <==>
              d2 == d && context2 == context
              && !Acceptance(Unrolled, el.k, context, p.proposition, p.term, b2).ResourceExhausted?
  {
    var p := Elaborate(el, d, context, b).proof;
    var closures := Classify(el.k, el.candidates, Leaves(d.tree));
    ClassifyAdmissible(el.k, el.candidates, Leaves(d.tree));
    ElaborationComplete(el.k, d.tree, closures, context, b2);
    VerifyCanonical(el, d, context, closures, b2);
    if Recheck(el, p, d2, context2, b2).None? {
      VerifiedAccount(el, d2, context2, p.term, b2);
    }
  }

  /** A budget no smaller than the one it was elaborated on is enough. */
  lemma RecheckOnLargerBudget(el: Elaborator, d: TreeDerivation, context: Digest, b: Budget, b2: Budget)
    requires Elaborate(el, d, context, b).Ok?
    requires b2.maxSteps >= b.maxSteps && b2.maxDepth >= b.maxDepth
    ensures Recheck(el, Elaborate(el, d, context, b).proof, d, context, b2).None?
  {
    var p := Elaborate(el, d, context, b).proof;
    var closures := Classify(el.k, el.candidates, Leaves(d.tree));
    ClassifyAdmissible(el.k, el.candidates, Leaves(d.tree));
    ProofPlain(d.tree, closures);
    VerdictIsFinal(Unrolled, el.k, context, p.proposition, p.term, b, b2);
    VerifyCanonical(el, d, context, closures, b2);
  }

  // ----- linear decompositions -----

  /** The left-nested tree of a chain of generators between configurations. */
  function ChainTree(generators: seq<Digest>, configs: seq<Digest>): RealizesTree
    requires |generators| >= 1 && |configs| == |generators| + 1
    decreases |generators|
  {
    var n := |generators|;
    var last := Leaf(LeafStep(generators[n - 1], Atomic(configs[n - 1]), Atomic(configs[n])));
    if n == 1 then last else Seq(ChainTree(generators[..n - 1], configs[..n]), last)
  }

  function AllOpen(n: nat): Closures { seq(n, i => None) }

  function ChainSteps(generators: seq<Digest>, configs: seq<Digest>): seq<LeafStep>
    requires |configs| == |generators| + 1
  {
    seq(|generators|, i requires 0 <= i < |generators| => LeafStep(generators[i], Atomic(configs[i]), Atomic(configs[i + 1])))
  }

  lemma {:induction false} ChainTreeShape(generators: seq<Digest>, configs: seq<Digest>)
    requires |generators| >= 1 && |configs| == |generators| + 1
    ensures var t := ChainTree(generators, configs);
            WellFormed(t) && Leaves(t) == ChainSteps(generators, configs)
            && Src(t) == Atomic(configs[0]) && Dst(t) == Atomic(configs[|generators|])
    decreases |generators|
  {
    var n := |generators|;
    if n > 1 {
      ChainTreeShape(generators[..n - 1], configs[..n]);
      assert ChainSteps(generators, configs) ==
        ChainSteps(generators[..n - 1], configs[..n]) + [LeafStep(generators[n - 1], Atomic(configs[n - 1]), Atomic(configs[n]))];
    }
  }

  lemma {:induction false} AllOpenSteps(leaves: seq<LeafStep>, i: nat)
    requires i <= |leaves|
    ensures OpenBefore(AllOpen(|leaves|), i) == i
    ensures OpenUpTo(leaves, AllOpen(|leaves|), i) == leaves[..i]
  {
    if i > 0 { AllOpenSteps(leaves, i - 1); }
  }
}
