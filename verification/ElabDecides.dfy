/** When elaboration succeeds, and what a success accounts for. */
module ElabDecides {
  import opened Options
  import opened KernelTerms
  import opened KernelRules
  import opened KernelScoping
  import opened KernelDerivations
  import opened KernelCompleteness
  import KernelRefinement
  import opened ElabTree
  import opened ElabProofs

  // ----- closing a leaf -----

  /** A relation closes a leaf if and only if it is a typing relation with a
      registry row that says what the leaf says. */
  lemma RelationClosesExact(k: Kernel, relation: Digest, s: LeafStep)
    ensures RelationCloses(k, relation, s) <==>
            && RegistryRow(k, relation, ToObject(s.src), ToObject(s.dst), StepProp(s))
            && k.resolve(relation).value.judgmentKind.Typing?
  {
  }

  /** The candidate that is chosen closes the leaf and none before it does; if none
      is chosen, none closes it. */
  lemma {:induction false} FirstCandidate(k: Kernel, candidates: seq<Digest>, s: LeafStep) returns (at: nat)
    ensures at <= |candidates|
    ensures forall i :: 0 <= i < at ==> !RelationCloses(k, candidates[i], s)
    ensures var c := ClassifyLeaf(k, candidates, s);
            if at == |candidates| then c.None? else c == Some(candidates[at]) && RelationCloses(k, candidates[at], s)
  {
    if |candidates| == 0 || RelationCloses(k, candidates[0], s) {
      at := 0;
    } else {
      var rest := FirstCandidate(k, candidates[1..], s);
      assert forall i :: 0 < i < rest + 1 ==> candidates[i] == candidates[1..][i - 1];
      at := rest + 1;
    }
  }

  // ----- the derivation of the built proof -----

  /** One step a node and one depth unit a level. */
  function TreeSynthesis(t: RealizesTree, closures: Closures, next: nat): (s: Synthesis)
    requires next + LeafCount(t) <= |closures|
    ensures Steps(s) == Nodes(t) && KernelDerivations.Levels(s) == ElabProofs.Levels(t)
    ensures if t.Leaf? then s.Assumed? || s.Listed? else s.Chained? || s.Stacked?
  {
    match t
    case Leaf(_) => if closures[next].Some? then Listed else Assumed(OpenBefore(closures, next))
    case Seq(a, b) =>
      Chained(TreeSynthesis(a, closures, next), Conclusion(a), TreeSynthesis(b, closures, next + LeafCount(a)), Conclusion(b))
    case Par(a, b) =>
      Stacked(TreeSynthesis(a, closures, next), Conclusion(a), TreeSynthesis(b, closures, next + LeafCount(a)), Conclusion(b))
  }

  /** At the root a composition is checked against the goal, and a leaf takes the
      rule that finds a type. */
  function Rooted(s: Synthesis): (c: Checking)
    requires s.Assumed? || s.Listed? || s.Chained? || s.Stacked?
    ensures GoalSteps(c) == Steps(s) + (if s.Chained? || s.Stacked? then 0 else 1)
    ensures GoalLevels(c) == KernelDerivations.Levels(s) + (if s.Chained? || s.Stacked? then 0 else 1)
  {
    match s
    case Chained(first, p, second, q) => ChainedTo(first, p, second, q)
    case Stacked(first, p, second, q) => StackedTo(first, p, second, q)
    case _ => Found(s)
  }

  lemma RootedChecks(k: Kernel, g: Gamma, x: TermKind, p: Prop, s: Synthesis)
    requires (s.Assumed? || s.Listed? || s.Chained? || s.Stacked?) && Synthesizes(k, g, x, p, s)
    ensures Checks(k, g, x, p, Rooted(s))
  {
  }

  function Under(binders: nat, c: Checking): Checking {
    if binders == 0 then c else Abstracted(Under(binders - 1, c))
  }

  lemma {:induction false} UnderCost(binders: nat, c: Checking)
    ensures GoalSteps(Under(binders, c)) == binders + GoalSteps(c)
    ensures GoalLevels(Under(binders, c)) == binders + GoalLevels(c)
  {
    if binders > 0 { UnderCost(binders - 1, c); }
  }

  lemma LeafSynthesizes(k: Kernel, g: Gamma, s: LeafStep, leaves: seq<LeafStep>, closures: Closures, next: nat)
    requires Closable(k, leaves, closures) && HypsMatch(g, leaves, closures)
    requires next < |leaves| && leaves[next] == s
    ensures Synthesizes(k, g, Emit(Leaf(s), closures, next), StepProp(s), TreeSynthesis(Leaf(s), closures, next))
  {
    if closures[next].Some? { RelationClosesExact(k, closures[next].value, s); }
  }

  lemma SeqIsFound(k: Kernel, g: Gamma, a: RealizesTree, b: RealizesTree, x: TermKind, y: TermKind, first: Synthesis, second: Synthesis)
    requires Synthesizes(k, g, x, Conclusion(a), first) && Synthesizes(k, g, y, Conclusion(b), second) && Dst(a) == Src(b)
    ensures Synthesizes(k, g, RealizesComp(x, y), Conclusion(Seq(a, b)), Chained(first, Conclusion(a), second, Conclusion(b)))
  {
  }

  lemma ParIsFound(k: Kernel, g: Gamma, a: RealizesTree, b: RealizesTree, x: TermKind, y: TermKind, first: Synthesis, second: Synthesis)
    requires Synthesizes(k, g, x, Conclusion(a), first) && Synthesizes(k, g, y, Conclusion(b), second)
    ensures Synthesizes(k, g, RealizesTensor(x, y), Conclusion(Par(a, b)), Stacked(first, Conclusion(a), second, Conclusion(b)))
  {
  }

  lemma {:induction false} EmitSynthesizes(k: Kernel, g: Gamma, t: RealizesTree, leaves: seq<LeafStep>, closures: Closures, next: nat)
    requires Closable(k, leaves, closures) && HypsMatch(g, leaves, closures)
    requires WellFormed(t) && LeavesAt(t, leaves, next)
    ensures Synthesizes(k, g, Emit(t, closures, next), Conclusion(t), TreeSynthesis(t, closures, next))
  {
    match t
    case Leaf(s) => LeafSynthesizes(k, g, s, leaves, closures, next);
    case Seq(a, b) =>
      EmitSynthesizes(k, g, a, leaves, closures, next);
      EmitSynthesizes(k, g, b, leaves, closures, next + LeafCount(a));
      SeqSynthesizes(k, g, a, b, closures, next);
    case Par(a, b) =>
      EmitSynthesizes(k, g, a, leaves, closures, next);
      EmitSynthesizes(k, g, b, leaves, closures, next + LeafCount(a));
      ParSynthesizes(k, g, a, b, closures, next);
  }

  lemma SeqSynthesizes(k: Kernel, g: Gamma, a: RealizesTree, b: RealizesTree, closures: Closures, next: nat)
    requires next + LeafCount(a) + LeafCount(b) <= |closures| && Dst(a) == Src(b)
    requires Synthesizes(k, g, Emit(a, closures, next), Conclusion(a), TreeSynthesis(a, closures, next))
    requires Synthesizes(k, g, Emit(b, closures, next + LeafCount(a)), Conclusion(b), TreeSynthesis(b, closures, next + LeafCount(a)))
    ensures Synthesizes(k, g, Emit(Seq(a, b), closures, next), Conclusion(Seq(a, b)), TreeSynthesis(Seq(a, b), closures, next))
  {
    SeqIsFound(k, g, a, b, Emit(a, closures, next), Emit(b, closures, next + LeafCount(a)),
               TreeSynthesis(a, closures, next), TreeSynthesis(b, closures, next + LeafCount(a)));
  }

  lemma ParSynthesizes(k: Kernel, g: Gamma, a: RealizesTree, b: RealizesTree, closures: Closures, next: nat)
    requires next + LeafCount(a) + LeafCount(b) <= |closures|
    requires Synthesizes(k, g, Emit(a, closures, next), Conclusion(a), TreeSynthesis(a, closures, next))
    requires Synthesizes(k, g, Emit(b, closures, next + LeafCount(a)), Conclusion(b), TreeSynthesis(b, closures, next + LeafCount(a)))
    ensures Synthesizes(k, g, Emit(Par(a, b), closures, next), Conclusion(Par(a, b)), TreeSynthesis(Par(a, b), closures, next))
  {
    ParIsFound(k, g, a, b, Emit(a, closures, next), Emit(b, closures, next + LeafCount(a)),
               TreeSynthesis(a, closures, next), TreeSynthesis(b, closures, next + LeafCount(a)));
  }

  lemma EmitIsChecked(k: Kernel, g: Gamma, t: RealizesTree, closures: Closures)
    requires WellFormed(t) && Closable(k, Leaves(t), closures) && HypsMatch(g, Leaves(t), closures)
    ensures Checks(k, g, Emit(t, closures, 0), Conclusion(t), Rooted(TreeSynthesis(t, closures, 0)))
  {
    OwnLeaves(t, [], []);
    assert [] + Leaves(t) + [] == Leaves(t);
    EmitSynthesizes(k, g, t, Leaves(t), closures, 0);
    RootedChecks(k, g, Emit(t, closures, 0), Conclusion(t), TreeSynthesis(t, closures, 0));
  }

  lemma {:induction false} SpineDerives(k: Kernel, steps: seq<LeafStep>, i: nat, body: TermKind, goal: Prop, c: Checking)
    requires i <= |steps| && Checks(k, HypStack(steps), body, goal, c)
    ensures Checks(k, HypStack(steps[..i]), Binders(i, |steps|, body), Implication(StepProps(steps[i..]), goal), Under(|steps| - i, c))
    decreases |steps| - i
  {
    if i < |steps| {
      SpineDerives(k, steps, i + 1, body, goal, c);
      SpineStep(steps, i);
    } else {
      assert steps[..i] == steps;
    }
  }

  lemma SpineStep(steps: seq<LeafStep>, i: nat)
    requires i < |steps|
    ensures |StepProps(steps[i..])| > 0 && StepProps(steps[i..])[0] == StepProp(steps[i])
    ensures StepProps(steps[i..])[1..] == StepProps(steps[i + 1..])
    ensures HypStack(steps[..i]) + [(BinderName(i), StepProp(steps[i]))] == HypStack(steps[..i + 1])
  {
  }

  /** What the derivation of the built proof costs. */
  function ProofSteps(t: RealizesTree, closures: Closures): nat {
    OpenCount(closures) + Nodes(t) + (if t.Leaf? then 1 else 0)
  }

  function ProofLevels(t: RealizesTree, closures: Closures): nat {
    OpenCount(closures) + ElabProofs.Levels(t) + (if t.Leaf? then 1 else 0)
  }

  /** The kernel accepts the built proof if and only if the budget has a step for
      every node and binder and a depth unit for every level and binder, and one
      more of each for a tree that is a leaf. */
  lemma BuiltProofDecides(k: Kernel, t: RealizesTree, closures: Closures, context: Digest, b: Budget)
    requires WellFormed(t) && Closable(k, Leaves(t), closures)
    ensures var v := Acceptance(Unrolled, k, context, ProofProp(t, closures), ExplicitTerm(context, ProofKind(t, closures)), b);
            if b.maxSteps >= ProofSteps(t, closures) && b.maxDepth >= ProofLevels(t, closures) then v.Accepted?
            else v.ResourceExhausted?
  {
    var c := Rooted(TreeSynthesis(t, closures, 0));
    var steps := OpenSteps(Leaves(t), closures);
    HypStackMatches(Leaves(t), closures);
    EmitIsChecked(k, HypStack(steps), t, closures);
    SpineDerives(k, steps, 0, Emit(t, closures, 0), Conclusion(t), c);
    assert steps[0..] == steps && HypStack(steps[..0]) == [];
    UnderCost(|steps|, c);
    PlainProof(k, t, closures, b.maxSteps, Under(|steps|, c));
    CheckFinds(k, b.maxSteps, b.maxDepth, [], ProofKind(t, closures), ProofProp(t, closures), Under(|steps|, c));
    KernelRefinement.CheckAgrees(k, b.maxSteps, b.maxDepth, [], ProofKind(t, closures), ProofProp(t, closures));
    ElaborationComplete(k, t, closures, context, b);
  }

  lemma PlainProof(k: Kernel, t: RealizesTree, closures: Closures, n: int, c: Checking)
    requires |closures| == |Leaves(t)| && Checks(k, [], ProofKind(t, closures), ProofProp(t, closures), c)
    ensures GoalTimed(k, n, ProofKind(t, closures), c)
  {
    ProofPlain(t, closures);
    UnpackFreePlainGoal(k, [], ProofKind(t, closures), ProofProp(t, closures), c);
    PlainGoalTimed(k, n, ProofKind(t, closures), c);
  }

  // ----- malformed trees -----

  lemma {:induction false} ToObjectInjective(x: TreeObj, y: TreeObj)
    requires ToObject(x) == ToObject(y)
    ensures x == y
  {
    match x
    case Atomic(_) =>
    case Product(a, b) => ToObjectInjective(a, y.left); ToObjectInjective(b, y.right);
  }

  lemma LeafIsStep(k: Kernel, g: Gamma, step: LeafStep, leaves: seq<LeafStep>, closures: Closures, next: nat, p: Prop, s: Synthesis)
    requires Closable(k, leaves, closures) && HypsMatch(g, leaves, closures)
    requires next < |leaves| && leaves[next] == step
    requires Synthesizes(k, g, Emit(Leaf(step), closures, next), p, s)
    ensures p == StepProp(step)
  {
    if closures[next].None? { OpenGrows(closures, next + 1, |closures|); }
  }

  /** Only a well-formed tree's term has a type, and that is the conclusion. */
  lemma {:induction false} SynthesizedIsWellFormed(k: Kernel, g: Gamma, t: RealizesTree, leaves: seq<LeafStep>, closures: Closures,
                                                   next: nat, p: Prop, s: Synthesis)
    requires Closable(k, leaves, closures) && HypsMatch(g, leaves, closures) && LeavesAt(t, leaves, next)
    requires Synthesizes(k, g, Emit(t, closures, next), p, s)
    ensures WellFormed(t) && p == Conclusion(t)
    decreases LeafCount(t), 1
  {
    match t
    case Leaf(step) => LeafIsStep(k, g, step, leaves, closures, next, p, s);
    case Seq(a, b) => PartsAreWellFormed(k, g, a, b, leaves, closures, next, s.first, s.p, s.second, s.q);
    case Par(a, b) => PartsAreWellFormed(k, g, a, b, leaves, closures, next, s.first, s.p, s.second, s.q);
  }

  lemma {:induction false} PartsAreWellFormed(k: Kernel, g: Gamma, a: RealizesTree, b: RealizesTree, leaves: seq<LeafStep>, closures: Closures,
                                              next: nat, first: Synthesis, p: Prop, second: Synthesis, q: Prop)
    requires Closable(k, leaves, closures) && HypsMatch(g, leaves, closures)
    requires LeavesAt(a, leaves, next) && LeavesAt(b, leaves, next + LeafCount(a))
    requires Synthesizes(k, g, Emit(a, closures, next), p, first)
    requires Synthesizes(k, g, Emit(b, closures, next + LeafCount(a)), q, second)
    ensures WellFormed(a) && p == Conclusion(a) && WellFormed(b) && q == Conclusion(b)
    ensures p.dst == q.src ==> Dst(a) == Src(b)
    decreases LeafCount(a) + LeafCount(b), 0
  {
    SynthesizedIsWellFormed(k, g, a, leaves, closures, next, p, first);
    SynthesizedIsWellFormed(k, g, b, leaves, closures, next + LeafCount(a), q, second);
    if p.dst == q.src { ToObjectInjective(Dst(a), Src(b)); }
  }

  lemma SeqIsWellFormed(k: Kernel, g: Gamma, a: RealizesTree, b: RealizesTree, leaves: seq<LeafStep>, closures: Closures, e: Prop, c: Checking)
    requires Closable(k, leaves, closures) && HypsMatch(g, leaves, closures) && LeavesAt(Seq(a, b), leaves, 0)
    requires e.Realizes? && Checks(k, g, RealizesComp(Emit(a, closures, 0), Emit(b, closures, LeafCount(a))), e, c)
    ensures WellFormed(Seq(a, b))
  {
    PartsAreWellFormed(k, g, a, b, leaves, closures, 0, c.first, c.p, c.second, c.q);
  }

  lemma ParIsWellFormed(k: Kernel, g: Gamma, a: RealizesTree, b: RealizesTree, leaves: seq<LeafStep>, closures: Closures, e: Prop, c: Checking)
    requires Closable(k, leaves, closures) && HypsMatch(g, leaves, closures) && LeavesAt(Par(a, b), leaves, 0)
    requires e.Realizes? && Checks(k, g, RealizesTensor(Emit(a, closures, 0), Emit(b, closures, LeafCount(a))), e, c)
    ensures WellFormed(Par(a, b))
  {
    PartsAreWellFormed(k, g, a, b, leaves, closures, 0, c.first, c.p, c.second, c.q);
  }

  lemma CheckedIsWellFormed(k: Kernel, g: Gamma, t: RealizesTree, closures: Closures, c: Checking)
    requires Closable(k, Leaves(t), closures) && HypsMatch(g, Leaves(t), closures)
    requires Checks(k, g, Emit(t, closures, 0), Conclusion(t), c)
    ensures WellFormed(t)
  {
    OwnLeaves(t, [], []);
    assert [] + Leaves(t) + [] == Leaves(t);
    match t
    case Leaf(_) =>
    case Seq(a, b) => SeqIsWellFormed(k, g, a, b, Leaves(t), closures, Conclusion(t), c);
    case Par(a, b) => ParIsWellFormed(k, g, a, b, Leaves(t), closures, Conclusion(t), c);
  }

  lemma {:induction false} SpineInverts(k: Kernel, steps: seq<LeafStep>, i: nat, body: TermKind, goal: Prop, c: Checking) returns (inner: Checking)
    requires i <= |steps|
    requires Checks(k, HypStack(steps[..i]), Binders(i, |steps|, body), Implication(StepProps(steps[i..]), goal), c)
    ensures Checks(k, HypStack(steps), body, goal, inner)
    decreases |steps| - i
  {
    if i < |steps| {
      SpineStep(steps, i);
      inner := SpineInverts(k, steps, i + 1, body, goal, c.body);
    } else {
      assert steps[..i] == steps;
      inner := c;
    }
  }

  /** Were it submitted all the same, the kernel would not accept the proof built
      for a malformed tree: on an ample budget it accepts exactly the proofs of
      well-formed ones. */
  lemma AcceptedIffWellFormed(k: Kernel, t: RealizesTree, closures: Closures, context: Digest, b: Budget)
    requires Closable(k, Leaves(t), closures)
    requires b.maxSteps >= ProofSteps(t, closures) && b.maxDepth >= ProofLevels(t, closures)
    ensures Acceptance(Unrolled, k, context, ProofProp(t, closures), ExplicitTerm(context, ProofKind(t, closures)), b).Accepted? <==>
            WellFormed(t)
  {
    var p, term := ProofProp(t, closures), ExplicitTerm(context, ProofKind(t, closures));
    if WellFormed(t) {
      BuiltProofDecides(k, t, closures, context, b);
    } else if Acceptance(Unrolled, k, context, p, term, b).Accepted? {
      AcceptanceExact(k, context, p, term, b);
      var c :| Reaches(k, p, term.kind, b, c);
      var steps := OpenSteps(Leaves(t), closures);
      assert steps[0..] == steps && HypStack(steps[..0]) == [];
      var inner := SpineInverts(k, steps, 0, Emit(t, closures, 0), Conclusion(t), c);
      HypStackMatches(Leaves(t), closures);
      CheckedIsWellFormed(k, HypStack(steps), t, closures, inner);
    }
  }

  // ----- elaboration -----

  /** Some candidate closes the leaf. */
  ghost predicate Closes(el: Elaborator, s: LeafStep) {
    exists r :: r in el.candidates && RelationCloses(el.k, r, s)
  }

  /** The account of a success: context, derivation and certificate; every leaf has
      one occurrence, in order, closed exactly when some candidate closes the leaf,
      by one that does; and the antecedents are the leaves left open. */
  ghost predicate Accounts(el: Elaborator, d: TreeDerivation, context: Digest, p: AcceptedTreeProof) {
    var leaves := Leaves(d.tree);
    && p.context == context && p.derivation == el.derivationId(d)
    && p.certificateId == el.k.certificateId(context, p.proposition, p.term)
    && p.proposition == Implication(StepProps(RemainingSteps(p.occurrences)), Conclusion(d.tree))
    && |p.occurrences| == |leaves|
    && forall i :: 0 <= i < |leaves| ==>
         && p.occurrences[i].index == i && p.occurrences[i].step == leaves[i]
         && (p.occurrences[i].closedBy.Some? <==> Closes(el, leaves[i]))
         && (p.occurrences[i].closedBy.Some? ==> RelationCloses(el.k, p.occurrences[i].closedBy.value, leaves[i]))
  }

  lemma MintAccounts(el: Elaborator, d: TreeDerivation, context: Digest, closures: Closures, certificateId: Digest)
    requires closures == Classify(el.k, el.candidates, Leaves(d.tree))
    requires certificateId == el.k.certificateId(context, ProofProp(d.tree, closures), ExplicitTerm(context, ProofKind(d.tree, closures)))
    ensures Accounts(el, d, context, Mint(el, d, context, closures, certificateId))
  {
    var leaves := Leaves(d.tree);
    var p := Mint(el, d, context, closures, certificateId);
    RemainingAreOpen(leaves, closures, |leaves|);
    assert p.occurrences[..|leaves|] == p.occurrences;
    forall i | 0 <= i < |leaves|
      ensures p.occurrences[i].closedBy.Some? <==> Closes(el, leaves[i])
      ensures p.occurrences[i].closedBy.Some? ==> RelationCloses(el.k, p.occurrences[i].closedBy.value, leaves[i])
    {
      ClassifyLeafCloses(el.k, el.candidates, leaves[i]);
    }
  }

  /** Elaboration succeeds if and only if the structure was verified, the tree is
      well formed, and the budget reaches the cost of the built proof; the error
      says which. */
  lemma ElaborateDecides(el: Elaborator, d: TreeDerivation, context: Digest, b: Budget)
    ensures var e := Elaborate(el, d, context, b);
            var closures := Classify(el.k, el.candidates, Leaves(d.tree));
            if !d.structureVerified || !WellFormed(d.tree) then e == Err(DerivationNotVerified)
            else if b.maxSteps < ProofSteps(d.tree, closures) || b.maxDepth < ProofLevels(d.tree, closures)
            then e.Err? && e.error.NotAccepted? && e.error.verdict.ResourceExhausted?
            else e.Ok? && Accounts(el, d, context, e.proof)
  {
    var closures := Classify(el.k, el.candidates, Leaves(d.tree));
    if d.structureVerified && WellFormed(d.tree) {
      ClassifyAdmissible(el.k, el.candidates, Leaves(d.tree));
      BuiltProofDecides(el.k, d.tree, closures, context, b);
      if Elaborate(el, d, context, b).Ok? {
        MintAccounts(el, d, context, closures, Elaborate(el, d, context, b).proof.certificateId);
      }
    }
  }
}
