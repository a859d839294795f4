/** The elaborator as it runs: a cursor over the leaves, loops that wrap the
    implication and the binders, a sink that reads an untrusted term, and the
    linear-chain elaboration. Each is proved against the functions of ElabTree. */
module ElabBuilder {
  import opened Options
  import opened KernelTerms
  import opened KernelRules
  import KernelChecker
  import opened ElabTree
  import opened ElabProofs

  class Cursor {
    const closures: Closures
    const leaves: seq<LeafStep>
    const binders: nat
    var open: nat
    var next: nat

    ghost predicate Valid()
      reads this
    {
      |leaves| == |closures| && binders == OpenCount(closures)
      && next <= |closures| && open == OpenBefore(closures, next)
    }

    constructor (leaves: seq<LeafStep>, closures: Closures, binders: nat)
      requires |leaves| == |closures| && binders == OpenCount(closures)
      ensures Valid() && next == 0 && this.leaves == leaves && this.closures == closures
    {
      this.leaves, this.closures, this.binders := leaves, closures, binders;
      open, next := 0, 0;
    }

    method EmitTerm(t: RealizesTree) returns (kind: TermKind)
      requires Valid() && LeavesAt(t, leaves, next)
      modifies this
      ensures Valid() && next == old(next) + LeafCount(t)
      ensures kind == Emit(t, closures, old(next))
      decreases t
    {
      match t
      case Leaf(_) =>
        var i := next;
        next := next + 1;
        match closures[i] {
          case Some(relation) =>
            kind := PrimRealizes(relation, ToObject(leaves[i].src), ToObject(leaves[i].dst));
          case None =>
            OpenGrows(closures, i + 1, |closures|);
            var idx := binders - 1 - open;
            open := open + 1;
            kind := Hyp(Index(idx));
        }
      case Seq(a, b) =>
        var left := EmitTerm(a);
        var right := EmitTerm(b);
        kind := RealizesComp(left, right);
      case Par(a, b) =>
        var left := EmitTerm(a);
        var right := EmitTerm(b);
        kind := RealizesTensor(left, right);
    }
  }

  /** `h_1 → … → h_n → goal`, wrapped from the last hypothesis inwards. */
  method WrapImplication(antecedents: seq<Prop>, goal: Prop) returns (p: Prop)
    ensures p == Implication(antecedents, goal)
  {
    p := goal;
    var i := |antecedents|;
    while i > 0
      invariant 0 <= i <= |antecedents|
      invariant p == Implication(antecedents[i..], goal)
    {
      i := i - 1;
      assert antecedents[i..][1..] == antecedents[i + 1..];
      p := Impl(antecedents[i], p);
    }
    assert antecedents[0..] == antecedents;
  }

  method WrapBinders(count: nat, body: TermKind) returns (kind: TermKind)
    ensures kind == Binders(0, count, body)
  {
    kind := body;
    var i := count;
    while i > 0
      invariant 0 <= i <= count
      invariant kind == Binders(i, count, body)
    {
      i := i - 1;
      kind := Lam(BinderName(i), kind);
    }
  }

  method BuildProof(t: RealizesTree, closures: Closures, context: Digest) returns (p: Prop, term: ExplicitTerm)
    requires |closures| == |Leaves(t)|
    ensures p == ProofProp(t, closures)
    ensures term == ExplicitTerm(context, ProofKind(t, closures))
  {
    var leaves := Leaves(t);
    var openProps := StepProps(OpenSteps(leaves, closures));
    var binders := |openProps|;
    p := WrapImplication(openProps, Conclusion(t));
    OwnLeaves(t, [], []);
    assert [] + leaves + [] == leaves;
    var cursor := new Cursor(leaves, closures, binders);
    var body := cursor.EmitTerm(t);
    var kind := WrapBinders(binders, body);
    term := ExplicitTerm(context, kind);
  }

  class Sink {
    var out: Closures

    constructor ()
      ensures out == []
    {
      out := [];
    }

    /** Push the closure of every leaf the term shows, in leaf order; stop at the
        first place where term and tree have different shapes. */
    method Read(t: RealizesTree, kind: TermKind) returns (ok: bool)
      modifies this
      ensures ok == ReadClosures(t, kind).Some?
      ensures ok ==> out == old(out) + ReadClosures(t, kind).value
      decreases t
    {
      if t.Leaf? && kind.Hyp? {
        out := out + [None];
        return true;
      } else if t.Leaf? && kind.PrimRealizes? {
        out := out + [Some(kind.relation)];
        return true;
      } else if t.Seq? && kind.RealizesComp? {
        ok := Read(t.first, kind.left);
        if !ok { return; }
        ok := Read(t.second, kind.right);
      } else if t.Par? && kind.RealizesTensor? {
        ok := Read(t.left, kind.left);
        if !ok { return; }
        ok := Read(t.right, kind.right);
      } else {
        return false;
      }
    }
  }

  /** Verification of an untrusted term; the kernel runs on a fresh checker. */
  method VerifyTree(el: Elaborator, d: TreeDerivation, context: Digest, term: ExplicitTerm, b: Budget) returns (r: Checked)
    ensures r == VerifyTreeProof(el, d, context, term, b)
  {
    if !d.structureVerified { return Err(DerivationNotVerified); }
    if !WellFormed(d.tree) { return Err(DerivationNotVerified); }
    var leaves := Leaves(d.tree);

    var body := term.kind;
    while body.Lam?
      invariant StripBinders(body) == StripBinders(term.kind)
      decreases body
    {
      body := body.body;
    }
    var sink := new Sink();
    var ok := sink.Read(d.tree, body);
    if !ok { return Err(ShapeMismatch); }
    var closures := sink.out;
    assert closures == ReadClosures(d.tree, StripBinders(term.kind)).value;

    var index := 0;
    while index < |leaves|
      invariant index <= |leaves|
      invariant FirstUnadmitted(el.k, leaves, closures, 0) == FirstUnadmitted(el.k, leaves, closures, index)
    {
      if closures[index].Some? && !RelationCloses(el.k, closures[index].value, leaves[index]) {
        return Err(PrimitiveNotAdmitted(index));
      }
      index := index + 1;
    }

    var proposition, expected := BuildProof(d.tree, closures, context);
    if expected.kind != term.kind { return Err(NonCanonicalTerm); }
    var v := KernelChecker.Accept(el.k, context, proposition, term, b);
    if v.Accepted? {
      return Ok(Mint(el, d, context, closures, v.certificateId));
    }
    return Err(NotAccepted(v));
  }

  // ----- linear decompositions -----

  /** compose(g_n, … compose(g_2, g_1)) */
  method CompositeWitness(generators: seq<Digest>, ghost configs: seq<Digest>) returns (kTerm: ObjectTerm)
    requires |generators| >= 1 && |configs| == |generators| + 1
    ensures kTerm == WitnessObject(ChainTree(generators, configs))
  {
    var n := |generators|;
    kTerm := Const(generators[0]);
    var i := 1;
    assert generators[..1] == [generators[0]];
    while i < n
      invariant 1 <= i <= n
      invariant kTerm == WitnessObject(ChainTree(generators[..i], configs[..i + 1]))
    {
      ChainPrefix(generators, configs, i);
      kTerm := Compose(Const(generators[i]), kTerm);
      i := i + 1;
    }
    assert generators[..n] == generators && configs[..n + 1] == configs;
  }

  /** The left-nested composition of all `n` hypotheses, hypothesis `i` at index
      `n - i`. */
  method ChainBody(n: nat, ghost generators: seq<Digest>, ghost configs: seq<Digest>) returns (body: TermKind)
    requires |generators| == n >= 1 && |configs| == n + 1
    ensures LeafCount(ChainTree(generators, configs)) == n
    ensures body == Emit(ChainTree(generators, configs), AllOpen(n), 0)
  {
    body := Hyp(Index(n - 1));
    AllOpenBefore(n, 0);
    AllOpenBefore(n, n);
    var i := 1;
    while i < n
      invariant 1 <= i <= n
      invariant LeafCount(ChainTree(generators[..i], configs[..i + 1])) == i
      invariant body == Emit(ChainTree(generators[..i], configs[..i + 1]), AllOpen(n), 0)
    {
      ChainPrefix(generators, configs, i);
      AllOpenBefore(n, i);
      body := RealizesComp(body, Hyp(Index(n - 1 - i)));
      i := i + 1;
    }
    assert generators[..n] == generators && configs[..n + 1] == configs;
  }

  /** The proof of a chain of generators between configurations is the tree proof
      of the left-nested tree with every leaf open. */
  method ElaborateDecomposition(generators: seq<Digest>, configs: seq<Digest>) returns (r: Option<(Prop, TermKind)>)
    requires |configs| == |generators| + 1
    ensures r.None? <==> |generators| == 0
    ensures r.Some? ==>
      var t := ChainTree(generators, configs);
      |Leaves(t)| == |generators| && r.value == (ProofProp(t, AllOpen(|generators|)), ProofKind(t, AllOpen(|generators|)))
  {
    var n := |generators|;
    if n == 0 { return None; }
    ghost var t := ChainTree(generators, configs);
    ChainTreeShape(generators, configs);
    AllOpenSteps(Leaves(t), n);
    assert Leaves(t)[..n] == Leaves(t);
    var kTerm := CompositeWitness(generators, configs);
    var goal := Realizes(kTerm, Const(configs[0]), Const(configs[n]));
    var implication := WrapImplication(StepProps(ChainSteps(generators, configs)), goal);
    var body := ChainBody(n, generators, configs);
    var kind := WrapBinders(n, body);
    return Some((implication, kind));
  }

  lemma ChainPrefix(generators: seq<Digest>, configs: seq<Digest>, i: nat)
    requires 1 <= i < |generators| && |configs| == |generators| + 1
    ensures ChainTree(generators[..i + 1], configs[..i + 2]) ==
            Seq(ChainTree(generators[..i], configs[..i + 1]),
                Leaf(LeafStep(generators[i], Atomic(configs[i]), Atomic(configs[i + 1]))))
  {
    assert generators[..i + 1][..i] == generators[..i];
    assert configs[..i + 2][..i + 1] == configs[..i + 1];
  }

  lemma {:induction false} AllOpenBefore(n: nat, i: nat)
    requires i <= n
    ensures OpenBefore(AllOpen(n), i) == i
  {
    if i > 0 { AllOpenBefore(n, i - 1); }
  }

  /** Every decomposition of at least one step elaborates to a proof the kernel
      accepts on any budget that does not run out. */
  method ElaborateDecompositionAccepted(k: Kernel, context: Digest, generators: seq<Digest>, configs: seq<Digest>, b: Budget)
    returns (v: Option<Verdict>)
    requires |configs| == |generators| + 1
    ensures v.None? <==> |generators| == 0
    ensures v.Some? ==> v.value.Accepted? || v.value.ResourceExhausted?
    ensures v.Some? && b.maxSteps >= 5 * |generators| && b.maxDepth >= 3 * |generators| ==> v.value.Accepted?
  {
    var r := ElaborateDecomposition(generators, configs);
    match r
    case None => return None;
    case Some((p, kind)) =>
      var out := KernelChecker.Accept(k, context, p, ExplicitTerm(context, kind), b);
      ghost var t := ChainTree(generators, configs);
      ChainTreeShape(generators, configs);
      AllOpenBefore(|generators|, |generators|);
      ChainNodes(generators, configs);
      ElaborationComplete(k, t, AllOpen(|generators|), context, b);
      return Some(out);
  }

  lemma {:induction false} ChainNodes(generators: seq<Digest>, configs: seq<Digest>)
    requires |generators| >= 1 && |configs| == |generators| + 1
    ensures Nodes(ChainTree(generators, configs)) == 2 * |generators| - 1
    ensures Levels(ChainTree(generators, configs)) == |generators|
    decreases |generators|
  {
    if |generators| > 1 { ChainNodes(generators[..|generators| - 1], configs[..|generators|]); }
  }
}
