/** The checker as it runs: one mutable budget and one mutable hypothesis stack,
    with the λ-spine and the right-nested composition chain walked by loops.
    Every method refines the rule of the same name, restores the stack and the
    depth on every exit, and leaves exactly the rule's steps. */
module KernelChecker {
  import opened Options
  import opened KernelTerms
  import opened KernelRules

  datatype Result<+T> = Ok(value: T) | Err(verdict: Failure) {
    predicate IsFailure() { Err? }
    function PropagateFailure<U>(): Result<U> requires Err? { Err(verdict) }
    function Extract(): T requires Ok? { value }
  }

  function Ended<T>(r: Result<T>, steps: nat): Outcome<T> {
    match r
    case Ok(x) => Done(x, steps)
    case Err(v) => Fail(v, steps)
  }

  /** The witness of a right-nested chain: the last one, composed with those
      collected on the way down, innermost first. */
  function FoldWitness(last: ObjectTerm, witnesses: seq<ObjectTerm>): ObjectTerm
    decreases |witnesses|
  {
    if |witnesses| == 0 then last
    else FoldWitness(Compose(last, witnesses[|witnesses| - 1]), witnesses[..|witnesses| - 1])
  }

  /** What a chain result amounts to after the witnesses above it are folded in. */
  function Wrap(o: Outcome<Prop>, witnesses: seq<ObjectTerm>, src: ObjectTerm): Outcome<Prop> {
    if o.Fail? || !o.value.Realizes? then o
    else Done(Realizes(FoldWitness(o.value.wit, witnesses), src, o.value.dst), o.left)
  }

  lemma {:induction false} SpineStartsAt(k: Kernel, n: nat, d: nat, g: Gamma, y: ObjectTerm, t: TermKind)
    requires t.RealizesComp?
    ensures var o := Spine(Unrolled, k, n, d, g, y, t);
            o.Done? ==> o.value.Realizes? && o.value.src == y
  {
  }

  /** Joining a component onto a chain result is one more wrapped witness. */
  lemma {:induction false} WrapJoin(p: Prop, q: Outcome<Prop>, witnesses: seq<ObjectTerm>, src: ObjectTerm)
    requires p.Realizes? && q.Done? && q.value.Realizes? && q.value.src == p.dst
    ensures Wrap(Join(p, q.value, q.left), witnesses, src) == Wrap(q, witnesses + [p.wit], src)
  {
    var ws := witnesses + [p.wit];
    assert ws[..|ws| - 1] == witnesses;
  }

  class Checker {
    const k: Kernel
    var steps: nat
    var depth: nat
    var gamma: Gamma

    constructor (k: Kernel, b: Budget)
      ensures this.k == k && steps == b.maxSteps && depth == b.maxDepth && gamma == []
    {
      this.k := k;
      steps, depth, gamma := b.maxSteps, b.maxDepth, [];
    }

    method Step() returns (r: Result<()>)
      modifies this`steps
      ensures if old(steps) == 0 then r == Err(ResourceExhausted(StepLimit)) && steps == 0
              else r == Ok(()) && steps == old(steps) - 1
    {
      if steps == 0 { return Err(ResourceExhausted(StepLimit)); }
      steps := steps - 1;
      return Ok(());
    }

    method EnterDepth() returns (r: Result<()>)
      modifies this`depth
      ensures if old(depth) == 0 then r == Err(ResourceExhausted(DepthLimit)) && depth == 0
              else r == Ok(()) && depth == old(depth) - 1
    {
      if depth == 0 { return Err(ResourceExhausted(DepthLimit)); }
      depth := depth - 1;
      return Ok(());
    }

    method LeaveDepth(n: nat)
      modifies this`depth
      ensures depth == old(depth) + n
    {
      depth := depth + n;
    }

    method Push(name: Option<string>, p: Prop)
      modifies this`gamma
      ensures gamma == old(gamma) + [(name, p)]
    {
      gamma := gamma + [(name, p)];
    }

    method Pop()
      requires |gamma| > 0
      modifies this`gamma
      ensures gamma == old(gamma)[..|old(gamma)| - 1]
    {
      gamma := gamma[..|gamma| - 1];
    }

    method CheckType(kind0: TermKind, expected0: Prop) returns (outcome: Result<()>)
      modifies this
      ensures gamma == old(gamma) && depth == old(depth)
      ensures Ended(outcome, steps) == Check(Unrolled, k, old(steps), old(depth), old(gamma), kind0, expected0)
      decreases kind0, 4
    {
      var kind, expected := kind0, expected0;
      var depthTaken, pushed := 0, 0;
      outcome := Ok(());
      while true
        invariant depth + depthTaken == old(depth)
        invariant |gamma| == |old(gamma)| + pushed && gamma[..|old(gamma)|] == old(gamma)
        invariant Check(Unrolled, k, steps, depth, gamma, kind, expected)
               == Check(Unrolled, k, old(steps), old(depth), old(gamma), kind0, expected0)
        invariant kind == kind0 || (kind0 decreases to kind)
        decreases kind
      {
        outcome := Step();
        if outcome.Err? { break; }
        outcome := EnterDepth();
        if outcome.Err? { break; }
        depthTaken := depthTaken + 1;
        if kind.Lam? && expected.Impl? {
          Push(kind.varName, expected.premise);
          pushed := pushed + 1;
          kind, expected := kind.body, expected.conclusion;
        } else {
          outcome := CheckRule(kind, expected);
          break;
        }
      }
      assert Ended(outcome, steps) == Check(Unrolled, k, old(steps), old(depth), old(gamma), kind0, expected0);
      while pushed > 0
        modifies this`gamma
        invariant |gamma| == |old(gamma)| + pushed && gamma[..|old(gamma)|] == old(gamma)
      {
        Pop();
        pushed := pushed - 1;
      }
      assert gamma == gamma[..|old(gamma)|];
      LeaveDepth(depthTaken);
    }

    method CheckRule(kind: TermKind, expected: Prop) returns (r: Result<()>)
      modifies this
      ensures gamma == old(gamma) && depth == old(depth)
      ensures Ended(r, steps) == KernelRules.CheckRule(Unrolled, k, old(steps), old(depth), old(gamma), kind, expected)
      decreases kind, 3
    {
      if kind.Refl? && expected.Eq? {
        return if expected.lhs == expected.rhs && expected.lhs == kind.term then Ok(()) else Err(MISMATCH);
      } else if kind.Pack? && expected.Exists? {
        r := CheckType(kind.bodyProof, Instantiate(expected.pred, kind.wit));
      } else if kind.Unpack? {
        r := CheckUnpack(kind, expected);
      } else if kind.Pair? && expected.Prod? {
        var _ :- CheckType(kind.fst, expected.first);
        r := CheckType(kind.snd, expected.second);
      } else if kind.Inl? && expected.Sum? {
        r := CheckType(kind.inner, expected.leftCase);
      } else if kind.Inr? && expected.Sum? {
        r := CheckType(kind.inner, expected.rightCase);
      } else if kind.Case? {
        r := CheckCase(kind, expected);
      } else if kind.RealizesComp? && expected.Realizes? {
        r := CheckComp(kind, expected);
      } else if kind.RealizesTensor? && expected.Realizes? {
        r := CheckTensor(kind, expected);
      } else if kind.Unsupported? {
        return Err(UnsupportedTerm(kind.message));
      } else {
        var inferred :- InferType(kind);
        return if inferred == expected then Ok(()) else Err(MISMATCH);
      }
    }

    method CheckUnpack(kind: TermKind, expected: Prop) returns (r: Result<()>)
      requires kind.Unpack?
      modifies this
      ensures gamma == old(gamma) && depth == old(depth)
      ensures Ended(r, steps) == KernelRules.CheckUnpack(Unrolled, k, old(steps), old(depth), old(gamma), kind, expected)
      decreases kind, 0
    {
      var scrutType :- InferType(kind.scrutinee);
      if !scrutType.Exists? { return Err(MISMATCH); }
      if NameTaken(gamma, kind.proofVar) { return Err(Malformed); }
      var eigen := Eigenvariable(k, kind.objVar, steps);
      if PropContains(expected, eigen) { return Err(Malformed); }
      Push(kind.proofVar, Instantiate(scrutType.pred, eigen));
      r := CheckType(kind.body, expected);
      Pop();
    }

    method CheckCase(kind: TermKind, expected: Prop) returns (r: Result<()>)
      requires kind.Case?
      modifies this
      ensures gamma == old(gamma) && depth == old(depth)
      ensures Ended(r, steps) == KernelRules.CheckCase(Unrolled, k, old(steps), old(depth), old(gamma), kind, expected)
      decreases kind, 0
    {
      var discType :- InferType(kind.discriminant);
      if !discType.Sum? { return Err(MISMATCH); }
      if NameTaken(gamma, kind.leftVar) { return Err(Malformed); }
      if NameTaken(gamma, kind.rightVar) { return Err(Malformed); }
      Push(kind.leftVar, discType.leftCase);
      r := CheckType(kind.leftBody, expected);
      Pop();
      if r.Err? { return; }
      assert gamma == old(gamma);
      Push(kind.rightVar, discType.rightCase);
      r := CheckType(kind.rightBody, expected);
      Pop();
    }

    method CheckComp(kind: TermKind, expected: Prop) returns (r: Result<()>)
      requires kind.RealizesComp? && expected.Realizes?
      modifies this
      ensures gamma == old(gamma) && depth == old(depth)
      ensures Ended(r, steps) == KernelRules.CheckComp(Unrolled, k, old(steps), old(depth), old(gamma), kind, expected)
      decreases kind, 0
    {
      var p :- InferType(kind.left);
      if !p.Realizes? { return Err(MISMATCH); }
      var q :- InferType(kind.right);
      if !q.Realizes? { return Err(MISMATCH); }
      if p.src != expected.src { return Err(MISMATCH); }
      if p.dst != q.src { return Err(MISMATCH); }
      if q.dst != expected.dst { return Err(MISMATCH); }
      if WitnessDigest(k, expected.wit) != k.compose(WitnessDigest(k, q.wit), WitnessDigest(k, p.wit)) {
        return Err(MISMATCH);
      }
      return Ok(());
    }

    method CheckTensor(kind: TermKind, expected: Prop) returns (r: Result<()>)
      requires kind.RealizesTensor? && expected.Realizes?
      modifies this
      ensures gamma == old(gamma) && depth == old(depth)
      ensures Ended(r, steps) == KernelRules.CheckTensor(Unrolled, k, old(steps), old(depth), old(gamma), kind, expected)
      decreases kind, 0
    {
      var p :- InferType(kind.left);
      if !p.Realizes? { return Err(MISMATCH); }
      var q :- InferType(kind.right);
      if !q.Realizes? { return Err(MISMATCH); }
      if expected.src != Tensor(p.src, q.src) { return Err(MISMATCH); }
      if expected.dst != Tensor(p.dst, q.dst) { return Err(MISMATCH); }
      if WitnessDigest(k, expected.wit) != k.tensor(WitnessDigest(k, p.wit), WitnessDigest(k, q.wit)) {
        return Err(MISMATCH);
      }
      return Ok(());
    }

    method InferType(kind: TermKind) returns (r: Result<Prop>)
      modifies this
      ensures gamma == old(gamma) && depth == old(depth)
      ensures Ended(r, steps) == Infer(Unrolled, k, old(steps), old(depth), old(gamma), kind)
      decreases kind, 2
    {
      var _ :- Step();
      var _ :- EnterDepth();
      r := InferRule(kind);
      LeaveDepth(1);
    }

    method InferRule(kind: TermKind) returns (r: Result<Prop>)
      modifies this
      ensures gamma == old(gamma) && depth == old(depth)
      ensures Ended(r, steps) == KernelRules.InferRule(Unrolled, k, old(steps), old(depth), old(gamma), kind)
      decreases kind, 1
    {
      match kind
      case Hyp(v) =>
        var found := Lookup(gamma, v);
        return if found.Some? then Ok(found.value) else Err(Rejected(HypothesisNotFound));
      case Refl(o) => return Ok(Eq(o, o));
      case Subst(_, _, _) => r := InferSubst(kind);
      case Unpack(_, _, _, _) => r := InferUnpack(kind);
      case Pres(_, _, _, _) => r := InferPres(kind);
      case App(f, a) =>
        var p :- InferType(f);
        if !p.Impl? { return Err(MISMATCH); }
        var _ :- CheckType(a, p.premise);
        return Ok(p.conclusion);
      case Proj1(inner) =>
        var p :- InferType(inner);
        return if p.Prod? then Ok(p.first) else Err(MISMATCH);
      case Proj2(inner) =>
        var p :- InferType(inner);
        return if p.Prod? then Ok(p.second) else Err(MISMATCH);
      case Pair(a, b) =>
        var p :- InferType(a);
        var q :- InferType(b);
        return Ok(Prod(p, q));
      case RealizesComp(left, right) => r := InferRealizesComp(kind, left, right);
      case RealizesTensor(_, _) => r := InferRealizesTensor(kind);
      case PrimRealizes(relation, src, dst) =>
        var o := InferPrimRealizes(k, steps, relation, src, dst);
        return if o.Done? then Ok(o.value) else Err(o.verdict);
      case Unsupported(message) => return Err(UnsupportedTerm(message));
      case _ => return Err(Rejected(ProofGoalNotReached));
    }

    method InferSubst(kind: TermKind) returns (r: Result<Prop>)
      requires kind.Subst?
      modifies this
      ensures gamma == old(gamma) && depth == old(depth)
      ensures Ended(r, steps) == KernelRules.InferSubst(Unrolled, k, old(steps), old(depth), old(gamma), kind)
      decreases kind, 0
    {
      var p :- InferType(kind.eq);
      if !p.Eq? { return Err(MISMATCH); }
      var _ :- CheckType(kind.sub, Instantiate(kind.motive, p.lhs));
      return Ok(Instantiate(kind.motive, p.rhs));
    }

    method InferUnpack(kind: TermKind) returns (r: Result<Prop>)
      requires kind.Unpack?
      modifies this
      ensures gamma == old(gamma) && depth == old(depth)
      ensures Ended(r, steps) == KernelRules.InferUnpack(Unrolled, k, old(steps), old(depth), old(gamma), kind)
      decreases kind, 0
    {
      var scrutType :- InferType(kind.scrutinee);
      if !scrutType.Exists? { return Err(MISMATCH); }
      if NameTaken(gamma, kind.proofVar) { return Err(Malformed); }
      var eigen := Eigenvariable(k, kind.objVar, steps);
      Push(kind.proofVar, Instantiate(scrutType.pred, eigen));
      r := InferType(kind.body);
      Pop();
      assert gamma == old(gamma);
      var bodyType :- r;
      return if PropContains(bodyType, eigen) then Err(Malformed) else Ok(bodyType);
    }

    method InferPres(kind: TermKind) returns (r: Result<Prop>)
      requires kind.Pres?
      modifies this
      ensures gamma == old(gamma) && depth == old(depth)
      ensures Ended(r, steps) == KernelRules.InferPres(Unrolled, k, old(steps), old(depth), old(gamma), kind)
      decreases kind, 0
    {
      var p :- InferType(kind.realizes);
      if !p.Realizes? { return Err(MISMATCH); }
      var _ :- CheckType(kind.preserves, Preserves(p.wit, kind.motive));
      var _ :- CheckType(kind.sub, Instantiate(kind.motive, p.src));
      return Ok(Instantiate(kind.motive, p.dst));
    }

    /** The right-nested chain: go down `right` node by node, collecting each left
        witness, then fold them back over the last one. */
    method InferRealizesComp(ghost kind: TermKind, left: TermKind, right: TermKind) returns (r: Result<Prop>)
      requires kind == RealizesComp(left, right)
      modifies this
      ensures gamma == old(gamma) && depth == old(depth)
      ensures Ended(r, steps) == InferComp(Unrolled, k, old(steps), old(depth), old(gamma), kind)
      decreases kind, 0
    {
      var first :- InferType(left);
      if !first.Realizes? { return Err(MISMATCH); }
      if !right.RealizesComp? {
        var last :- InferType(right);
        if !last.Realizes? { return Err(MISMATCH); }
        if first.dst != last.src { return Err(MISMATCH); }
        return Ok(Realizes(Compose(last.wit, first.wit), first.src, last.dst));
      }

      ghost var goal := InferComp(Unrolled, k, old(steps), old(depth), old(gamma), kind);
      var y := first.dst;
      var witnesses, depthTaken := [first.wit], 0;
      var curLeft, curRight := right.left, right.right;
      var finalWitness, finalTarget := first.wit, first.dst;
      SpineStartsAt(k, steps, depth, gamma, y, right);
      if Spine(Unrolled, k, steps, depth, gamma, y, right).Done? {
        WrapJoin(first, Spine(Unrolled, k, steps, depth, gamma, y, right), [], first.src);
        assert [] + [first.wit] == [first.wit];
      }
      while true
        invariant gamma == old(gamma) && depth + depthTaken == old(depth)
        invariant RealizesComp(curLeft, curRight) == right || (right decreases to RealizesComp(curLeft, curRight))
        invariant goal == Wrap(Spine(Unrolled, k, steps, depth, gamma, y, RealizesComp(curLeft, curRight)), witnesses, first.src)
        decreases RealizesComp(curLeft, curRight)
      {
        ghost var node := RealizesComp(curLeft, curRight);
        var s := Step();
        if s.Err? { LeaveDepth(depthTaken); return Err(s.verdict); }
        s := EnterDepth();
        if s.Err? { LeaveDepth(depthTaken); return Err(s.verdict); }
        depthTaken := depthTaken + 1;

        var l := InferType(curLeft);
        if l.Err? { LeaveDepth(depthTaken); return Err(l.verdict); }
        if !l.value.Realizes? || y != l.value.src { LeaveDepth(depthTaken); return Err(MISMATCH); }
        ghost var rest := if curRight.RealizesComp?
                          then Spine(Unrolled, k, steps, depth, gamma, l.value.dst, curRight)
                          else Infer(Unrolled, k, steps, depth, gamma, curRight);
        if curRight.RealizesComp? { SpineStartsAt(k, steps, depth, gamma, l.value.dst, curRight); }
        if rest.Done? && rest.value.Realizes? && rest.value.src == l.value.dst {
          WrapJoin(l.value, rest, witnesses, first.src);
        }
        y := l.value.dst;
        witnesses := witnesses + [l.value.wit];

        if curRight.RealizesComp? {
          curLeft, curRight := curRight.left, curRight.right;
        } else {
          var last := InferType(curRight);
          if last.Err? { LeaveDepth(depthTaken); return Err(last.verdict); }
          if !last.value.Realizes? || y != last.value.src { LeaveDepth(depthTaken); return Err(MISMATCH); }
          finalWitness, finalTarget := last.value.wit, last.value.dst;
          break;
        }
      }
      LeaveDepth(depthTaken);

      var combined := Combine(finalWitness, witnesses);
      return Ok(Realizes(combined, first.src, finalTarget));
    }

    static method Combine(last: ObjectTerm, witnesses: seq<ObjectTerm>) returns (combined: ObjectTerm)
      ensures combined == FoldWitness(last, witnesses)
    {
      var i := |witnesses|;
      combined := last;
      assert witnesses[..i] == witnesses;
      while i > 0
        invariant 0 <= i <= |witnesses|
        invariant FoldWitness(combined, witnesses[..i]) == FoldWitness(last, witnesses)
      {
        i := i - 1;
        assert witnesses[..i + 1][..i] == witnesses[..i];
        combined := Compose(combined, witnesses[i]);
      }
    }

    method InferRealizesTensor(kind: TermKind) returns (r: Result<Prop>)
      requires kind.RealizesTensor?
      modifies this
      ensures gamma == old(gamma) && depth == old(depth)
      ensures Ended(r, steps) == InferTensor(Unrolled, k, old(steps), old(depth), old(gamma), kind)
      decreases kind, 0
    {
      var p :- InferType(kind.left);
      if !p.Realizes? { return Err(MISMATCH); }
      var q :- InferType(kind.right);
      if !q.Realizes? { return Err(MISMATCH); }
      return Ok(Realizes(Tensor(p.wit, q.wit), Tensor(p.src, q.src), Tensor(p.dst, q.dst)));
    }
  }

  /** The kernel's entry point, run on a fresh checker. */
  method Accept(k: Kernel, context: Digest, p: Prop, term: ExplicitTerm, b: Budget) returns (v: Verdict)
    ensures v == Acceptance(Unrolled, k, context, p, term, b)
  {
    if term.context != context { return ContextMismatch(context, term.context); }
    var state := new Checker(k, b);
    var r := state.CheckType(term.kind, p);
    match r
    case Ok(_) => return Accepted(k.certificateId(context, p, term));
    case Err(verdict) => return verdict;
  }
}
