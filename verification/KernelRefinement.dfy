/** The unrolled composition chain against the recursive rule, through the whole
    checker: they accept the same terms with the same type and budget left, and
    they can differ only in which failure is reported first. */
module KernelRefinement {
  import opened Options
  import opened KernelTerms
  import opened KernelRules

  /** `u` (unrolled) against `r` (recursive). */
  ghost predicate Agree<T(!new)>(u: Outcome<T>, r: Outcome<T>) {
    && (u.Done? || r.Done? ==> u == r)
    && (u != r ==> u.Fail? && r.Fail? && u.verdict == MISMATCH)
  }

  /** A chain continued from `y` against synthesis of the same node. */
  ghost predicate SpineAgrees(y: ObjectTerm, u: Outcome<Prop>, r: Outcome<Prop>) {
    if r.Done? && r.value.Realizes? && r.value.src == y then u == r
    else u.Fail? && (u == r || u.verdict == MISMATCH)
  }

  lemma {:induction false} CheckAgrees(k: Kernel, n: nat, d: nat, g: Gamma, t: TermKind, e: Prop)
    ensures Agree(Check(Unrolled, k, n, d, g, t, e), Check(Recursive, k, n, d, g, t, e))
    decreases t, 4
  {
    if n > 0 && d > 0 {
      if t.Lam? && e.Impl? {
        CheckAgrees(k, n - 1, d - 1, g + [(t.varName, e.premise)], t.body, e.conclusion);
      } else {
        CheckRuleAgrees(k, n - 1, d - 1, g, t, e);
      }
    }
  }

  lemma {:induction false} CheckRuleAgrees(k: Kernel, n: nat, d: nat, g: Gamma, t: TermKind, e: Prop)
    ensures Agree(CheckRule(Unrolled, k, n, d, g, t, e), CheckRule(Recursive, k, n, d, g, t, e))
    decreases t, 3
  {
    if t.Refl? && e.Eq? {
    } else if t.Pack? && e.Exists? {
      CheckAgrees(k, n, d, g, t.bodyProof, Instantiate(e.pred, t.wit));
    } else if t.Unpack? {
      UnpackAgrees(k, n, d, g, t, e);
    } else if t.Pair? && e.Prod? {
      CheckAgrees(k, n, d, g, t.fst, e.first);
      var o := Check(Unrolled, k, n, d, g, t.fst, e.first);
      if o.Done? { CheckAgrees(k, o.left, d, g, t.snd, e.second); }
    } else if t.Inl? && e.Sum? {
      CheckAgrees(k, n, d, g, t.inner, e.leftCase);
    } else if t.Inr? && e.Sum? {
      CheckAgrees(k, n, d, g, t.inner, e.rightCase);
    } else if t.Case? {
      CaseAgrees(k, n, d, g, t, e);
    } else if (t.RealizesComp? || t.RealizesTensor?) && e.Realizes? {
      InferAgrees(k, n, d, g, t.left);
      var o := Infer(Unrolled, k, n, d, g, t.left);
      if o.Done? { InferAgrees(k, o.left, d, g, t.right); }
    } else if t.Unsupported? {
    } else {
      InferAgrees(k, n, d, g, t);
    }
  }

  lemma {:induction false} UnpackAgrees(k: Kernel, n: nat, d: nat, g: Gamma, t: TermKind, e: Prop)
    requires t.Unpack?
    ensures Agree(CheckUnpack(Unrolled, k, n, d, g, t, e), CheckUnpack(Recursive, k, n, d, g, t, e))
    ensures Agree(InferUnpack(Unrolled, k, n, d, g, t), InferUnpack(Recursive, k, n, d, g, t))
    decreases t, 0
  {
    InferAgrees(k, n, d, g, t.scrutinee);
    var o := Infer(Unrolled, k, n, d, g, t.scrutinee);
    if o.Done? && o.value.Exists? {
      var g' := g + [(t.proofVar, Instantiate(o.value.pred, Eigenvariable(k, t.objVar, o.left)))];
      CheckAgrees(k, o.left, d, g', t.body, e);
      InferAgrees(k, o.left, d, g', t.body);
    }
  }

  lemma {:induction false} CaseAgrees(k: Kernel, n: nat, d: nat, g: Gamma, t: TermKind, e: Prop)
    requires t.Case?
    ensures Agree(CheckCase(Unrolled, k, n, d, g, t, e), CheckCase(Recursive, k, n, d, g, t, e))
    decreases t, 0
  {
    InferAgrees(k, n, d, g, t.discriminant);
    var o := Infer(Unrolled, k, n, d, g, t.discriminant);
    if o.Done? && o.value.Sum? {
      var gl := g + [(t.leftVar, o.value.leftCase)];
      CheckAgrees(k, o.left, d, gl, t.leftBody, e);
      var o2 := Check(Unrolled, k, o.left, d, gl, t.leftBody, e);
      if o2.Done? { CheckAgrees(k, o2.left, d, g + [(t.rightVar, o.value.rightCase)], t.rightBody, e); }
    }
  }

  lemma {:induction false} InferAgrees(k: Kernel, n: nat, d: nat, g: Gamma, t: TermKind)
    ensures Agree(Infer(Unrolled, k, n, d, g, t), Infer(Recursive, k, n, d, g, t))
    decreases t, 2
  {
    if n > 0 && d > 0 {
      InferRuleAgrees(k, n - 1, d - 1, g, t);
    }
  }

  lemma {:induction false} InferRuleAgrees(k: Kernel, n: nat, d: nat, g: Gamma, t: TermKind)
    ensures Agree(InferRule(Unrolled, k, n, d, g, t), InferRule(Recursive, k, n, d, g, t))
    decreases t, 1
  {
    match t
    case Subst(eq, motive, sub) =>
      InferAgrees(k, n, d, g, eq);
      var o := Infer(Unrolled, k, n, d, g, eq);
      if o.Done? && o.value.Eq? { CheckAgrees(k, o.left, d, g, sub, Instantiate(motive, o.value.lhs)); }
    case Unpack(_, _, _, _) => UnpackAgrees(k, n, d, g, t, Atom(k.boundVarWitness));
    case Pres(_, _, _, _) => PresAgrees(k, n, d, g, t);
    case App(f, a) =>
      InferAgrees(k, n, d, g, f);
      var o := Infer(Unrolled, k, n, d, g, f);
      if o.Done? && o.value.Impl? { CheckAgrees(k, o.left, d, g, a, o.value.premise); }
    case Proj1(inner) => InferAgrees(k, n, d, g, inner);
    case Proj2(inner) => InferAgrees(k, n, d, g, inner);
    case Pair(a, b) =>
      InferAgrees(k, n, d, g, a);
      var o := Infer(Unrolled, k, n, d, g, a);
      if o.Done? { InferAgrees(k, o.left, d, g, b); }
    case RealizesComp(_, _) => CompAgrees(k, n, d, g, t);
    case RealizesTensor(a, b) =>
      InferAgrees(k, n, d, g, a);
      var o := Infer(Unrolled, k, n, d, g, a);
      if o.Done? { InferAgrees(k, o.left, d, g, b); }
    case _ =>
  }

  lemma {:induction false} PresAgrees(k: Kernel, n: nat, d: nat, g: Gamma, t: TermKind)
    requires t.Pres?
    ensures Agree(InferPres(Unrolled, k, n, d, g, t), InferPres(Recursive, k, n, d, g, t))
    decreases t, 0
  {
    InferAgrees(k, n, d, g, t.realizes);
    var o := Infer(Unrolled, k, n, d, g, t.realizes);
    if o.Done? && o.value.Realizes? {
      CheckAgrees(k, o.left, d, g, t.preserves, Preserves(o.value.wit, t.motive));
      var o2 := Check(Unrolled, k, o.left, d, g, t.preserves, Preserves(o.value.wit, t.motive));
      if o2.Done? { CheckAgrees(k, o2.left, d, g, t.sub, Instantiate(t.motive, o.value.src)); }
    }
  }

  /** The synthesis rule: the loop and the recursion succeed together, with the
      same proposition, left-folded witness and steps left. */
  lemma {:induction false} CompAgrees(k: Kernel, n: nat, d: nat, g: Gamma, t: TermKind)
    requires t.RealizesComp?
    ensures Agree(InferComp(Unrolled, k, n, d, g, t), InferComp(Recursive, k, n, d, g, t))
    decreases t, 0
  {
    InferAgrees(k, n, d, g, t.left);
    var o := Infer(Unrolled, k, n, d, g, t.left);
    if o.Done? && o.value.Realizes? {
      if t.right.RealizesComp? {
        ChainAgrees(k, o.left, d, g, o.value.dst, t.right);
      } else {
        InferAgrees(k, o.left, d, g, t.right);
      }
    }
  }

  lemma {:induction false} ChainAgrees(k: Kernel, n: nat, d: nat, g: Gamma, y: ObjectTerm, t: TermKind)
    requires t.RealizesComp?
    ensures SpineAgrees(y, Spine(Unrolled, k, n, d, g, y, t), Infer(Recursive, k, n, d, g, t))
    decreases t, 0
  {
    if n > 0 && d > 0 {
      assert Infer(Recursive, k, n, d, g, t) == InferRule(Recursive, k, n - 1, d - 1, g, t)
          == InferComp(Recursive, k, n - 1, d - 1, g, t);
      InferAgrees(k, n - 1, d - 1, g, t.left);
      var o := Infer(Unrolled, k, n - 1, d - 1, g, t.left);
      if o.Done? && o.value.Realizes? {
        if t.right.RealizesComp? {
          ChainAgrees(k, o.left, d - 1, g, o.value.dst, t.right);
        } else {
          InferAgrees(k, o.left, d - 1, g, t.right);
        }
      }
    }
  }

  /** Which failure comes first does differ: with four steps the loop has already
      seen the middle endpoints clash when the recursion runs out of steps. */
  lemma FirstFailureCanDiffer(k: Kernel, w: ObjectTerm, x: ObjectTerm, y: ObjectTerm)
    requires x != y
    ensures var g: Gamma := [(None, Realizes(w, x, y))];
            var h := Hyp(Index(0));
            var t := RealizesComp(h, RealizesComp(h, h));
            Infer(Unrolled, k, 4, 3, g, t) == Fail(MISMATCH, 0)
            && Infer(Recursive, k, 4, 3, g, t) == Fail(ResourceExhausted(StepLimit), 0)
  {
    var g: Gamma := [(None, Realizes(w, x, y))];
    var h := Hyp(Index(0));
    var inner := RealizesComp(h, h);
    var t := RealizesComp(h, inner);
    forall m, n: nat, d: nat | n > 0 && d > 0 ensures Infer(m, k, n, d, g, h) == Done(Realizes(w, x, y), n - 1) {}
    assert Infer(Recursive, k, 0, 1, g, h) == Fail(ResourceExhausted(StepLimit), 0);
    assert InferComp(Recursive, k, 1, 1, g, inner) == Fail(ResourceExhausted(StepLimit), 0);
    assert Infer(Recursive, k, 2, 2, g, inner) == Fail(ResourceExhausted(StepLimit), 0);
    assert InferComp(Recursive, k, 3, 2, g, t) == Fail(ResourceExhausted(StepLimit), 0);
    assert Spine(Unrolled, k, 2, 2, g, y, inner) == Fail(MISMATCH, 0);
    assert InferComp(Unrolled, k, 3, 2, g, t) == Fail(MISMATCH, 0);
  }
}
