/** Accepted falsehoods: for each test a careful run passes, a run that fails only
    that one, and a proposition that the kernel accepts by it although it is
    false in an admissible model. */
module KernelCounterexamples {
  import opened Options
  import opened KernelTerms
  import opened KernelRules
  import opened KernelModels
  import opened KernelScoping

  /** Two values: one constant denotes `true`, all others `false`; every
      realization holds and no atom does. */
  ghost function TwoValues(c: Digest): Model<bool> {
    Model(id => id == c, (a, b) => false, (a, b) => false, _ => false, _ => false, (f: Digest, args: seq<bool>) => false,
          (a, b, c) => true)
  }

  ghost predicate AcceptedFalsehood<D(!new)>(k: Kernel, m: Model<D>, context: Digest, p: Prop, t: TermKind, b: Budget) {
    && Acceptance(Unrolled, k, context, p, ExplicitTerm(context, t), b).Accepted?
    && Admissible(k, m) && !Holds(m, [], p)
  }

  // ----- an open witness captured by a motive -----

  /** If `c` preserves "equals itself", then it preserves "equals `x`" for some `x`. */
  function CaptureGoal(c: Digest): Prop {
    Impl(Preserves(Const(c), Eq(BoundVar(0), BoundVar(0))),
         Exists(Preserves(Const(c), Eq(BoundVar(0), BoundVar(1)))))
  }

  function CaptureTerm(): TermKind {
    Lam(None, Pack(BoundVar(0), Hyp(Index(0))))
  }

  /** The motive of a `Preserves` is not a binder for the kernel's substitution, so
      the hole captures an open witness. */
  lemma CaptureAcceptsAFalsehood(k: Kernel, context: Digest, c: Digest)
    ensures AcceptedFalsehood(k, TwoValues(c), context, CaptureGoal(c), CaptureTerm(), Budget(4, 4))
    ensures PropTame(Closed, CaptureGoal(c), 0) && UnpackFree(CaptureTerm())
    ensures !CaptureFree(CaptureGoal(c).conclusion.pred, CaptureTerm().body.wit)
  {
    CaptureChecked(k, c, CaptureGoal(c));
    CaptureGoalFalse(c);
    CaptureGoalClosed(c);
  }

  lemma CaptureChecked(k: Kernel, c: Digest, p: Prop)
    requires p == CaptureGoal(c)
    ensures Check(Unrolled, k, 4, 4, [], CaptureTerm(), p).Done?
  {
    var g: Gamma := [(None, p.premise)];
    var pack := CaptureTerm().body;
    assert SubstObject(BoundVar(0), pack.wit, 0) == BoundVar(0) && SubstObject(BoundVar(1), pack.wit, 0) == BoundVar(0);
    assert SubstProp(p.conclusion.pred.motive, pack.wit, 0) == p.premise.motive;
    assert Instantiate(p.conclusion.pred, pack.wit) == p.premise;
    assert Infer(Unrolled, k, 1, 1, g, pack.bodyProof) == Done(p.premise, 0);
    assert Check(Unrolled, k, 2, 2, g, pack.bodyProof, p.premise).Done?;
    assert Check(Unrolled, k, 3, 3, g, pack, p.conclusion).Done?;
    assert [] + g == g;
  }

  lemma CaptureGoalFalse(c: Digest)
    ensures !Holds(TwoValues(c), [], CaptureGoal(c))
  {
    var m := TwoValues(c);
    var same, some := CaptureGoal(c).premise, CaptureGoal(c).conclusion;
    ReflexivePreserved(m, same);
    forall x: bool ensures !Holds(m, [x] + [], some.pred) { NoSuchValue(c, x); }
    NothingExists(m, some);
  }

  lemma ReflexivePreserved(m: Model<bool>, p: Prop)
    requires p.Preserves? && p.motive == Eq(BoundVar(0), BoundVar(0))
    ensures Holds(m, [], p)
  {
    assert forall env: seq<bool> :: Holds(m, env, p.motive);
  }

  lemma NothingExists<D(!new)>(m: Model<D>, p: Prop)
    requires p.Exists? && forall x: D :: !Holds(m, [x] + [], p.pred)
    ensures !Holds(m, [], p)
  {
  }

  lemma NoSuchValue(c: Digest, x: bool)
    ensures !Holds(TwoValues(c), [x] + [], Preserves(Const(c), Eq(BoundVar(0), BoundVar(1))))
  {
    var m := TwoValues(c);
    var env := [x] + [];
    assert env == [x];
    var eq := Eq(BoundVar(0), BoundVar(1));
    assert Eval(m, env + [x], BoundVar(1)) == x && Holds(m, env + [x], eq);
    assert Eval(m, env + [!x], BoundVar(1)) == !x && !Holds(m, env + [!x], eq);
    assert m.realizes(Eval(m, env, Const(c)), x, !x);
  }

  lemma CaptureGoalClosed(c: Digest)
    ensures PropTame(Closed, CaptureGoal(c), 0)
    ensures InMotive(CaptureGoal(c).conclusion.pred, 0)
  {
    var pred := CaptureGoal(c).conclusion.pred;
    assert PropMentions(pred.motive, 0);
    assert ObjectTame(Closed, BoundVar(0), 1) && ObjectTame(Closed, BoundVar(1), 2) && WitnessTame(Closed, Const(c), 1);
    assert PropTame(Closed, pred, 1) && PropTame(Closed, CaptureGoal(c).premise, 0);
  }

  // ----- open witnesses share one identity -----

  /** Free variable 1 denotes `true` and all others `false`; exactly what `true`
      witnesses is realized. */
  ghost function TrueWitnesses(): Model<bool> {
    Model(_ => true, (a, b) => a && b, (a, b) => a && b, i => i == 1, _ => false, (f: Digest, args: seq<bool>) => false,
          (w, x, y) => w)
  }

  /** What variable 1 realizes, variable 0 composed with itself realizes. */
  function SentinelGoal(x: ObjectTerm): Prop {
    Impl(Realizes(BoundVar(1), x, x), Realizes(Compose(BoundVar(0), BoundVar(0)), x, x))
  }

  function SentinelTerm(): TermKind {
    Lam(None, RealizesComp(Hyp(Index(0)), Hyp(Index(0))))
  }

  /** All variables have the same witness identity, so the comparison of witnesses
      takes one for another. */
  lemma SentinelAcceptsAFalsehood(k: Kernel, context: Digest, x: ObjectTerm)
    ensures AcceptedFalsehood(k, TrueWitnesses(), context, SentinelGoal(x), SentinelTerm(), Budget(4, 3))
    ensures UnpackFree(SentinelTerm())
  {
    TrueWitnessesAdmissible(k);
    SentinelGoalFalse(x);
    SentinelChecked(k, x);
  }

  lemma SentinelGoalFalse(x: ObjectTerm)
    ensures !Holds(TrueWitnesses(), [], SentinelGoal(x))
  {
    var m := TrueWitnesses();
    var p := SentinelGoal(x);
    assert !Eval(m, [], BoundVar(0)) && Eval(m, [], BoundVar(1));
    assert Holds(m, [], p.premise) && !Holds(m, [], p.conclusion);
  }

  lemma TrueWitnessesAdmissible(k: Kernel)
    ensures Admissible(k, TrueWitnesses())
  {
    var m := TrueWitnesses();
    forall v, w, a, b | Plain(NoneReserved, v) && Plain(NoneReserved, w) && WitnessDigest(k, v) == WitnessDigest(k, w)
                        && m.realizes(Eval(m, [], v), a, b)
      ensures m.realizes(Eval(m, [], w), a, b)
    {
      ClosedIsTrue(w);
    }
  }

  lemma {:induction false} ClosedIsTrue(t: ObjectTerm)
    requires ObjectScoped(t, 0)
    ensures Eval(TrueWitnesses(), [], t)
  {
    match t
    case Const(_) =>
    case BoundVar(_) =>
    case Compose(a, b) => ClosedIsTrue(a); ClosedIsTrue(b);
    case Tensor(a, b) => ClosedIsTrue(a); ClosedIsTrue(b);
  }

  lemma SentinelChecked(k: Kernel, x: ObjectTerm)
    ensures Check(Unrolled, k, 4, 3, [], SentinelTerm(), SentinelGoal(x)).Done?
  {
    var p := SentinelGoal(x);
    var g: Gamma := [(None, p.premise)];
    var comp := SentinelTerm().body;
    assert Infer(Unrolled, k, 2, 1, g, comp.left) == Done(p.premise, 1);
    assert Infer(Unrolled, k, 1, 1, g, comp.right) == Done(p.premise, 0);
    assert WitnessDigest(k, BoundVar(0)) == WitnessDigest(k, BoundVar(1));
    assert WitnessDigest(k, p.conclusion.wit) == k.compose(WitnessDigest(k, BoundVar(1)), WitnessDigest(k, BoundVar(1)));
    assert CheckComp(Unrolled, k, 2, 1, g, comp, p.conclusion).Done?;
    assert Check(Unrolled, k, 3, 2, g, comp, p.conclusion).Done?;
    assert [] + g == g;
  }

  // ----- an eigenvariable a hypothesis already speaks of -----

  /** If `e = c` gave `q`, then so would any `x` with `x = c`. */
  function EigenGoal(e: ObjectTerm, c: ObjectTerm, q: Digest): Prop {
    Impl(Impl(Eq(e, c), Atom(q)), Impl(Exists(Eq(BoundVar(0), c)), Atom(q)))
  }

  function EigenTerm(): TermKind {
    Lam(None, Lam(None, Unpack(Hyp(Index(0)), None, None, App(Hyp(Index(2)), Hyp(Index(0))))))
  }

  /** The eigenvariable is compared with the conclusion only, not with the
      hypotheses. */
  lemma UnpackAcceptsAFalsehood(k: Kernel, context: Digest, c: Digest, q: Digest)
    requires k.eigenvar("anon", 8) != c
    ensures var p := EigenGoal(Eigenvariable(k, None, 8), Const(c), q);
            AcceptedFalsehood(k, TwoValues(c), context, p, EigenTerm(), Budget(12, 8)) && PropTame(Closed, p, 0)
  {
    var e := Eigenvariable(k, None, 8);
    EigenGoalFalse(k.eigenvar("anon", 8), c, q);
    EigenGoalClosed(k.eigenvar("anon", 8), c, q);
    EigenChecked(k, e, Const(c), q, EigenGoal(e, Const(c), q));
  }

  lemma EigenGoalClosed(e: Digest, c: Digest, q: Digest)
    ensures PropTame(Closed, EigenGoal(Const(e), Const(c), q), 0)
  {
    var known, any := Eq(Const(e), Const(c)), Eq(BoundVar(0), Const(c));
    assert ObjectTame(Closed, BoundVar(0), 1) && ObjectTame(Closed, Const(c), 1) && PropTame(Closed, any, 1);
    assert ObjectTame(Closed, Const(e), 0) && ObjectTame(Closed, Const(c), 0) && PropTame(Closed, known, 0);
    assert PropTame(Closed, Atom(q), 0) && PropTame(Closed, Exists(any), 0);
    assert PropTame(Closed, Impl(known, Atom(q)), 0) && PropTame(Closed, Impl(Exists(any), Atom(q)), 0);
  }

  lemma EigenGoalFalse(e: Digest, c: Digest, q: Digest)
    requires e != c
    ensures !Holds(TwoValues(c), [], EigenGoal(Const(e), Const(c), q))
  {
    var m := TwoValues(c);
    var known, any := Eq(Const(e), Const(c)), Eq(BoundVar(0), Const(c));
    assert Eval(m, [], Const(e)) == false && Eval(m, [], Const(c)) == true;
    assert !Holds(m, [], known) && Holds(m, [], Impl(known, Atom(q)));
    assert Eval(m, [true] + [], BoundVar(0)) == true && Eval(m, [true] + [], Const(c)) == true;
    assert Holds(m, [true] + [], any);
    assert Holds(m, [], Exists(any)) && !Holds(m, [], Atom(q));
    assert !Holds(m, [], Impl(Exists(any), Atom(q)));
  }

  lemma EigenChecked(k: Kernel, e: ObjectTerm, c: ObjectTerm, q: Digest, p: Prop)
    requires e == Eigenvariable(k, None, 8) && c.Const? && p == EigenGoal(e, c, q)
    ensures Check(Unrolled, k, 12, 8, [], EigenTerm(), p).Done?
  {
    var inner := EigenTerm().body;
    var g: Gamma := [(None, p.premise)];
    EigenUnpack(k, g + [(None, p.conclusion.premise)], e, c, q, inner.body);
    assert Check(Unrolled, k, 11, 7, g, inner, p.conclusion).Done?;
    assert [] + g == g;
  }

  lemma EigenUnpack(k: Kernel, g: Gamma, e: ObjectTerm, c: ObjectTerm, q: Digest, t: TermKind)
    requires |g| == 2 && g[0].1 == Impl(Eq(e, c), Atom(q)) && g[1].1 == Exists(Eq(BoundVar(0), c))
    requires e == Eigenvariable(k, None, 8) && c.Const?
    requires t == Unpack(Hyp(Index(0)), None, None, App(Hyp(Index(2)), Hyp(Index(0))))
    ensures Check(Unrolled, k, 10, 6, g, t, Atom(q)).Done?
  {
    assert Infer(Unrolled, k, 9, 5, g, t.scrutinee) == Done(g[1].1, 8);
    assert Instantiate(Eq(BoundVar(0), c), e) == Eq(e, c);
    EigenBody(k, g + [(None, Eq(e, c))], e, c, q, t.body);
    assert CheckUnpack(Unrolled, k, 9, 5, g, t, Atom(q)).Done?;
  }

  lemma EigenBody(k: Kernel, g: Gamma, e: ObjectTerm, c: ObjectTerm, q: Digest, t: TermKind)
    requires |g| == 3 && g[0].1 == Impl(Eq(e, c), Atom(q)) && g[2].1 == Eq(e, c)
    requires t == App(Hyp(Index(2)), Hyp(Index(0)))
    ensures Check(Unrolled, k, 8, 5, g, t, Atom(q)).Done?
  {
    assert Infer(Unrolled, k, 6, 3, g, t.function_) == Done(g[0].1, 5);
    assert Infer(Unrolled, k, 4, 2, g, t.argument) == Done(g[2].1, 3);
    assert Check(Unrolled, k, 5, 3, g, t.argument, Eq(e, c)) == Done((), 3);
    assert InferApp(Unrolled, k, 6, 3, g, t) == Done(Atom(q), 3);
    assert Infer(Unrolled, k, 7, 4, g, t) == Done(Atom(q), 3);
  }

  // ----- a constant composed from an unused eigenvariable -----

  /** Objects are digests, each its own identity; what a good digest witnesses is
      realized. */
  ghost function GoodWitnesses(k: Kernel, good: Digest -> bool, any: Digest): Model<Digest> {
    Model(id => id, k.compose, k.tensor, _ => any, _ => false, (f: Digest, args: seq<Digest>) => false, (w, x, y) => good(w))
  }

  /** The good digests contain the registry's generators and are closed under
      composition and tensor. */
  ghost predicate Generated(k: Kernel, good: Digest -> bool) {
    && (forall i, j :: good(i) && good(j) ==> good(k.compose(i, j)))
    && (forall i, j :: good(i) && good(j) ==> good(k.tensor(i, j)))
    && (forall r :: k.resolve(r).Some? ==> good(k.resolve(r).value.generator))
  }

  /** Some `w` goes from `x` to `x`; `a` does; then the constant `ea` does. */
  function ComposedGoal(a: Digest, ea: Digest, x: Digest): Prop {
    Impl(Exists(Realizes(BoundVar(0), Const(x), Const(x))),
         Impl(Realizes(Const(a), Const(x), Const(x)), Realizes(Const(ea), Const(x), Const(x))))
  }

  function ComposedTerm(): TermKind {
    Lam(None, Lam(None, Unpack(Hyp(Index(1)), None, None, RealizesComp(Hyp(Index(1)), Hyp(Index(0))))))
  }

  /** That the eigenvariable occurs nowhere is not enough: a constant may be
      composed from it, and then its identity gives the eigenvariable away. */
  lemma ComposedConstantAcceptsAFalsehood(k: Kernel, context: Digest, good: Digest -> bool, a: Digest, x: Digest)
    requires var e := k.eigenvar("anon", 8); var ea := k.compose(e, a);
             Generated(k, good) && good(a) && !good(ea) && e != a && e != x && e != ea
    ensures var e := k.eigenvar("anon", 8); var p := ComposedGoal(a, k.compose(e, a), x);
            && AcceptedFalsehood(k, GoodWitnesses(k, good, a), context, p, ComposedTerm(), Budget(12, 8))
            && PropTame(Closed, p, 0) && !PropContains(p, Const(e))
  {
    var e := k.eigenvar("anon", 8);
    var ea := k.compose(e, a);
    GoodAdmissible(k, good, a);
    ComposedGoalFalse(k, good, a, ea, x);
    ComposedGoalClosed(a, ea, x);
    ComposedGoalLacks(e, a, ea, x);
    ComposedChecked(k, a, x, ComposedGoal(a, ea, x));
  }

  lemma ComposedGoalClosed(a: Digest, ea: Digest, x: Digest)
    ensures PropTame(Closed, ComposedGoal(a, ea, x), 0)
  {
    var p := ComposedGoal(a, ea, x);
    assert WitnessTame(Closed, BoundVar(0), 1) && ObjectTame(Closed, Const(x), 1) && PropTame(Closed, p.premise.pred, 1);
    assert forall i :: WitnessTame(Closed, Const(i), 0) && ObjectTame(Closed, Const(i), 0);
    var q := p.conclusion;
    assert PropTame(Closed, p.premise, 0) && PropTame(Closed, q.premise, 0) && PropTame(Closed, q.conclusion, 0);
    assert PropTame(Closed, q, 0);
  }

  lemma ComposedGoalLacks(e: Digest, a: Digest, ea: Digest, x: Digest)
    requires e != a && e != ea && e != x
    ensures !PropContains(ComposedGoal(a, ea, x), Const(e))
  {
    var p, q := ComposedGoal(a, ea, x), ComposedGoal(a, ea, x).conclusion;
    assert forall i :: i != e ==> !ObjectContains(Const(i), Const(e));
    assert !ObjectContains(BoundVar(0), Const(e)) && !PropContains(p.premise.pred, Const(e));
    assert !PropContains(p.premise, Const(e)) && !PropContains(q.premise, Const(e)) && !PropContains(q.conclusion, Const(e));
    assert !PropContains(q, Const(e));
  }

  lemma {:induction false} EvalIsIdentity(k: Kernel, good: Digest -> bool, any: Digest, t: ObjectTerm)
    requires ObjectScoped(t, 0)
    ensures Eval(GoodWitnesses(k, good, any), [], t) == WitnessDigest(k, t)
  {
    match t
    case Const(_) =>
    case BoundVar(_) =>
    case Compose(a, b) => EvalIsIdentity(k, good, any, a); EvalIsIdentity(k, good, any, b);
    case Tensor(a, b) => EvalIsIdentity(k, good, any, a); EvalIsIdentity(k, good, any, b);
  }

  lemma GoodAdmissible(k: Kernel, good: Digest -> bool, any: Digest)
    requires Generated(k, good)
    ensures Admissible(k, GoodWitnesses(k, good, any))
  {
    var m := GoodWitnesses(k, good, any);
    forall v, w, x, y | Plain(NoneReserved, v) && Plain(NoneReserved, w) && WitnessDigest(k, v) == WitnessDigest(k, w)
                        && m.realizes(Eval(m, [], v), x, y)
      ensures m.realizes(Eval(m, [], w), x, y)
    {
      EvalIsIdentity(k, good, any, v);
      EvalIsIdentity(k, good, any, w);
    }
  }

  lemma ComposedGoalFalse(k: Kernel, good: Digest -> bool, a: Digest, ea: Digest, x: Digest)
    requires good(a) && !good(ea)
    ensures !Holds(GoodWitnesses(k, good, a), [], ComposedGoal(a, ea, x))
  {
    var m := GoodWitnesses(k, good, a);
    var p := ComposedGoal(a, ea, x);
    assert Eval(m, [a] + [], BoundVar(0)) == a;
    assert Holds(m, [a] + [], p.premise.pred);
    assert Holds(m, [], p.premise) && Holds(m, [], p.conclusion.premise) && !Holds(m, [], p.conclusion.conclusion);
  }

  lemma ComposedChecked(k: Kernel, a: Digest, x: Digest, p: Prop)
    requires var e := k.eigenvar("anon", 8); p == ComposedGoal(a, k.compose(e, a), x) && e != x && e != k.compose(e, a)
    ensures Check(Unrolled, k, 12, 8, [], ComposedTerm(), p).Done?
  {
    var inner := ComposedTerm().body;
    var g: Gamma := [(None, p.premise)];
    ComposedUnpack(k, g + [(None, p.conclusion.premise)], a, x, inner.body, p.conclusion.conclusion);
    assert Check(Unrolled, k, 11, 7, g, inner, p.conclusion).Done?;
    assert [] + g == g;
  }

  lemma ComposedUnpack(k: Kernel, g: Gamma, a: Digest, x: Digest, t: TermKind, goal: Prop)
    requires var e := k.eigenvar("anon", 8);
             goal == Realizes(Const(k.compose(e, a)), Const(x), Const(x)) && e != x && e != k.compose(e, a)
    requires |g| == 2 && g[0].1 == Exists(Realizes(BoundVar(0), Const(x), Const(x)))
    requires g[1].1 == Realizes(Const(a), Const(x), Const(x))
    requires t == Unpack(Hyp(Index(1)), None, None, RealizesComp(Hyp(Index(1)), Hyp(Index(0))))
    ensures Check(Unrolled, k, 10, 6, g, t, goal).Done?
  {
    var e := Const(k.eigenvar("anon", 8));
    var shown := Realizes(e, Const(x), Const(x));
    assert Infer(Unrolled, k, 9, 5, g, t.scrutinee) == Done(g[0].1, 8);
    assert Instantiate(g[0].1.pred, e) == shown;
    assert !PropContains(goal, e);
    ComposedBody(k, g + [(None, shown)], a, x, t.body, goal);
    assert CheckUnpack(Unrolled, k, 9, 5, g, t, goal).Done?;
  }

  lemma ComposedBody(k: Kernel, g: Gamma, a: Digest, x: Digest, t: TermKind, goal: Prop)
    requires var e := k.eigenvar("anon", 8); goal == Realizes(Const(k.compose(e, a)), Const(x), Const(x))
    requires |g| == 3 && g[1].1 == Realizes(Const(a), Const(x), Const(x))
    requires g[2].1 == Realizes(Const(k.eigenvar("anon", 8)), Const(x), Const(x))
    requires t == RealizesComp(Hyp(Index(1)), Hyp(Index(0)))
    ensures Check(Unrolled, k, 8, 5, g, t, goal).Done?
  {
    assert Infer(Unrolled, k, 7, 4, g, t.left) == Done(g[1].1, 6);
    assert Infer(Unrolled, k, 6, 4, g, t.right) == Done(g[2].1, 5);
    assert CheckComp(Unrolled, k, 7, 4, g, t, goal).Done?;
  }
}
