/** What propositions mean, and when the kernel's substitution means what a
    substitution should. A model gives a value to every constant and to every
    index past the binders, so open propositions have a truth value too. */
module KernelModels {
  import opened Options
  import opened KernelTerms

  datatype Model<!D(!new)> = Model(
    constant: Digest -> D,
    compose: (D, D) -> D,
    tensor: (D, D) -> D,
    free: nat -> D,
    atom: Digest -> bool,
    applied: (Digest, seq<D>) -> bool,
    realizes: (D, D, D) -> bool)

  /** The value of an object term; bound variable `i` is `env[i]`, and an index
      past `env` is a free variable. */
  ghost function Eval<D(!new)>(m: Model<D>, env: seq<D>, t: ObjectTerm): D {
    match t
    case Const(id) => m.constant(id)
    case BoundVar(i) => if i < |env| then env[i] else m.free(i - |env|)
    case Compose(a, b) => m.compose(Eval(m, env, a), Eval(m, env, b))
    case Tensor(a, b) => m.tensor(Eval(m, env, a), Eval(m, env, b))
  }

  /** Truth. The hole of a `Preserves` motive is the first variable past the
      enclosing binders, which is where instantiation leaves it. */
  ghost predicate Holds<D(!new)>(m: Model<D>, env: seq<D>, p: Prop)
    decreases p
  {
    match p
    case Atom(id) => m.atom(id)
    case Impl(a, b) => Holds(m, env, a) ==> Holds(m, env, b)
    case Prod(a, b) => Holds(m, env, a) && Holds(m, env, b)
    case Sum(a, b) => Holds(m, env, a) || Holds(m, env, b)
    case Eq(a, b) => Eval(m, env, a) == Eval(m, env, b)
    case Exists(body) => exists d: D :: Holds(m, [d] + env, body)
    case Applied(f, args) => m.applied(f, seq(|args|, i requires 0 <= i < |args| => Eval(m, env, args[i])))
    case Realizes(w, x, y) => m.realizes(Eval(m, env, w), Eval(m, env, x), Eval(m, env, y))
    case Preserves(w, motive) =>
      forall a: D, b: D :: m.realizes(Eval(m, env, w), a, b) && Holds(m, env + [a], motive) ==> Holds(m, env + [b], motive)
  }

  predicate ObjectScoped(t: ObjectTerm, n: nat) {
    match t
    case Const(_) => true
    case BoundVar(i) => i < n
    case Compose(a, b) => ObjectScoped(a, n) && ObjectScoped(b, n)
    case Tensor(a, b) => ObjectScoped(a, n) && ObjectScoped(b, n)
  }

  // ----- admissible models -----

  /** No constant of `t` is reserved. */
  predicate Unreserved(reserved: Digest -> bool, t: ObjectTerm) {
    match t
    case Const(id) => !reserved(id)
    case BoundVar(_) => true
    case Compose(a, b) => Unreserved(reserved, a) && Unreserved(reserved, b)
    case Tensor(a, b) => Unreserved(reserved, a) && Unreserved(reserved, b)
  }

  /** An object whose witness identity says what it denotes. */
  predicate Plain(reserved: Digest -> bool, t: ObjectTerm) {
    ObjectScoped(t, 0) && Unreserved(reserved, t)
  }

  predicate PlainRow(reserved: Digest -> bool, r: Relation, x: Digest, y: Digest) {
    !reserved(r.generator) && !reserved(x) && !reserved(y)
  }

  ghost predicate RespectsWitnessIdentity<D(!new)>(reserved: Digest -> bool, k: Kernel, m: Model<D>) {
    forall v, w, x, y ::
      Plain(reserved, v) && Plain(reserved, w) && WitnessDigest(k, v) == WitnessDigest(k, w) ==>
      m.realizes(Eval(m, [], v), x, y) ==> m.realizes(Eval(m, [], w), x, y)
  }

  ghost predicate ClosedUnderComposition<D(!new)>(m: Model<D>) {
    forall g1, g2, x, y, z :: m.realizes(g1, x, y) && m.realizes(g2, y, z) ==> m.realizes(m.compose(g2, g1), x, z)
  }

  ghost predicate ClosedUnderTensor<D(!new)>(m: Model<D>) {
    forall w1, x1, y1, w2, x2, y2 :: m.realizes(w1, x1, y1) && m.realizes(w2, x2, y2) ==>
      m.realizes(m.tensor(w1, w2), m.tensor(x1, x2), m.tensor(y1, y2))
  }

  ghost predicate ContainsRegistry<D(!new)>(reserved: Digest -> bool, k: Kernel, m: Model<D>) {
    forall r, x, y :: k.resolve(r).Some? && Admits(k.resolve(r).value, x, y) && PlainRow(reserved, k.resolve(r).value, x, y) ==>
      m.realizes(m.constant(k.resolve(r).value.generator), m.constant(x), m.constant(y))
  }

  /** Admissible as far as the constants that are not reserved go. */
  ghost predicate AdmissibleUpTo<D(!new)>(reserved: Digest -> bool, k: Kernel, m: Model<D>) {
    && RespectsWitnessIdentity(reserved, k, m)
    && ClosedUnderComposition(m)
    && ClosedUnderTensor(m)
    && ContainsRegistry(reserved, k, m)
  }

  predicate NoneReserved(id: Digest) { false }

  ghost predicate Admissible<D(!new)>(k: Kernel, m: Model<D>) {
    AdmissibleUpTo(NoneReserved, k, m)
  }

  lemma {:induction false} NoneReservedIn(t: ObjectTerm)
    ensures Unreserved(NoneReserved, t)
  {
    match t
    case Const(_) =>
    case BoundVar(_) =>
    case Compose(a, b) => NoneReservedIn(a); NoneReservedIn(b);
    case Tensor(a, b) => NoneReservedIn(a); NoneReservedIn(b);
  }

  lemma AdmissibleWeakens<D(!new)>(reserved: Digest -> bool, k: Kernel, m: Model<D>)
    requires Admissible(k, m)
    ensures AdmissibleUpTo(reserved, k, m)
  {
    forall v, w, x, y | Plain(reserved, v) && Plain(reserved, w) && WitnessDigest(k, v) == WitnessDigest(k, w)
                        && m.realizes(Eval(m, [], v), x, y)
      ensures m.realizes(Eval(m, [], w), x, y)
    {
      NoneReservedIn(v);
      NoneReservedIn(w);
      assert Plain(NoneReserved, v) && Plain(NoneReserved, w);
    }
    forall r, x, y | k.resolve(r).Some? && Admits(k.resolve(r).value, x, y) && PlainRow(reserved, k.resolve(r).value, x, y)
      ensures m.realizes(m.constant(k.resolve(r).value.generator), m.constant(x), m.constant(y))
    {
      assert PlainRow(NoneReserved, k.resolve(r).value, x, y);
    }
  }

  // ----- capture -----

  predicate ObjectMentions(t: ObjectTerm, i: nat) {
    match t
    case Const(_) => false
    case BoundVar(j) => i == j
    case Compose(a, b) => ObjectMentions(a, i) || ObjectMentions(b, i)
    case Tensor(a, b) => ObjectMentions(a, i) || ObjectMentions(b, i)
  }

  predicate PropMentions(p: Prop, i: nat) {
    match p
    case Atom(_) => false
    case Impl(a, b) => PropMentions(a, i) || PropMentions(b, i)
    case Prod(a, b) => PropMentions(a, i) || PropMentions(b, i)
    case Sum(a, b) => PropMentions(a, i) || PropMentions(b, i)
    case Eq(a, b) => ObjectMentions(a, i) || ObjectMentions(b, i)
    case Exists(body) => PropMentions(body, i + 1)
    case Applied(_, args) => exists j :: 0 <= j < |args| && ObjectMentions(args[j], i)
    case Realizes(w, x, y) => ObjectMentions(w, i) || ObjectMentions(x, i) || ObjectMentions(y, i)
    case Preserves(w, motive) => ObjectMentions(w, i) || PropMentions(motive, i)
  }

  /** Variable `i` occurs inside the motive of some `Preserves`. */
  predicate InMotive(p: Prop, i: nat) {
    match p
    case Impl(a, b) => InMotive(a, i) || InMotive(b, i)
    case Prod(a, b) => InMotive(a, i) || InMotive(b, i)
    case Sum(a, b) => InMotive(a, i) || InMotive(b, i)
    case Exists(body) => InMotive(body, i + 1)
    case Preserves(_, motive) => PropMentions(motive, i)
    case _ => false
  }

  /** No open object is substituted under a `Preserves`. */
  predicate CaptureFree(pred: Prop, r: ObjectTerm) {
    ObjectScoped(r, 0) || !InMotive(pred, 0)
  }

  function AvoidObject(t: ObjectTerm, r: ObjectTerm, depth: nat, binders: nat): ObjectTerm {
    match t
    case Const(_) => t
    case BoundVar(i) => if i == depth then Shift(r, binders) else if i > depth then BoundVar(i - 1) else t
    case Compose(a, b) => Compose(AvoidObject(a, r, depth, binders), AvoidObject(b, r, depth, binders))
    case Tensor(a, b) => Tensor(AvoidObject(a, r, depth, binders), AvoidObject(b, r, depth, binders))
  }

  /** Capture-avoiding substitution for variable `depth`: the replacement is moved
      past every binder around it, the motive of `Preserves` included. */
  function AvoidProp(p: Prop, r: ObjectTerm, depth: nat, binders: nat): Prop {
    match p
    case Atom(_) => p
    case Impl(a, b) => Impl(AvoidProp(a, r, depth, binders), AvoidProp(b, r, depth, binders))
    case Prod(a, b) => Prod(AvoidProp(a, r, depth, binders), AvoidProp(b, r, depth, binders))
    case Sum(a, b) => Sum(AvoidProp(a, r, depth, binders), AvoidProp(b, r, depth, binders))
    case Eq(a, b) => Eq(AvoidObject(a, r, depth, binders), AvoidObject(b, r, depth, binders))
    case Exists(body) => Exists(AvoidProp(body, r, depth + 1, binders + 1))
    case Applied(f, args) =>
      Applied(f, seq(|args|, i requires 0 <= i < |args| => AvoidObject(args[i], r, depth, binders)))
    case Realizes(w, x, y) =>
      Realizes(AvoidObject(w, r, depth, binders), AvoidObject(x, r, depth, binders), AvoidObject(y, r, depth, binders))
    case Preserves(w, motive) => Preserves(AvoidObject(w, r, depth, binders), AvoidProp(motive, r, depth, binders + 1))
  }

  lemma {:induction false} ShiftAgrees(r: ObjectTerm, a: nat, b: nat)
    requires a < b
    ensures Shift(r, a) == Shift(r, b) <==> ObjectScoped(r, 0)
  {
    match r
    case Const(_) =>
    case BoundVar(_) =>
    case Compose(x, y) => ShiftAgrees(x, a, b); ShiftAgrees(y, a, b);
    case Tensor(x, y) => ShiftAgrees(x, a, b); ShiftAgrees(y, a, b);
  }

  lemma {:induction false} ObjectAvoids(t: ObjectTerm, r: ObjectTerm, depth: nat, binders: nat)
    requires depth <= binders
    ensures SubstObject(t, r, depth) == AvoidObject(t, r, depth, binders) <==>
            depth == binders || ObjectScoped(r, 0) || !ObjectMentions(t, depth)
  {
    match t
    case Const(_) =>
    case BoundVar(_) => if depth < binders { ShiftAgrees(r, depth, binders); }
    case Compose(a, b) => ObjectAvoids(a, r, depth, binders); ObjectAvoids(b, r, depth, binders);
    case Tensor(a, b) => ObjectAvoids(a, r, depth, binders); ObjectAvoids(b, r, depth, binders);
  }

  lemma ArgsAvoid(f: Digest, args: seq<ObjectTerm>, r: ObjectTerm, depth: nat, binders: nat)
    requires depth <= binders
    ensures SubstProp(Applied(f, args), r, depth) == AvoidProp(Applied(f, args), r, depth, binders) <==>
            depth == binders || ObjectScoped(r, 0) || !PropMentions(Applied(f, args), depth)
  {
    var s, a := SubstProp(Applied(f, args), r, depth).args, AvoidProp(Applied(f, args), r, depth, binders).args;
    forall i | 0 <= i < |args|
      ensures s[i] == a[i] <==> depth == binders || ObjectScoped(r, 0) || !ObjectMentions(args[i], depth)
    {
      ObjectAvoids(args[i], r, depth, binders);
    }
    if depth == binders || ObjectScoped(r, 0) || !PropMentions(Applied(f, args), depth) {
      assert s == a;
    } else {
      var j :| 0 <= j < |args| && ObjectMentions(args[j], depth);
      assert s[j] != a[j];
    }
  }

  /** Under `binders - depth` motives the substitution of the kernel avoids
      capture exactly when nothing open is moved there. */
  lemma {:induction false} PropAvoids(p: Prop, r: ObjectTerm, depth: nat, binders: nat)
    requires depth <= binders
    ensures SubstProp(p, r, depth) == AvoidProp(p, r, depth, binders) <==>
            ObjectScoped(r, 0) || !(if depth == binders then InMotive(p, depth) else PropMentions(p, depth))
  {
    match p
    case Atom(_) =>
    case Impl(a, b) => PropAvoids(a, r, depth, binders); PropAvoids(b, r, depth, binders);
    case Prod(a, b) => PropAvoids(a, r, depth, binders); PropAvoids(b, r, depth, binders);
    case Sum(a, b) => PropAvoids(a, r, depth, binders); PropAvoids(b, r, depth, binders);
    case Eq(a, b) => ObjectAvoids(a, r, depth, binders); ObjectAvoids(b, r, depth, binders);
    case Exists(body) => PropAvoids(body, r, depth + 1, binders + 1);
    case Applied(f, args) => ArgsAvoid(f, args, r, depth, binders);
    case Realizes(w, x, y) =>
      ObjectAvoids(w, r, depth, binders); ObjectAvoids(x, r, depth, binders); ObjectAvoids(y, r, depth, binders);
    case Preserves(w, motive) => ObjectAvoids(w, r, depth, binders); PropAvoids(motive, r, depth, binders + 1);
  }

  /** The substitution of the kernel is the capture-avoiding one if and only if
      no open object is substituted under a `Preserves`. */
  lemma InstantiateAvoidsCapture(pred: Prop, r: ObjectTerm)
    ensures Instantiate(pred, r) == AvoidProp(pred, r, 0, 0) <==> CaptureFree(pred, r)
  {
    PropAvoids(pred, r, 0, 0);
  }

  // ----- capture-avoiding substitution is evaluation in an extended environment -----

  lemma {:induction false} EvalShift<D(!new)>(m: Model<D>, env: seq<D>, t: ObjectTerm)
    ensures Eval(m, env, Shift(t, |env|)) == Eval(m, [], t)
  {
    match t
    case Const(_) =>
    case BoundVar(_) =>
    case Compose(a, b) => EvalShift(m, env, a); EvalShift(m, env, b);
    case Tensor(a, b) => EvalShift(m, env, a); EvalShift(m, env, b);
  }

  lemma {:induction false} EvalAvoid<D(!new)>(m: Model<D>, inner: seq<D>, outer: seq<D>, t: ObjectTerm, r: ObjectTerm)
    ensures Eval(m, inner + outer, AvoidObject(t, r, |inner|, |inner + outer|)) == Eval(m, inner + [Eval(m, [], r)] + outer, t)
  {
    match t
    case Const(_) =>
    case BoundVar(i) => EvalShift(m, inner + outer, r);
    case Compose(a, b) => EvalAvoid(m, inner, outer, a, r); EvalAvoid(m, inner, outer, b, r);
    case Tensor(a, b) => EvalAvoid(m, inner, outer, a, r); EvalAvoid(m, inner, outer, b, r);
  }

  /** `p` with `r` for the variable after `inner`, where `outer` holds the motives'
      holes around it. */
  lemma {:induction false} HoldsAvoid<D(!new)>(m: Model<D>, inner: seq<D>, outer: seq<D>, p: Prop, r: ObjectTerm)
    ensures Holds(m, inner + outer, AvoidProp(p, r, |inner|, |inner + outer|)) <==>
            Holds(m, inner + [Eval(m, [], r)] + outer, p)
    decreases p, 0
  {
    match p
    case Atom(_) =>
    case Impl(a, b) => HoldsAvoid(m, inner, outer, a, r); HoldsAvoid(m, inner, outer, b, r);
    case Prod(a, b) => HoldsAvoid(m, inner, outer, a, r); HoldsAvoid(m, inner, outer, b, r);
    case Sum(a, b) => HoldsAvoid(m, inner, outer, a, r); HoldsAvoid(m, inner, outer, b, r);
    case Eq(a, b) => EvalAvoid(m, inner, outer, a, r); EvalAvoid(m, inner, outer, b, r);
    case Exists(body) => ExistsAvoid(m, inner, outer, body, r);
    case Applied(f, args) => AppliedAvoid(m, inner, outer, f, args, r);
    case Realizes(w, x, y) =>
      EvalAvoid(m, inner, outer, w, r); EvalAvoid(m, inner, outer, x, r); EvalAvoid(m, inner, outer, y, r);
    case Preserves(w, motive) =>
      EvalAvoid(m, inner, outer, w, r);
      PreservesAvoid(m, inner, outer, w, motive, r);
  }

  lemma {:induction false} ExistsAvoid<D(!new)>(m: Model<D>, inner: seq<D>, outer: seq<D>, body: Prop, r: ObjectTerm)
    ensures Holds(m, inner + outer, AvoidProp(Exists(body), r, |inner|, |inner + outer|)) <==>
            Holds(m, inner + [Eval(m, [], r)] + outer, Exists(body))
    decreases body, 1
  {
    var v := Eval(m, [], r);
    forall d: D
      ensures Holds(m, [d] + (inner + outer), AvoidProp(body, r, |inner| + 1, |inner + outer| + 1)) <==>
              Holds(m, [d] + (inner + [v] + outer), body)
    {
      HoldsAvoid(m, [d] + inner, outer, body, r);
      assert [d] + (inner + outer) == ([d] + inner) + outer;
      assert [d] + (inner + [v] + outer) == ([d] + inner) + [v] + outer;
    }
  }

  lemma {:induction false} PreservesAvoid<D(!new)>(m: Model<D>, inner: seq<D>, outer: seq<D>, w: ObjectTerm, motive: Prop, r: ObjectTerm)
    requires Eval(m, inner + outer, AvoidObject(w, r, |inner|, |inner + outer|)) == Eval(m, inner + [Eval(m, [], r)] + outer, w)
    ensures Holds(m, inner + outer, AvoidProp(Preserves(w, motive), r, |inner|, |inner + outer|)) <==>
            Holds(m, inner + [Eval(m, [], r)] + outer, Preserves(w, motive))
    decreases motive, 1
  {
    var v := Eval(m, [], r);
    forall a: D
      ensures Holds(m, (inner + outer) + [a], AvoidProp(motive, r, |inner|, |inner + outer| + 1)) <==>
              Holds(m, (inner + [v] + outer) + [a], motive)
    {
      HoldsAvoid(m, inner, outer + [a], motive, r);
      assert (inner + outer) + [a] == inner + (outer + [a]);
      assert (inner + [v] + outer) + [a] == inner + [v] + (outer + [a]);
    }
  }

  lemma AppliedAvoid<D(!new)>(m: Model<D>, inner: seq<D>, outer: seq<D>, f: Digest, args: seq<ObjectTerm>, r: ObjectTerm)
    ensures Holds(m, inner + outer, AvoidProp(Applied(f, args), r, |inner|, |inner + outer|)) <==>
            Holds(m, inner + [Eval(m, [], r)] + outer, Applied(f, args))
  {
    var args' := AvoidProp(Applied(f, args), r, |inner|, |inner + outer|).args;
    var env, env' := inner + outer, inner + [Eval(m, [], r)] + outer;
    forall i | 0 <= i < |args| ensures Eval(m, env, args'[i]) == Eval(m, env', args[i]) {
      EvalAvoid(m, inner, outer, args[i], r);
    }
    assert seq(|args'|, i requires 0 <= i < |args'| => Eval(m, env, args'[i]))
        == seq(|args|, i requires 0 <= i < |args| => Eval(m, env', args[i]));
  }

  lemma AvoidHolds<D(!new)>(m: Model<D>, pred: Prop, r: ObjectTerm)
    ensures Holds(m, [], AvoidProp(pred, r, 0, 0)) <==> Holds(m, [Eval(m, [], r)], pred)
  {
    var none: seq<D> := [];
    HoldsAvoid(m, none, none, pred, r);
    assert none + none == none;
    assert none + [Eval(m, none, r)] + none == [Eval(m, none, r)];
  }

  /** Instantiation, where it captures nothing, is evaluation at the value of the
      replacement, open or not. */
  lemma InstantiateHolds<D(!new)>(m: Model<D>, pred: Prop, r: ObjectTerm)
    requires CaptureFree(pred, r)
    ensures Holds(m, [], Instantiate(pred, r)) <==> Holds(m, [Eval(m, [], r)], pred)
  {
    InstantiateAvoidsCapture(pred, r);
    AvoidHolds(m, pred, r);
  }

  // ----- a constant that does not occur does not matter -----

  ghost function Reinterpret<D(!new)>(m: Model<D>, x: Digest, d: D): Model<D> {
    m.(constant := id => if id == x then d else m.constant(id))
  }

  lemma {:induction false} EvalIgnores<D(!new)>(m: Model<D>, x: Digest, d: D, env: seq<D>, t: ObjectTerm)
    requires !ObjectContains(t, Const(x))
    ensures Eval(Reinterpret(m, x, d), env, t) == Eval(m, env, t)
  {
    match t
    case Const(_) =>
    case BoundVar(_) =>
    case Compose(a, b) => EvalIgnores(m, x, d, env, a); EvalIgnores(m, x, d, env, b);
    case Tensor(a, b) => EvalIgnores(m, x, d, env, a); EvalIgnores(m, x, d, env, b);
  }

  lemma {:induction false} HoldsIgnores<D(!new)>(m: Model<D>, x: Digest, d: D, env: seq<D>, p: Prop)
    requires !PropContains(p, Const(x))
    ensures Holds(Reinterpret(m, x, d), env, p) <==> Holds(m, env, p)
    decreases p
  {
    var m' := Reinterpret(m, x, d);
    match p
    case Atom(_) =>
    case Impl(a, b) => HoldsIgnores(m, x, d, env, a); HoldsIgnores(m, x, d, env, b);
    case Prod(a, b) => HoldsIgnores(m, x, d, env, a); HoldsIgnores(m, x, d, env, b);
    case Sum(a, b) => HoldsIgnores(m, x, d, env, a); HoldsIgnores(m, x, d, env, b);
    case Eq(a, b) => EvalIgnores(m, x, d, env, a); EvalIgnores(m, x, d, env, b);
    case Exists(body) =>
      forall v: D ensures Holds(m', [v] + env, body) <==> Holds(m, [v] + env, body) {
        HoldsIgnores(m, x, d, [v] + env, body);
      }
    case Applied(_, args) =>
      forall i | 0 <= i < |args| ensures Eval(m', env, args[i]) == Eval(m, env, args[i]) {
        EvalIgnores(m, x, d, env, args[i]);
      }
      assert seq(|args|, i requires 0 <= i < |args| => Eval(m', env, args[i]))
          == seq(|args|, i requires 0 <= i < |args| => Eval(m, env, args[i]));
    case Realizes(w, a, b) =>
      EvalIgnores(m, x, d, env, w); EvalIgnores(m, x, d, env, a); EvalIgnores(m, x, d, env, b);
    case Preserves(w, motive) =>
      EvalIgnores(m, x, d, env, w);
      forall v: D ensures Holds(m', env + [v], motive) <==> Holds(m, env + [v], motive) {
        HoldsIgnores(m, x, d, env + [v], motive);
      }
  }

  lemma {:induction false} UnreservedLacks(reserved: Digest -> bool, t: ObjectTerm, x: Digest)
    requires Unreserved(reserved, t) && reserved(x)
    ensures !ObjectContains(t, Const(x))
  {
    match t
    case Const(_) =>
    case BoundVar(_) =>
    case Compose(a, b) => UnreservedLacks(reserved, a, x); UnreservedLacks(reserved, b, x);
    case Tensor(a, b) => UnreservedLacks(reserved, a, x); UnreservedLacks(reserved, b, x);
  }

  /** A reserved constant may be given any value. */
  lemma ReinterpretAdmissible<D(!new)>(reserved: Digest -> bool, k: Kernel, m: Model<D>, x: Digest, d: D)
    requires AdmissibleUpTo(reserved, k, m) && reserved(x)
    ensures AdmissibleUpTo(reserved, k, Reinterpret(m, x, d))
  {
    var m' := Reinterpret(m, x, d);
    forall v, w, a, b | Plain(reserved, v) && Plain(reserved, w) && WitnessDigest(k, v) == WitnessDigest(k, w)
                        && m'.realizes(Eval(m', [], v), a, b)
      ensures m'.realizes(Eval(m', [], w), a, b)
    {
      UnreservedLacks(reserved, v, x);
      UnreservedLacks(reserved, w, x);
      EvalIgnores(m, x, d, [], v);
      EvalIgnores(m, x, d, [], w);
    }
    assert ClosedUnderComposition(m');
    assert ClosedUnderTensor(m');
    assert ContainsRegistry(reserved, k, m');
  }
}
