/** The dependency graph of a plan, and what it means: a rule's value is a
    function of the inputs its reach names. */
module DepGraph {
  import opened Options
  import opened DecisionPlan

  /** Names an expression mentions as `let`/input references and as rule facts. */
  datatype Refs = Refs(lets: set<string>, rules: set<string>)

  const NO_REFS := Refs({}, {})

  function Union(a: Refs, b: Refs): Refs {
    Refs(a.lets + b.lets, a.rules + b.rules)
  }

  function CollectRefs(e: Expr): Refs
    decreases e, 2, 0
  {
    match e
    case IntLit(_) => NO_REFS
    case StrLit(_) => NO_REFS
    case BoolLit(_) => NO_REFS
    case LetRef(name) => Refs({name}, {})
    case RuleFact(rule) => Refs({}, {rule})
    case NullaryVariant(_, _) => NO_REFS
    case CtorExpr(_, _, args) => CollectAll(args)
    case RecordExpr(_, _) => CollectFields(e, 0)
    case Field(base, _) => CollectRefs(base)
    case Arith(_, a, b) => Union(CollectRefs(a), CollectRefs(b))
    case Cmp(_, a, b) => Union(CollectRefs(a), CollectRefs(b))
    case IntDivMod(_, a, b) => Union(CollectRefs(a), CollectRefs(b))
    case Match(scrutinee, _) => Union(CollectRefs(scrutinee), CollectArms(e, 0))
    case Call(_, args) => CollectAll(args)
    case NumericBuiltin(_, args) => CollectAll(args)
    case And(a, b) => Union(CollectRefs(a), CollectRefs(b))
    case Or(a, b) => Union(CollectRefs(a), CollectRefs(b))
    case In(a, b) => Union(CollectRefs(a), CollectRefs(b))
    case Not(a) => CollectRefs(a)
    case Len(a) => CollectRefs(a)
    case Distinct(a) => CollectRefs(a)
    case Only(a) => CollectRefs(a)
    case Ascribe(a, _) => CollectRefs(a)
    case Validate(_, a) => CollectRefs(a)
    case Fold(_, list, _, body) => Union(CollectRefs(list), CollectRefs(body))
    case Filter(list, _, body) => Union(CollectRefs(list), CollectRefs(body))
    case MapExpr(list, _, body) => Union(CollectRefs(list), CollectRefs(body))
    case Comprehension(_, w, y) =>
      Union(CollectGenerators(e, 0), Union(if w.Some? then CollectRefs(w.value) else NO_REFS, CollectRefs(y)))
    case ListLit(items) => CollectAll(items)
  }

  function CollectAll(es: seq<Expr>): Refs
    decreases es, 2, 0
  {
    if |es| == 0 then NO_REFS else Union(CollectRefs(es[0]), CollectAll(es[1..]))
  }

  function CollectFields(e: Expr, i: nat): Refs
    requires e.RecordExpr? && i <= |e.fields|
    decreases e, 1, |e.fields| - i
  {
    if i == |e.fields| then NO_REFS else Union(CollectRefs(e.fields[i].1), CollectFields(e, i + 1))
  }

  function CollectArms(e: Expr, i: nat): Refs
    requires e.Match? && i <= |e.arms|
    decreases e, 1, |e.arms| - i
  {
    if i == |e.arms| then NO_REFS else Union(CollectRefs(e.arms[i].1), CollectArms(e, i + 1))
  }

  function CollectGenerators(e: Expr, i: nat): Refs
    requires e.Comprehension? && i <= |e.generators|
    decreases e, 1, |e.generators| - i
  {
    if i == |e.generators| then NO_REFS else Union(CollectRefs(e.generators[i].1), CollectGenerators(e, i + 1))
  }

  // ----- evaluation depends on the collected names only -----

  /** Same locals, and every mentioned name means the same outside them. */
  ghost predicate AgreeOn(a: Env, b: Env, r: Refs) {
    && a.locals == b.locals
    && (forall n :: n in r.lets ==> Global(a, n) == Global(b, n))
    && (forall n :: n in r.rules ==> Lookup(a.facts, n) == Lookup(b.facts, n))
  }

  lemma BindAllAgrees(a: Env, b: Env, r: Refs, binders: seq<Option<string>>, args: seq<Value>)
    requires AgreeOn(a, b, r) && |binders| == |args|
    ensures AgreeOn(BindAll(a, binders, args), BindAll(b, binders, args), r)
    decreases |binders|
  {
    if |binders| > 0 {
      var a' := if binders[0].Some? then Bind(a, binders[0].value, args[0]) else a;
      var b' := if binders[0].Some? then Bind(b, binders[0].value, args[0]) else b;
      BindAllAgrees(a', b', r, binders[1..], args[1..]);
    }
  }

  predicate IsBinary(e: Expr) {
    e.Arith? || e.Cmp? || e.IntDivMod? || e.And? || e.Or? || e.In?
  }

  predicate IsUnary(e: Expr) {
    e.Not? || e.Len? || e.Distinct? || e.Only? || e.Ascribe? || e.Validate?
  }

  predicate IsLoop(e: Expr) {
    e.Fold? || e.Filter? || e.MapExpr? || e.Comprehension?
  }

  /** An expression reads no more of its environment than it mentions. */
  lemma {:induction false} EvalAgrees(p: Prims, e: Expr, a: Env, b: Env)
    requires AgreeOn(a, b, CollectRefs(e))
    ensures Eval(p, e, a) == Eval(p, e, b)
    decreases e, 3, 0, 0
  {
    if IsBinary(e) {
      BinaryAgrees(p, e, a, b);
    } else if IsUnary(e) {
      UnaryAgrees(p, e, a, b);
    } else if IsLoop(e) {
      LoopAgrees(p, e, a, b);
    } else {
      OtherAgrees(p, e, a, b);
    }
  }

  lemma {:induction false} LoopAgrees(p: Prims, e: Expr, a: Env, b: Env)
    requires IsLoop(e) && AgreeOn(a, b, CollectRefs(e))
    ensures Eval(p, e, a) == Eval(p, e, b)
    decreases e, 2, 0, 0
  {
    if e.Fold? {
      FoldAgrees(p, e, a, b);
    } else if e.Filter? {
      FilterAgrees(p, e, a, b);
    } else if e.MapExpr? {
      MapAgrees(p, e, a, b);
    } else {
      GeneratorsAgree(p, e, 0, [], a, b);
    }
  }

  lemma {:induction false} OtherAgrees(p: Prims, e: Expr, a: Env, b: Env)
    requires !IsBinary(e) && !IsUnary(e) && !IsLoop(e) && AgreeOn(a, b, CollectRefs(e))
    ensures Eval(p, e, a) == Eval(p, e, b)
    decreases e, 2, 0, 0
  {
    match e
    case LetRef(name) => assert Global(a, name) == Global(b, name);
    case RuleFact(rule) => assert Lookup(a.facts, rule) == Lookup(b.facts, rule);
    case Field(base, _) => EvalAgrees(p, base, a, b);
    case CtorExpr(_, _, args) => AllAgrees(p, args, a, b);
    case RecordExpr(_, _) => FieldsAgree(p, e, 0, a, b);
    case Match(scrutinee, _) => MatchAgrees(p, e, a, b);
    case Call(_, args) => AllAgrees(p, args, a, b);
    case NumericBuiltin(_, args) => AllAgrees(p, args, a, b);
    case ListLit(items) => AllAgrees(p, items, a, b);
    case _ =>
  }

  lemma {:induction false} BinaryAgrees(p: Prims, e: Expr, a: Env, b: Env)
    requires IsBinary(e) && AgreeOn(a, b, CollectRefs(e))
    ensures Eval(p, e, a) == Eval(p, e, b)
    decreases e, 1, 0, 0
  {
    EvalAgrees(p, e.lhs, a, b);
    EvalAgrees(p, e.rhs, a, b);
  }

  lemma {:induction false} UnaryAgrees(p: Prims, e: Expr, a: Env, b: Env)
    requires IsUnary(e) && AgreeOn(a, b, CollectRefs(e))
    ensures Eval(p, e, a) == Eval(p, e, b)
    decreases e, 1, 0, 0
  {
    EvalAgrees(p, e.arg, a, b);
  }

  lemma {:induction false} MatchAgrees(p: Prims, e: Expr, a: Env, b: Env)
    requires e.Match? && AgreeOn(a, b, CollectRefs(e))
    ensures Eval(p, e, a) == Eval(p, e, b)
    decreases e, 1, |e.arms| + 1, 0
  {
    EvalAgrees(p, e.scrutinee, a, b);
    var v := Eval(p, e.scrutinee, a);
    if v.Ok? { ArmsAgree(p, e, 0, v.value, a, b); }
  }

  lemma {:induction false} AllAgrees(p: Prims, es: seq<Expr>, a: Env, b: Env)
    requires AgreeOn(a, b, CollectAll(es))
    ensures EvalAll(p, es, a) == EvalAll(p, es, b)
    decreases es, 2, 0, 0
  {
    if |es| > 0 {
      EvalAgrees(p, es[0], a, b);
      AllAgrees(p, es[1..], a, b);
    }
  }

  lemma {:induction false} FieldsAgree(p: Prims, e: Expr, i: nat, a: Env, b: Env)
    requires e.RecordExpr? && i <= |e.fields| && AgreeOn(a, b, CollectFields(e, i))
    ensures EvalFields(p, e, i, a) == EvalFields(p, e, i, b)
    decreases e, 1, |e.fields| - i, 0
  {
    if i < |e.fields| {
      EvalAgrees(p, e.fields[i].1, a, b);
      FieldsAgree(p, e, i + 1, a, b);
    }
  }

  lemma {:induction false} ArmsAgree(p: Prims, e: Expr, i: nat, v: Value, a: Env, b: Env)
    requires e.Match? && i <= |e.arms| && AgreeOn(a, b, CollectArms(e, i))
    ensures EvalArms(p, e, i, v, a) == EvalArms(p, e, i, v, b)
    decreases e, 1, |e.arms| - i, 0
  {
    if i < |e.arms| {
      var pattern := e.arms[i].0;
      if pattern.Wildcard? {
        EvalAgrees(p, e.arms[i].1, a, b);
      } else if !p.matches(pattern, v) {
        ArmsAgree(p, e, i + 1, v, a, b);
      } else {
        var args := if v.Ctor? then v.args else [];
        if |pattern.binders| == |args| {
          BindAllAgrees(a, b, CollectRefs(e.arms[i].1), pattern.binders, args);
          EvalAgrees(p, e.arms[i].1, BindAll(a, pattern.binders, args), BindAll(b, pattern.binders, args));
        }
      }
    }
  }

  /** A loop body agrees for every value its binder takes. */
  lemma {:induction false} BodyAgrees(p: Prims, body: Expr, binder: string, a: Env, b: Env)
    requires AgreeOn(a, b, CollectRefs(body))
    ensures forall v: Value :: Eval(p, body, Bind(a, binder, v)) == Eval(p, body, Bind(b, binder, v))
    decreases body, 4, 0, 0
  {
    forall v: Value ensures Eval(p, body, Bind(a, binder, v)) == Eval(p, body, Bind(b, binder, v)) {
      EvalAgrees(p, body, Bind(a, binder, v), Bind(b, binder, v));
    }
  }

  lemma {:induction false} FoldAgrees(p: Prims, e: Expr, a: Env, b: Env)
    requires e.Fold? && AgreeOn(a, b, CollectRefs(e))
    ensures Eval(p, e, a) == Eval(p, e, b)
    decreases e, 1, 0, 0
  {
    EvalAgrees(p, e.list, a, b);
    var xs := Eval(p, e.list, a);
    if xs.Ok? && xs.value.List? {
      var f, g := (v: Value) => Eval(p, e.body, Bind(a, e.binder, v)), (v: Value) => Eval(p, e.body, Bind(b, e.binder, v));
      BodyAgrees(p, e.body, e.binder, a, b);
      assert forall v: Value :: f(v) == g(v);
      var acc := p.foldStart(e.op, xs.value.items);
      if acc.Ok? { FoldItemsAgree((x, y) => p.foldStep(e.op, x, y), f, g, xs.value.items, acc.value); }
    }
  }

  lemma {:induction false} FilterAgrees(p: Prims, e: Expr, a: Env, b: Env)
    requires e.Filter? && AgreeOn(a, b, CollectRefs(e))
    ensures Eval(p, e, a) == Eval(p, e, b)
    decreases e, 1, 0, 0
  {
    EvalAgrees(p, e.list, a, b);
    var xs := Eval(p, e.list, a);
    if xs.Ok? && xs.value.List? {
      var f, g := (v: Value) => Eval(p, e.body, Bind(a, e.binder, v)), (v: Value) => Eval(p, e.body, Bind(b, e.binder, v));
      BodyAgrees(p, e.body, e.binder, a, b);
      assert forall v: Value :: f(v) == g(v);
      FilterItemsAgree(p.maxListLen, f, g, xs.value.items, []);
    }
  }

  lemma {:induction false} MapAgrees(p: Prims, e: Expr, a: Env, b: Env)
    requires e.MapExpr? && AgreeOn(a, b, CollectRefs(e))
    ensures Eval(p, e, a) == Eval(p, e, b)
    decreases e, 1, 0, 0
  {
    EvalAgrees(p, e.list, a, b);
    var xs := Eval(p, e.list, a);
    if xs.Ok? && xs.value.List? {
      var f, g := (v: Value) => Eval(p, e.body, Bind(a, e.binder, v)), (v: Value) => Eval(p, e.body, Bind(b, e.binder, v));
      BodyAgrees(p, e.body, e.binder, a, b);
      assert forall v: Value :: f(v) == g(v);
      MapItemsAgree(p.maxListLen, f, g, xs.value.items, []);
    }
  }

  lemma {:induction false} FoldItemsAgree(step: (Value, Value) -> FoldStep, f: Value -> Result<Value>, g: Value -> Result<Value>,
                                          items: seq<Value>, acc: Value)
    requires forall v :: f(v) == g(v)
    ensures FoldItems(step, f, items, acc) == FoldItems(step, g, items, acc)
    decreases |items|
  {
    if |items| > 0 && f(items[0]).Ok? && step(acc, f(items[0]).value).Next? {
      FoldItemsAgree(step, f, g, items[1..], step(acc, f(items[0]).value).acc);
    }
  }

  lemma {:induction false} FilterItemsAgree(maxLen: nat, f: Value -> Result<Value>, g: Value -> Result<Value>, items: seq<Value>, out: seq<Value>)
    requires forall v :: f(v) == g(v)
    ensures FilterItems(maxLen, f, items, out) == FilterItems(maxLen, g, items, out)
    decreases |items|
  {
    if |items| > 0 {
      FilterItemsAgree(maxLen, f, g, items[1..], out);
      FilterItemsAgree(maxLen, f, g, items[1..], out + [items[0]]);
    }
  }

  lemma {:induction false} MapItemsAgree(maxLen: nat, f: Value -> Result<Value>, g: Value -> Result<Value>, items: seq<Value>, out: seq<Value>)
    requires forall v :: f(v) == g(v)
    ensures MapItems(maxLen, f, items, out) == MapItems(maxLen, g, items, out)
    decreases |items|
  {
    if |items| > 0 && f(items[0]).Ok? {
      MapItemsAgree(maxLen, f, g, items[1..], out + [f(items[0]).value]);
    }
  }

  lemma {:induction false} GeneratorsAgree(p: Prims, e: Expr, j: nat, out: seq<Value>, a: Env, b: Env)
    requires e.Comprehension? && j <= |e.generators|
    requires AgreeOn(a, b, CollectGenerators(e, j))
    requires e.where_.Some? ==> AgreeOn(a, b, CollectRefs(e.where_.value))
    requires AgreeOn(a, b, CollectRefs(e.yield_))
    ensures EvalGenerators(p, e, j, out, a) == EvalGenerators(p, e, j, out, b)
    decreases e, 1, 2 * (|e.generators| - j) + 1, 0
  {
    if j < |e.generators| {
      EvalAgrees(p, e.generators[j].1, a, b);
      var xs := Eval(p, e.generators[j].1, a);
      if xs.Ok? && xs.value.List? { ItemsAgree(p, e, j, xs.value.items, out, a, b); }
    } else {
      if e.where_.Some? { EvalAgrees(p, e.where_.value, a, b); }
      EvalAgrees(p, e.yield_, a, b);
    }
  }

  lemma {:induction false} ItemsAgree(p: Prims, e: Expr, j: nat, items: seq<Value>, out: seq<Value>, a: Env, b: Env)
    requires e.Comprehension? && j < |e.generators|
    requires AgreeOn(a, b, CollectGenerators(e, j + 1))
    requires e.where_.Some? ==> AgreeOn(a, b, CollectRefs(e.where_.value))
    requires AgreeOn(a, b, CollectRefs(e.yield_))
    ensures EvalItems(p, e, j, items, out, a) == EvalItems(p, e, j, items, out, b)
    decreases e, 1, 2 * (|e.generators| - j), |items|
  {
    if |items| > 0 {
      var a', b' := Bind(a, e.generators[j].0, items[0]), Bind(b, e.generators[j].0, items[0]);
      GeneratorsAgree(p, e, j + 1, out, a', b');
      var out' := EvalGenerators(p, e, j + 1, out, a');
      if out'.Ok? { ItemsAgree(p, e, j, items[1..], out'.value, a, b); }
    }
  }

  // ----- the graph -----

  /** Everything a rule or proposal can reach. */
  datatype Reach = Reach(inputs: set<string>, rules: set<string>)

  datatype Graph = Graph(rules: map<string, Reach>, proposals: map<string, Reach>)

  /** The inputs behind a set of `let`/input references. */
  function InputsOf(refs: set<string>, inputNames: set<string>, letInputs: map<string, set<string>>): set<string> {
    (set r | r in refs && r in inputNames)
    + (set r, i | r in refs && r !in inputNames && r in letInputs && i in letInputs[r] :: i)
  }

  /** The transitive inputs of the first `i` lets. */
  function LetInputs(plan: Plan, i: nat): map<string, set<string>>
    requires i <= |plan.lets|
  {
    if i == 0 then map[]
    else
      var before := LetInputs(plan, i - 1);
      before[plan.lets[i - 1].0 := InputsOf(CollectRefs(plan.lets[i - 1].1).lets, InputNames(plan), before)]
  }

  function ReachOf(refs: Refs, inputNames: set<string>, letInputs: map<string, set<string>>,
                   declared: seq<string>, rulesSoFar: map<string, Reach>): Reach
  {
    var direct := refs.rules + (set d | d in declared);
    Reach(InputsOf(refs.lets, inputNames, letInputs)
          + (set d, i | d in direct && d in rulesSoFar && i in rulesSoFar[d].inputs :: i),
          direct + (set d, r | d in direct && d in rulesSoFar && r in rulesSoFar[d].rules :: r))
  }

  /** The reach of each of the first `i` rules. */
  function RuleReaches(plan: Plan, i: nat): map<string, Reach>
    requires i <= |plan.rules|
    decreases i, 0
  {
    if i == 0 then map[]
    else
      RuleReaches(plan, i - 1)[plan.rules[i - 1].name := RuleReach(plan, i - 1)]
  }

  /** What rule `i` reaches through the rules before it. */
  function RuleReach(plan: Plan, i: nat): Reach
    requires i < |plan.rules|
    decreases i, 1
  {
    ReachOf(CollectRefs(plan.rules[i].body), InputNames(plan), LetInputs(plan, |plan.lets|), plan.rules[i].dependsOn,
            RuleReaches(plan, i))
  }

  function ProposalReach(plan: Plan, q: Proposal): Reach {
    ReachOf(Union(CollectRefs(q.guard), CollectRefs(q.value)), InputNames(plan), LetInputs(plan, |plan.lets|),
            q.deps, RuleReaches(plan, |plan.rules|))
  }

  function ProposalReaches(plan: Plan, i: nat): map<string, Reach>
    requires i <= |plan.proposals|
  {
    if i == 0 then map[]
    else ProposalReaches(plan, i - 1)[plan.proposals[i - 1].name := ProposalReach(plan, plan.proposals[i - 1])]
  }

  function BuildGraph(plan: Plan): Graph {
    Graph(RuleReaches(plan, |plan.rules|), ProposalReaches(plan, |plan.proposals|))
  }

  // ----- non-interference -----

  /** Top-level names are unique, as lowering makes sure: no `let` takes the name
      of an input, no two rules share one. */
  predicate NamesDistinct(plan: Plan) {
    && (forall i :: 0 <= i < |plan.lets| ==> plan.lets[i].0 !in plan.inputs)
    && (forall i, j :: 0 <= i < j < |plan.rules| ==> plan.rules[i].name != plan.rules[j].name)
  }

  /** The runs bind exactly the declared inputs. */
  predicate Binds(plan: Plan, inputs: map<string, Value>) {
    inputs.Keys == InputNames(plan)
  }

  ghost predicate SameOn(a: map<string, Value>, b: map<string, Value>, names: set<string>) {
    forall n :: n in names ==> Lookup(a, n) == Lookup(b, n)
  }

  /** A `let` has the same value in both environments when the inputs behind it do. */
  ghost predicate LetsTrack(plan: Plan, i: nat, a: Env, b: Env)
    requires i <= |plan.lets|
  {
    && a.lets.Keys == b.lets.Keys == LetInputs(plan, i).Keys
    && forall n :: n in a.lets && SameOn(a.inputs, b.inputs, LetInputs(plan, i)[n]) ==> a.lets[n] == b.lets[n]
  }

  /** References whose inputs agree mean the same. */
  lemma RefsTrack(plan: Plan, i: nat, a: Env, b: Env, refs: set<string>)
    requires i <= |plan.lets| && NamesDistinct(plan) && Binds(plan, a.inputs) && Binds(plan, b.inputs)
    requires LetsTrack(plan, i, a, b) && (forall n :: n in a.lets ==> n !in plan.inputs)
    requires SameOn(a.inputs, b.inputs, InputsOf(refs, InputNames(plan), LetInputs(plan, i)))
    ensures forall n :: n in refs ==> Global(a, n) == Global(b, n)
  {
    var reached := InputsOf(refs, InputNames(plan), LetInputs(plan, i));
    forall n | n in refs ensures Global(a, n) == Global(b, n) {
      if n in a.lets {
        assert forall x :: x in LetInputs(plan, i)[n] ==> x in reached;
      } else if n in plan.inputs {
        assert n in reached;
        assert Lookup(a.inputs, n) == Lookup(b.inputs, n);
      }
    }
  }

  lemma {:induction false} LetsNonInterference(p: Prims, plan: Plan, i: nat, in1: map<string, Value>, in2: map<string, Value>)
    requires i <= |plan.lets| && NamesDistinct(plan) && Binds(plan, in1) && Binds(plan, in2)
    requires RunLets(p, plan, i, in1).Ok? && RunLets(p, plan, i, in2).Ok?
    ensures var a, b := RunLets(p, plan, i, in1).value, RunLets(p, plan, i, in2).value;
            && a.inputs == in1 && b.inputs == in2 && a.facts == b.facts == map[] && a.locals == b.locals == map[]
            && LetsTrack(plan, i, a, b)
            && forall n :: n in a.lets ==> n !in plan.inputs
  {
    if i > 0 {
      LetsNonInterference(p, plan, i - 1, in1, in2);
      var a, b := RunLets(p, plan, i - 1, in1).value, RunLets(p, plan, i - 1, in2).value;
      var (name, e) := plan.lets[i - 1];
      var reached := InputsOf(CollectRefs(e).lets, InputNames(plan), LetInputs(plan, i - 1));
      if SameOn(in1, in2, reached) {
        RefsTrack(plan, i - 1, a, b, CollectRefs(e).lets);
        EvalAgrees(p, e, a, b);
      }
      assert LetInputs(plan, i)[name] == reached;
    }
  }

  /** Facts are the same when the inputs their rules reach are. */
  ghost predicate FactsTrack(fa: map<string, Value>, fb: map<string, Value>, reaches: map<string, Reach>,
                             in1: map<string, Value>, in2: map<string, Value>)
  {
    && fa.Keys == fb.Keys == reaches.Keys
    && forall n :: n in fa && SameOn(in1, in2, reaches[n].inputs) ==> fa[n] == fb[n]
  }

  lemma ExtendFacts(fa: map<string, Value>, fb: map<string, Value>, reaches: map<string, Reach>,
                    in1: map<string, Value>, in2: map<string, Value>, name: string, reach: Reach, va: Value, vb: Value)
    requires FactsTrack(fa, fb, reaches, in1, in2)
    requires SameOn(in1, in2, reach.inputs) ==> va == vb
    ensures FactsTrack(fa[name := va], fb[name := vb], reaches[name := reach], in1, in2)
  {
  }

  /** What holds of both environments after the lets and `i` rules. */
  ghost predicate Tracks(plan: Plan, i: nat, a: Env, b: Env)
    requires i <= |plan.rules|
  {
    && Binds(plan, a.inputs) && Binds(plan, b.inputs)
    && a.locals == b.locals == map[]
    && LetsTrack(plan, |plan.lets|, a, b)
    && (forall n :: n in a.lets ==> n !in plan.inputs)
    && FactsTrack(a.facts, b.facts, RuleReaches(plan, i), a.inputs, b.inputs)
  }

  function ReachAt(plan: Plan, i: nat, refs: Refs, declared: seq<string>): Reach
    requires i <= |plan.rules|
  {
    ReachOf(refs, InputNames(plan), LetInputs(plan, |plan.lets|), declared, RuleReaches(plan, i))
  }

  /** A body whose reach agrees evaluates the same, whatever it evaluates to. */
  lemma BodyTracks(p: Prims, plan: Plan, i: nat, a: Env, b: Env, e: Expr, refs: Refs, declared: seq<string>)
    requires i <= |plan.rules| && NamesDistinct(plan) && Tracks(plan, i, a, b)
    requires CollectRefs(e).lets <= refs.lets && CollectRefs(e).rules <= refs.rules
    requires SameOn(a.inputs, b.inputs, ReachAt(plan, i, refs, declared).inputs)
    ensures Eval(p, e, a) == Eval(p, e, b)
  {
    var reach := ReachAt(plan, i, refs, declared);
    RefsTrack(plan, |plan.lets|, a, b, refs.lets);
    forall n | n in refs.rules ensures Lookup(a.facts, n) == Lookup(b.facts, n) {
      if n in a.facts {
        assert forall x :: x in RuleReaches(plan, i)[n].inputs ==> x in reach.inputs;
      }
    }
    EvalAgrees(p, e, a, b);
  }

  /** One more rule: its value tracks its reach, so the extended facts do. */
  lemma RuleTracks(p: Prims, plan: Plan, i: nat, a: Env, b: Env)
    requires i < |plan.rules| && NamesDistinct(plan) && Tracks(plan, i, a, b)
    requires Eval(p, plan.rules[i].body, a).Ok? && Eval(p, plan.rules[i].body, b).Ok?
    ensures var name, va, vb := plan.rules[i].name, Eval(p, plan.rules[i].body, a).value, Eval(p, plan.rules[i].body, b).value;
            Tracks(plan, i + 1, a.(facts := a.facts[name := va]), b.(facts := b.facts[name := vb]))
  {
    var rule := plan.rules[i];
    if SameOn(a.inputs, b.inputs, RuleReach(plan, i).inputs) {
      BodyTracks(p, plan, i, a, b, rule.body, CollectRefs(rule.body), rule.dependsOn);
    }
    ExtendFacts(a.facts, b.facts, RuleReaches(plan, i), a.inputs, b.inputs, rule.name, RuleReach(plan, i),
                Eval(p, rule.body, a).value, Eval(p, rule.body, b).value);
  }

  lemma {:induction false} RulesNonInterference(p: Prims, plan: Plan, i: nat, in1: map<string, Value>, in2: map<string, Value>)
    requires i <= |plan.rules| && NamesDistinct(plan) && Binds(plan, in1) && Binds(plan, in2)
    requires RunRules(p, plan, i, in1).Ok? && RunRules(p, plan, i, in1).value.1
    requires RunRules(p, plan, i, in2).Ok? && RunRules(p, plan, i, in2).value.1
    ensures var a, b := RunRules(p, plan, i, in1).value.0, RunRules(p, plan, i, in2).value.0;
            a.inputs == in1 && b.inputs == in2 && Tracks(plan, i, a, b)
  {
    if i == 0 {
      LetsNonInterference(p, plan, |plan.lets|, in1, in2);
    } else {
      RulesNonInterference(p, plan, i - 1, in1, in2);
      var a, b := RunRules(p, plan, i - 1, in1).value.0, RunRules(p, plan, i - 1, in2).value.0;
      RuleTracks(p, plan, i - 1, a, b);
    }
  }

  /** Facts after a run that stopped early are those of the rules that ran. */
  lemma {:induction false} FactsPrefix(p: Prims, plan: Plan, i: nat, inputs: map<string, Value>) returns (j: nat)
    requires i <= |plan.rules| && RunRules(p, plan, i, inputs).Ok?
    ensures j <= i && RunRules(p, plan, j, inputs).Ok? && RunRules(p, plan, j, inputs).value.1
    ensures RunRules(p, plan, j, inputs).value.0 == RunRules(p, plan, i, inputs).value.0
    ensures RunRules(p, plan, i, inputs).value.1 ==> j == i
    ensures !RunRules(p, plan, i, inputs).value.1 ==> j < i && Eval(p, plan.rules[j].body, RunRules(p, plan, j, inputs).value.0).Err?
  {
    if i == 0 || RunRules(p, plan, i, inputs).value.1 {
      j := i;
    } else {
      j := FactsPrefix(p, plan, i - 1, inputs);
    }
  }

  predicate NamedBefore(plan: Plan, j: nat, n: string)
    requires j <= |plan.rules|
  {
    exists x :: 0 <= x < j && plan.rules[x].name == n
  }

  lemma NamedBeforeStep(plan: Plan, j: nat, n: string)
    requires 0 < j <= |plan.rules|
    ensures NamedBefore(plan, j, n) <==> NamedBefore(plan, j - 1, n) || plan.rules[j - 1].name == n
  {
  }

  lemma {:induction false} FactsNamed(p: Prims, plan: Plan, j: nat, inputs: map<string, Value>, n: string)
    requires j <= |plan.rules| && RunRules(p, plan, j, inputs).Ok? && RunRules(p, plan, j, inputs).value.1
    requires n in RunRules(p, plan, j, inputs).value.0.facts
    ensures NamedBefore(plan, j, n)
    decreases j
  {
    if j == 0 {
      LetsKeepFacts(p, plan, |plan.lets|, inputs);
    } else {
      NamedBeforeStep(plan, j, n);
      if n != plan.rules[j - 1].name { FactsNamed(p, plan, j - 1, inputs, n); }
    }
  }

  lemma {:induction false} LetsKeepFacts(p: Prims, plan: Plan, i: nat, inputs: map<string, Value>)
    requires i <= |plan.lets| && RunLets(p, plan, i, inputs).Ok?
    ensures RunLets(p, plan, i, inputs).value.facts == map[]
  {
    if i > 0 { LetsKeepFacts(p, plan, i - 1, inputs); }
  }

  /** Later rules leave earlier facts and reaches alone. */
  lemma {:induction false} RulesGrow(p: Prims, plan: Plan, j: nat, i: nat, inputs: map<string, Value>)
    requires j <= i <= |plan.rules| && NamesDistinct(plan)
    requires RunRules(p, plan, i, inputs).Ok? && RunRules(p, plan, i, inputs).value.1
    ensures RunRules(p, plan, j, inputs).Ok? && RunRules(p, plan, j, inputs).value.1
    ensures var f, f' := RunRules(p, plan, j, inputs).value.0.facts, RunRules(p, plan, i, inputs).value.0.facts;
            forall n :: n in f ==> n in f' && f'[n] == f[n]
    decreases i
  {
    if j < i {
      RulesGrow(p, plan, j, i - 1, inputs);
      forall n | n in RunRules(p, plan, j, inputs).value.0.facts ensures n != plan.rules[i - 1].name {
        FactsNamed(p, plan, j, inputs, n);
      }
    }
  }

  lemma {:induction false} ReachesGrow(plan: Plan, j: nat, i: nat, n: string)
    requires j <= i <= |plan.rules| && NamesDistinct(plan) && n in RuleReaches(plan, j) && NamedBefore(plan, j, n)
    ensures n in RuleReaches(plan, i) && RuleReaches(plan, i)[n] == RuleReaches(plan, j)[n]
    decreases i
  {
    if j < i { ReachesGrow(plan, j, i - 1, n); }
  }

  /** Non-interference: a fact both runs derive is the same fact whenever the two
      snapshots agree on the inputs its rule reaches, wherever either run stopped. */
  lemma FactNonInterference(p: Prims, plan: Plan, in1: map<string, Value>, in2: map<string, Value>, r: string)
    requires NamesDistinct(plan) && Binds(plan, in1) && Binds(plan, in2)
    requires r in Facts(p, plan, in1) && r in Facts(p, plan, in2)
    ensures r in BuildGraph(plan).rules
    ensures SameOn(in1, in2, BuildGraph(plan).rules[r].inputs) ==> Facts(p, plan, in1)[r] == Facts(p, plan, in2)[r]
  {
    var j1 := FactsPrefix(p, plan, |plan.rules|, in1);
    var j2 := FactsPrefix(p, plan, |plan.rules|, in2);
    var j := if j1 <= j2 then j1 else j2;
    RulesGrow(p, plan, j, j1, in1);
    RulesGrow(p, plan, j, j2, in2);
    RulesNonInterference(p, plan, j, in1, in2);
    FactsNamed(p, plan, j, if j == j1 then in1 else in2, r);
    ReachesGrow(plan, j, |plan.rules|, r);
  }

  /** The same for a proposal's guard and value, when both runs derive every rule. */
  lemma ProposalNonInterference(p: Prims, plan: Plan, in1: map<string, Value>, in2: map<string, Value>, q: Proposal)
    requires NamesDistinct(plan) && Binds(plan, in1) && Binds(plan, in2)
    requires RunRules(p, plan, |plan.rules|, in1).Ok? && RunRules(p, plan, |plan.rules|, in1).value.1
    requires RunRules(p, plan, |plan.rules|, in2).Ok? && RunRules(p, plan, |plan.rules|, in2).value.1
    requires SameOn(in1, in2, ProposalReach(plan, q).inputs)
    ensures var a, b := RunRules(p, plan, |plan.rules|, in1).value.0, RunRules(p, plan, |plan.rules|, in2).value.0;
            Eval(p, q.guard, a) == Eval(p, q.guard, b) && Eval(p, q.value, a) == Eval(p, q.value, b)
  {
    RulesNonInterference(p, plan, |plan.rules|, in1, in2);
    var a, b := RunRules(p, plan, |plan.rules|, in1).value.0, RunRules(p, plan, |plan.rules|, in2).value.0;
    var refs := Union(CollectRefs(q.guard), CollectRefs(q.value));
    BodyTracks(p, plan, |plan.rules|, a, b, q.guard, refs, q.deps);
    BodyTracks(p, plan, |plan.rules|, a, b, q.value, refs, q.deps);
  }

  /** Unique names are needed: a `let` that shadows an input hides what it reads. */
  lemma ShadowedInputInterferes(p: Prims, v: Value, w: Value)
    requires v != w
    ensures var plan := ShadowingPlan();
            var in1, in2 := map["a" := v, "x" := v], map["a" := w, "x" := v];
            && Binds(plan, in1) && Binds(plan, in2)
            && BuildGraph(plan).rules == map["r" := Reach({"x"}, {})] && SameOn(in1, in2, {"x"})
            && Facts(p, plan, in1) == map["r" := v] && Facts(p, plan, in2) == map["r" := w]
  {
    var plan := ShadowingPlan();
    ShadowedFact(p, map["a" := v, "x" := v]);
    ShadowedFact(p, map["a" := w, "x" := v]);
    assert RuleReaches(plan, 0) == map[];
    assert InputsOf({"x"}, InputNames(plan), LetInputs(plan, 1)) == {"x"};
    assert RuleReach(plan, 0) == Reach({"x"}, {});
    assert RuleReaches(plan, 1) == map["r" := Reach({"x"}, {})];
  }

  function ShadowingPlan(): Plan {
    Plan(["a", "x"], [("x", LetRef("a"))], [Rule("r", LetRef("x"), [])], [])
  }

  lemma ShadowedFact(p: Prims, inputs: map<string, Value>)
    requires "a" in inputs
    ensures Facts(p, ShadowingPlan(), inputs) == map["r" := inputs["a"]]
  {
    var plan := ShadowingPlan();
    var env := Env(inputs, map["x" := inputs["a"]], map[], map[]);
    assert RunLets(p, plan, 0, inputs) == Ok(Env(inputs, map[], map[], map[]));
    assert RunLets(p, plan, 1, inputs) == Ok(env);
    assert RunRules(p, plan, 0, inputs) == Ok((env, true));
    assert Eval(p, plan.rules[0].body, env) == Ok(inputs["a"]);
  }
}
