/** `kb diff` between two revisions: which inputs and facts changed, and why. The
    builder of the dependency graph and the diff are loops over mutable sets and
    maps, proved against the functions of DepGraph and the comparison below. */
module KbDiff {
  import opened Options
  import opened DecisionPlan
  import opened DepGraph
  import opened DepPaths
  import opened PlanRuns

  // ----- building the graph -----

  class RefCollector {
    var lets: set<string>
    var rules: set<string>

    constructor ()
      ensures lets == {} && rules == {}
    {
      lets, rules := {}, {};
    }

    /** Insert every reference the expression mentions. */
    method Collect(e: Expr)
      modifies this
      ensures lets == old(lets) + CollectRefs(e).lets
      ensures rules == old(rules) + CollectRefs(e).rules
      decreases e, 2
    {
      if IsBinary(e) {
        CollectBinary(e);
      } else if IsUnary(e) {
        CollectUnary(e);
      } else if IsLoop(e) {
        CollectLoop(e);
      } else {
        CollectOther(e);
      }
    }

    method CollectBinary(e: Expr)
      requires IsBinary(e)
      modifies this
      ensures lets == old(lets) + CollectRefs(e).lets
      ensures rules == old(rules) + CollectRefs(e).rules
      decreases e, 1
    {
      Collect(e.lhs);
      Collect(e.rhs);
    }

    method CollectUnary(e: Expr)
      requires IsUnary(e)
      modifies this
      ensures lets == old(lets) + CollectRefs(e).lets
      ensures rules == old(rules) + CollectRefs(e).rules
      decreases e, 1
    {
      Collect(e.arg);
    }

    method CollectLoop(e: Expr)
      requires IsLoop(e)
      modifies this
      ensures lets == old(lets) + CollectRefs(e).lets
      ensures rules == old(rules) + CollectRefs(e).rules
      decreases e, 1
    {
      if e.Comprehension? {
        CollectComprehension(e);
      } else {
        CollectListBody(e);
      }
    }

    method CollectListBody(e: Expr)
      requires e.Fold? || e.Filter? || e.MapExpr?
      modifies this
      ensures lets == old(lets) + CollectRefs(e).lets
      ensures rules == old(rules) + CollectRefs(e).rules
      decreases e, 0
    {
      Collect(e.list);
      Collect(e.body);
    }

    method CollectComprehension(e: Expr)
      requires e.Comprehension?
      modifies this
      ensures lets == old(lets) + CollectRefs(e).lets
      ensures rules == old(rules) + CollectRefs(e).rules
      decreases e, 0, 1
    {
      CollectSources(e);
      if e.where_.Some? { Collect(e.where_.value); }
      Collect(e.yield_);
    }

    method CollectOther(e: Expr)
      requires !IsBinary(e) && !IsUnary(e) && !IsLoop(e)
      modifies this
      ensures lets == old(lets) + CollectRefs(e).lets
      ensures rules == old(rules) + CollectRefs(e).rules
      decreases e, 1
    {
      match e
      case LetRef(name) => lets := lets + {name};
      case RuleFact(rule) => rules := rules + {rule};
      case CtorExpr(_, _, args) => CollectSeq(args);
      case RecordExpr(_, _) => CollectRecord(e);
      case Field(base, _) => Collect(base);
      case Match(scrutinee, _) => Collect(scrutinee); CollectMatchArms(e);
      case Call(_, args) => CollectSeq(args);
      case NumericBuiltin(_, args) => CollectSeq(args);
      case ListLit(items) => CollectSeq(items);
      case _ =>
    }

    method CollectSeq(es: seq<Expr>)
      modifies this
      ensures lets == old(lets) + CollectAll(es).lets
      ensures rules == old(rules) + CollectAll(es).rules
      decreases es, 2
    {
      var i := 0;
      assert es[0..] == es;
      while i < |es|
        invariant i <= |es|
        invariant lets + CollectAll(es[i..]).lets == old(lets) + CollectAll(es).lets
        invariant rules + CollectAll(es[i..]).rules == old(rules) + CollectAll(es).rules
      {
        assert es[i..][0] == es[i] && es[i..][1..] == es[i + 1..];
        Collect(es[i]);
        i := i + 1;
      }
    }

    method CollectRecord(e: Expr)
      requires e.RecordExpr?
      modifies this
      ensures lets == old(lets) + CollectFields(e, 0).lets
      ensures rules == old(rules) + CollectFields(e, 0).rules
      decreases e, 0
    {
      var i := 0;
      while i < |e.fields|
        invariant i <= |e.fields|
        invariant lets + CollectFields(e, i).lets == old(lets) + CollectFields(e, 0).lets
        invariant rules + CollectFields(e, i).rules == old(rules) + CollectFields(e, 0).rules
      {
        Collect(e.fields[i].1);
        i := i + 1;
      }
    }

    method CollectMatchArms(e: Expr)
      requires e.Match?
      modifies this
      ensures lets == old(lets) + CollectArms(e, 0).lets
      ensures rules == old(rules) + CollectArms(e, 0).rules
      decreases e, 0
    {
      var i := 0;
      while i < |e.arms|
        invariant i <= |e.arms|
        invariant lets + CollectArms(e, i).lets == old(lets) + CollectArms(e, 0).lets
        invariant rules + CollectArms(e, i).rules == old(rules) + CollectArms(e, 0).rules
      {
        Collect(e.arms[i].1);
        i := i + 1;
      }
    }

    method CollectSources(e: Expr)
      requires e.Comprehension?
      modifies this
      ensures lets == old(lets) + CollectGenerators(e, 0).lets
      ensures rules == old(rules) + CollectGenerators(e, 0).rules
      decreases e, 0, 0
    {
      var i := 0;
      while i < |e.generators|
        invariant i <= |e.generators|
        invariant lets + CollectGenerators(e, i).lets == old(lets) + CollectGenerators(e, 0).lets
        invariant rules + CollectGenerators(e, i).rules == old(rules) + CollectGenerators(e, 0).rules
      {
        Collect(e.generators[i].1);
        i := i + 1;
      }
    }
  }

  /** The inputs one reference stands for. */
  function InputsBehind(r: string, inputNames: set<string>, letInputs: map<string, set<string>>): set<string> {
    if r in inputNames then {r} else if r in letInputs then letInputs[r] else {}
  }

  lemma InputsOfAdd(refs: set<string>, r: string, inputNames: set<string>, letInputs: map<string, set<string>>)
    ensures InputsOf(refs + {r}, inputNames, letInputs) == InputsOf(refs, inputNames, letInputs) + InputsBehind(r, inputNames, letInputs)
  {
  }

  /** Walk the references, expanding each `let` to the inputs behind it. */
  method ExpandInputs(refs: set<string>, inputNames: set<string>, letInputs: map<string, set<string>>) returns (inputs: set<string>)
    ensures inputs == InputsOf(refs, inputNames, letInputs)
  {
    inputs := {};
    var todo := refs;
    ghost var seen: set<string> := {};
    while todo != {}
      invariant seen + todo == refs
      invariant inputs == InputsOf(seen, inputNames, letInputs)
      decreases |todo|
    {
      var r :| r in todo;
      InputsOfAdd(seen, r, inputNames, letInputs);
      inputs := inputs + InputsBehind(r, inputNames, letInputs);
      todo := todo - {r};
      seen := seen + {r};
    }
    assert seen == refs;
  }

  function InputsVia(direct: set<string>, rulesSoFar: map<string, Reach>): set<string> {
    set d, i | d in direct && d in rulesSoFar && i in rulesSoFar[d].inputs :: i
  }

  function RulesVia(direct: set<string>, rulesSoFar: map<string, Reach>): set<string> {
    set d, r | d in direct && d in rulesSoFar && r in rulesSoFar[d].rules :: r
  }

  lemma ViaAdd(direct: set<string>, d: string, rulesSoFar: map<string, Reach>)
    ensures InputsVia(direct + {d}, rulesSoFar) ==
            InputsVia(direct, rulesSoFar) + (if d in rulesSoFar then rulesSoFar[d].inputs else {})
    ensures RulesVia(direct + {d}, rulesSoFar) ==
            RulesVia(direct, rulesSoFar) + (if d in rulesSoFar then rulesSoFar[d].rules else {})
  {
  }

  method CombineReach(refs: Refs, inputNames: set<string>, letInputs: map<string, set<string>>,
                      declared: seq<string>, rulesSoFar: map<string, Reach>) returns (reach: Reach)
    ensures reach == ReachOf(refs, inputNames, letInputs, declared, rulesSoFar)
  {
    var fromLets := ExpandInputs(refs.lets, inputNames, letInputs);
    var direct := refs.rules + (set d | d in declared);
    var inputs, rules := FollowRules(direct, rulesSoFar);
    reach := Reach(fromLets + inputs, direct + rules);
  }

  method FollowRules(direct: set<string>, rulesSoFar: map<string, Reach>) returns (inputs: set<string>, rules: set<string>)
    ensures inputs == InputsVia(direct, rulesSoFar) && rules == RulesVia(direct, rulesSoFar)
  {
    inputs, rules := {}, {};
    var todo := direct;
    ghost var seen: set<string> := {};
    while todo != {}
      invariant seen + todo == direct
      invariant inputs == InputsVia(seen, rulesSoFar) && rules == RulesVia(seen, rulesSoFar)
      decreases |todo|
    {
      var dep :| dep in todo;
      ViaAdd(seen, dep, rulesSoFar);
      if dep in rulesSoFar {
        inputs := inputs + rulesSoFar[dep].inputs;
        rules := rules + rulesSoFar[dep].rules;
      }
      todo := todo - {dep};
      seen := seen + {dep};
    }
    assert seen == direct;
  }

  lemma LetInputsStep(plan: Plan, i: nat, refs: set<string>)
    requires i < |plan.lets| && refs == CollectRefs(plan.lets[i].1).lets
    ensures LetInputs(plan, i + 1) ==
            LetInputs(plan, i)[plan.lets[i].0 := InputsOf(refs, InputNames(plan), LetInputs(plan, i))]
  {
  }

  method BuildLetInputs(plan: Plan) returns (letInputs: map<string, set<string>>)
    ensures letInputs == LetInputs(plan, |plan.lets|)
  {
    letInputs := map[];
    var i := 0;
    while i < |plan.lets|
      invariant i <= |plan.lets| && letInputs == LetInputs(plan, i)
    {
      var c := new RefCollector();
      c.Collect(plan.lets[i].1);
      var inputs := ExpandInputs(c.lets, InputNames(plan), letInputs);
      LetInputsStep(plan, i, c.lets);
      letInputs := letInputs[plan.lets[i].0 := inputs];
      i := i + 1;
    }
  }

  method BuildRuleReaches(plan: Plan, letInputs: map<string, set<string>>) returns (rules: map<string, Reach>)
    requires letInputs == LetInputs(plan, |plan.lets|)
    ensures rules == RuleReaches(plan, |plan.rules|)
  {
    rules := map[];
    var i := 0;
    while i < |plan.rules|
      invariant i <= |plan.rules| && rules == RuleReaches(plan, i)
    {
      var c := new RefCollector();
      c.Collect(plan.rules[i].body);
      var refs := Refs(c.lets, c.rules);
      assert refs == CollectRefs(plan.rules[i].body);
      var reach := CombineReach(refs, InputNames(plan), letInputs, plan.rules[i].dependsOn, rules);
      assert reach == RuleReach(plan, i);
      rules := rules[plan.rules[i].name := reach];
      i := i + 1;
    }
  }

  method BuildDepGraph(plan: Plan) returns (g: Graph)
    ensures g == BuildGraph(plan)
  {
    var letInputs := BuildLetInputs(plan);
    var rules := BuildRuleReaches(plan, letInputs);
    var proposals := BuildProposalReaches(plan, letInputs, rules);
    g := Graph(rules, proposals);
  }

  lemma ProposalReachesStep(plan: Plan, i: nat)
    requires i < |plan.proposals|
    ensures ProposalReaches(plan, i + 1) == ProposalReaches(plan, i)[plan.proposals[i].name := ProposalReach(plan, plan.proposals[i])]
  {
  }

  method BuildProposalReaches(plan: Plan, letInputs: map<string, set<string>>, rules: map<string, Reach>)
    returns (proposals: map<string, Reach>)
    requires letInputs == LetInputs(plan, |plan.lets|) && rules == RuleReaches(plan, |plan.rules|)
    ensures proposals == ProposalReaches(plan, |plan.proposals|)
  {
    proposals := map[];
    var i := 0;
    while i < |plan.proposals|
      invariant i <= |plan.proposals| && proposals == ProposalReaches(plan, i)
    {
      var reach := BuildProposalReach(plan, plan.proposals[i], letInputs, rules);
      ProposalReachesStep(plan, i);
      proposals := proposals[plan.proposals[i].name := reach];
      i := i + 1;
    }
  }

  method BuildProposalReach(plan: Plan, q: Proposal, letInputs: map<string, set<string>>, rules: map<string, Reach>)
    returns (reach: Reach)
    requires letInputs == LetInputs(plan, |plan.lets|) && rules == RuleReaches(plan, |plan.rules|)
    ensures reach == ProposalReach(plan, q)
  {
    var c := new RefCollector();
    c.Collect(q.guard);
    c.Collect(q.value);
    var refs := Refs(c.lets, c.rules);
    assert refs == Union(CollectRefs(q.guard), CollectRefs(q.value));
    reach := CombineReach(refs, InputNames(plan), letInputs, q.deps, rules);
  }

  // ----- the diff -----

  /** A stored input value and the evaluator value it denotes. */
  type InputValue(==, !new)

  datatype Replayer = Replayer(prims: Prims, toValue: InputValue -> Value)

  /** The facts of one revision: none when a declared input has no value, since
      nothing ran. */
  function RevisionFacts(rp: Replayer, plan: Plan, snapshot: map<string, InputValue>): map<string, Value> {
    if InputNames(plan) <= snapshot.Keys then
      Facts(rp.prims, plan, map n | n in InputNames(plan) :: rp.toValue(snapshot[n]))
    else map[]
  }

  /** The facts of a revision are those of the one run over the values set for the
      declared inputs, if all are set. */
  lemma RevisionFactsExact(rp: Replayer, plan: Plan, snapshot: map<string, InputValue>)
    returns (inputs: map<string, Value>, lets: seq<Value>, facts: seq<Value>)
    ensures !(InputNames(plan) <= snapshot.Keys) ==> RevisionFacts(rp, plan, snapshot) == map[]
    ensures InputNames(plan) <= snapshot.Keys ==>
              && inputs.Keys == InputNames(plan) && (forall n :: n in inputs ==> inputs[n] == rp.toValue(snapshot[n]))
              && IsRunOf(EvaluatorOf(rp.prims), plan, inputs, lets, facts)
              && RevisionFacts(rp, plan, snapshot) == Named(RuleNames(plan), facts)
  {
    inputs := map n | n in InputNames(plan) && n in snapshot :: rp.toValue(snapshot[n]);
    lets, facts := FactsExact(rp.prims, plan, inputs);
    if InputNames(plan) <= snapshot.Keys {
      assert inputs == map n | n in InputNames(plan) :: rp.toValue(snapshot[n]);
    }
  }

  predicate InputChanged(a: map<string, InputValue>, b: map<string, InputValue>, n: string) {
    Lookup(a, n) != Lookup(b, n)
  }

  function ChangedInputs(a: map<string, InputValue>, b: map<string, InputValue>): set<string> {
    set n | n in a.Keys + b.Keys && InputChanged(a, b, n)
  }

  datatype FactChange = FactChange(before: Value, after: Value, whyInputs: set<string>, whyRules: set<string>)

  datatype FactDiff = FactDiff(changed: map<string, FactChange>, same: set<string>, added: set<string>, removed: set<string>)

  function ChangedFacts(fa: map<string, Value>, fb: map<string, Value>): set<string> {
    set n | n in fa && n in fb && fa[n] != fb[n]
  }

  function ReachIn(g: Graph, name: string): Reach {
    if name in g.rules then g.rules[name] else Reach({}, {})
  }

  function CompareFacts(fa: map<string, Value>, fb: map<string, Value>, g: Graph, changedInputs: set<string>): FactDiff {
    FactDiff((map n | n in ChangedFacts(fa, fb) :: Explain(fa, fb, g, changedInputs, n)),
             (set n | n in fa && n in fb && fa[n] == fb[n]),
             fb.Keys - fa.Keys,
             fa.Keys - fb.Keys)
  }

  function Diff(rp: Replayer, planA: Plan, a: map<string, InputValue>, planB: Plan, b: map<string, InputValue>): FactDiff {
    CompareFacts(RevisionFacts(rp, planA, a), RevisionFacts(rp, planB, b), BuildGraph(planB), ChangedInputs(a, b))
  }

  method CollectChangedInputs(a: map<string, InputValue>, b: map<string, InputValue>) returns (changed: set<string>)
    ensures changed == ChangedInputs(a, b)
  {
    changed := {};
    var names := a.Keys + b.Keys;
    var todo := names;
    while todo != {}
      invariant todo <= names
      invariant forall n :: n in changed <==> n in names && n !in todo && InputChanged(a, b, n)
      decreases |todo|
    {
      var n :| n in todo;
      if n in a && n in b {
        if a[n] != b[n] { changed := changed + {n}; }
      } else {
        changed := changed + {n};
      }
      todo := todo - {n};
    }
  }

  /** Sort every fact name into changed, same, added and removed. */
  method SortFacts(fa: map<string, Value>, fb: map<string, Value>)
    returns (changed: set<string>, same: set<string>, added: set<string>, removed: set<string>)
    ensures changed == ChangedFacts(fa, fb)
    ensures same == set n | n in fa && n in fb && fa[n] == fb[n]
    ensures added == fb.Keys - fa.Keys && removed == fa.Keys - fb.Keys
  {
    var names := fa.Keys + fb.Keys;
    var todo := names;
    changed, same, added, removed := {}, {}, {}, {};
    while todo != {}
      invariant todo <= names
      invariant forall n :: n in changed <==> n in fa && n in fb && fa[n] != fb[n] && n !in todo
      invariant forall n :: n in same <==> n in fa && n in fb && fa[n] == fb[n] && n !in todo
      invariant forall n :: n in added <==> n in fb && n !in fa && n !in todo
      invariant forall n :: n in removed <==> n in fa && n !in fb && n !in todo
      decreases |todo|
    {
      var n :| n in todo;
      if n in fa && n in fb {
        if fa[n] == fb[n] { same := same + {n}; } else { changed := changed + {n}; }
      } else if n in fa {
        removed := removed + {n};
      } else {
        added := added + {n};
      }
      todo := todo - {n};
    }
  }

  function Explain(fa: map<string, Value>, fb: map<string, Value>, g: Graph, changedInputs: set<string>, n: string): FactChange
    requires n in fa && n in fb
  {
    FactChange(fa[n], fb[n], ReachIn(g, n).inputs * changedInputs, ReachIn(g, n).rules * ChangedFacts(fa, fb))
  }

  /** The diff of two revisions, said of their facts: a fact both derive is the same
      or changed, from the old value to the new; the rest were added or removed. */
  ghost predicate TellsFacts(d: FactDiff, fa: map<string, Value>, fb: map<string, Value>) {
    forall n ::
      && (n in d.changed <==> n in fa && n in fb && fa[n] != fb[n])
      && (n in d.changed ==> d.changed[n].before == fa[n] && d.changed[n].after == fb[n])
      && (n in d.same <==> n in fa && n in fb && fa[n] == fb[n])
      && (n in d.added <==> n !in fa && n in fb)
      && (n in d.removed <==> n in fa && n !in fb)
  }

  method DiffFacts(fa: map<string, Value>, fb: map<string, Value>, g: Graph, changedInputs: set<string>) returns (d: FactDiff)
    ensures d == CompareFacts(fa, fb, g, changedInputs) && TellsFacts(d, fa, fb)
  {
    var raw, same, added, removed := SortFacts(fa, fb);
    var changed: map<string, FactChange> := map[];
    var todo := raw;
    while todo != {}
      invariant todo <= raw
      invariant changed.Keys == raw - todo
      invariant forall n :: n in changed ==> changed[n] == Explain(fa, fb, g, changedInputs, n)
      decreases |todo|
    {
      var n :| n in todo;
      var reach := ReachIn(g, n);
      changed := changed[n := FactChange(fa[n], fb[n], reach.inputs * changedInputs, reach.rules * raw)];
      todo := todo - {n};
    }
    d := FactDiff(changed, same, added, removed);
  }

  /** A changed fact is explained by exactly the changed inputs and the changed
      facts to which paths of references lead from its rule in the new program. */
  ghost predicate TellsWhy(d: FactDiff, plan: Plan, a: map<string, InputValue>, b: map<string, InputValue>) {
    forall n, x :: n in d.changed ==>
      && (x in d.changed[n].whyInputs <==> InputChanged(a, b, x) && NamedReachesInput(plan, n, x))
      && (x in d.changed[n].whyRules <==> x in d.changed && NamedReachesRule(plan, n, x))
  }

  lemma DiffExact(rp: Replayer, planA: Plan, a: map<string, InputValue>, planB: Plan, b: map<string, InputValue>)
    ensures TellsFacts(Diff(rp, planA, a, planB, b), RevisionFacts(rp, planA, a), RevisionFacts(rp, planB, b))
    ensures TellsWhy(Diff(rp, planA, a, planB, b), planB, a, b)
  {
    var d := Diff(rp, planA, a, planB, b);
    forall n, x | n in d.changed
      ensures x in d.changed[n].whyInputs <==> InputChanged(a, b, x) && NamedReachesInput(planB, n, x)
      ensures x in d.changed[n].whyRules <==> x in d.changed && NamedReachesRule(planB, n, x)
    {
      GraphExact(planB, n, x);
      ChangedIsNamed(a, b, x);
    }
  }

  /** Only a name that has a value somewhere can have changed. */
  lemma ChangedIsNamed(a: map<string, InputValue>, b: map<string, InputValue>, n: string)
    ensures n in ChangedInputs(a, b) <==> InputChanged(a, b, n)
  {
  }

  method DiffRevisions(rp: Replayer, planA: Plan, a: map<string, InputValue>, planB: Plan, b: map<string, InputValue>) returns (d: FactDiff)
    ensures d == Diff(rp, planA, a, planB, b)
    ensures TellsFacts(d, RevisionFacts(rp, planA, a), RevisionFacts(rp, planB, b))
    ensures TellsWhy(d, planB, a, b)
  {
    var changedInputs := CollectChangedInputs(a, b);
    var g := BuildDepGraph(planB);
    d := DiffFacts(RevisionFacts(rp, planA, a), RevisionFacts(rp, planB, b), g, changedInputs);
    DiffExact(rp, planA, a, planB, b);
  }

  /** Every fact that changed under the same program is explained: some input
      its rule reaches did change, and only inputs that changed are named. */
  lemma ChangedFactsAreExplained(rp: Replayer, plan: Plan, a: map<string, InputValue>, b: map<string, InputValue>, name: string)
    requires NamesDistinct(plan)
    requires name in Diff(rp, plan, a, plan, b).changed
    ensures Diff(rp, plan, a, plan, b).changed[name].whyInputs != {}
    ensures forall n :: n in Diff(rp, plan, a, plan, b).changed[name].whyInputs ==>
              InputChanged(a, b, n) && n in BuildGraph(plan).rules[name].inputs
  {
    var in1 := map n | n in InputNames(plan) :: rp.toValue(a[n]);
    var in2 := map n | n in InputNames(plan) :: rp.toValue(b[n]);
    FactNonInterference(rp.prims, plan, in1, in2, name);
    var inputs := BuildGraph(plan).rules[name].inputs;
    var n :| n in inputs && Lookup(in1, n) != Lookup(in2, n);
    assert n in InputNames(plan);
    assert InputChanged(a, b, n);
    assert n in Diff(rp, plan, a, plan, b).changed[name].whyInputs;
  }

  /** With no input changed there is nothing to explain: the diff is empty. */
  lemma NoInputChangeNoFactChange(rp: Replayer, plan: Plan, a: map<string, InputValue>, b: map<string, InputValue>)
    requires NamesDistinct(plan) && ChangedInputs(a, b) == {}
    ensures var d := Diff(rp, plan, a, plan, b); d.changed == map[] && d.added == {} && d.removed == {}
  {
    forall n ensures Lookup(a, n) == Lookup(b, n) {
      if n in a.Keys + b.Keys { assert n !in ChangedInputs(a, b); }
    }
    assert a.Keys == b.Keys by {
      forall n ensures n in a <==> n in b { assert Lookup(a, n) == Lookup(b, n); }
    }
    forall n | n in a ensures a[n] == b[n] { assert Lookup(a, n) == Lookup(b, n); }
    assert a == b;
  }
}
