/** What a run of a plan is, said without the loop that runs it, and that there is
    just one and its facts are the facts. */
module PlanRuns {
  import opened Options
  import opened DecisionPlan

  /** The first of these names with these values, a later one of a name winning. */
  function Named(names: seq<string>, values: seq<Value>): map<string, Value>
    requires |values| <= |names|
    decreases |values|
  {
    if |values| == 0 then map[]
    else
      var n := |values| - 1;
      Named(names, values[..n])[names[n] := values[n]]
  }

  lemma NamedStep(names: seq<string>, values: seq<Value>, v: Value)
    requires |values| < |names|
    ensures Named(names, values + [v]) == Named(names, values)[names[|values|] := v]
  {
    assert (values + [v])[..|values|] == values;
  }

  function LetNames(plan: Plan): seq<string> {
    seq(|plan.lets|, i requires 0 <= i < |plan.lets| => plan.lets[i].0)
  }

  function RuleNames(plan: Plan): seq<string> {
    seq(|plan.rules|, i requires 0 <= i < |plan.rules| => plan.rules[i].name)
  }

  /** What can be read when these lets and rules have their values. */
  function Reading(plan: Plan, inputs: map<string, Value>, lets: seq<Value>, facts: seq<Value>): Env
    requires |lets| <= |plan.lets| && |facts| <= |plan.rules|
  {
    Env(inputs, Named(LetNames(plan), lets), Named(RuleNames(plan), facts), map[])
  }

  /** How expressions are evaluated. */
  type Evaluator = (Expr, Env) -> Result<Value>

  function EvaluatorOf(p: Prims): Evaluator {
    (e, env) => Eval(p, e, env)
  }

  /** The value of the next `let` or rule, if there is one. */
  function NextLet(eval: Evaluator, plan: Plan, inputs: map<string, Value>, lets: seq<Value>): Result<Value> {
    if |lets| < |plan.lets| then eval(plan.lets[|lets|].1, Reading(plan, inputs, lets, [])) else Err(OperandShape)
  }

  function NextFact(eval: Evaluator, plan: Plan, inputs: map<string, Value>, lets: seq<Value>, facts: seq<Value>): Result<Value>
    requires |lets| <= |plan.lets|
  {
    if |facts| < |plan.rules| then eval(plan.rules[|facts|].body, Reading(plan, inputs, lets, facts)) else Err(OperandShape)
  }

  /** Each `let` has the value of its expression where those before it have theirs. */
  ghost predicate LetsAre(eval: Evaluator, plan: Plan, inputs: map<string, Value>, lets: seq<Value>) {
    && |lets| <= |plan.lets|
    && forall i :: 0 <= i < |lets| ==> NextLet(eval, plan, inputs, lets[..i]) == Ok(lets[i])
  }

  ghost predicate FactsAre(eval: Evaluator, plan: Plan, inputs: map<string, Value>, lets: seq<Value>, facts: seq<Value>) {
    && |lets| == |plan.lets| && |facts| <= |plan.rules|
    && forall j :: 0 <= j < |facts| ==> NextFact(eval, plan, inputs, lets, facts[..j]) == Ok(facts[j])
  }

  /** A run: the lets and then the rules have their values, up to the first that has
      none. */
  ghost predicate IsRunOf(eval: Evaluator, plan: Plan, inputs: map<string, Value>, lets: seq<Value>, facts: seq<Value>) {
    && LetsAre(eval, plan, inputs, lets)
    && NextLet(eval, plan, inputs, lets).Err?
    && if |lets| < |plan.lets| then facts == []
       else FactsAre(eval, plan, inputs, lets, facts) && NextFact(eval, plan, inputs, lets, facts).Err?
  }

  // ----- there is just one -----

  /** Two sequences in which each value follows from those before agree. */
  lemma {:induction false} ChainsAgree(next: seq<Value> -> Result<Value>, a: seq<Value>, b: seq<Value>, i: nat)
    requires i <= |a| && i <= |b|
    requires forall j :: 0 <= j < |a| ==> next(a[..j]) == Ok(a[j])
    requires forall j :: 0 <= j < |b| ==> next(b[..j]) == Ok(b[j])
    ensures a[..i] == b[..i]
  {
    if i > 0 {
      ChainsAgree(next, a, b, i - 1);
      assert next(a[..i - 1]) == Ok(a[i - 1]) && next(b[..i - 1]) == Ok(b[i - 1]);
      assert a[..i] == a[..i - 1] + [a[i - 1]] && b[..i] == b[..i - 1] + [b[i - 1]];
    }
  }

  lemma LetsAgree(eval: Evaluator, plan: Plan, inputs: map<string, Value>, lets: seq<Value>, lets': seq<Value>, i: nat)
    requires LetsAre(eval, plan, inputs, lets) && LetsAre(eval, plan, inputs, lets') && i <= |lets| && i <= |lets'|
    ensures lets[..i] == lets'[..i]
  {
    ChainsAgree(prefix => NextLet(eval, plan, inputs, prefix), lets, lets', i);
  }

  lemma FactsAgree(eval: Evaluator, plan: Plan, inputs: map<string, Value>, lets: seq<Value>, facts: seq<Value>, facts': seq<Value>, i: nat)
    requires FactsAre(eval, plan, inputs, lets, facts) && FactsAre(eval, plan, inputs, lets, facts')
    requires i <= |facts| && i <= |facts'|
    ensures facts[..i] == facts'[..i]
  {
    ChainsAgree(prefix => NextFact(eval, plan, inputs, lets, prefix), facts, facts', i);
  }

  lemma RunUnique(eval: Evaluator, plan: Plan, inputs: map<string, Value>, lets: seq<Value>, facts: seq<Value>,
                  lets': seq<Value>, facts': seq<Value>)
    requires IsRunOf(eval, plan, inputs, lets, facts) && IsRunOf(eval, plan, inputs, lets', facts')
    ensures lets == lets' && facts == facts'
  {
    LetsAgree(eval, plan, inputs, lets, lets', if |lets| < |lets'| then |lets| else |lets'|);
    assert lets[..|lets|] == lets && lets'[..|lets'|] == lets';
    if |lets| == |plan.lets| {
      FactsAgree(eval, plan, inputs, lets, facts, facts', if |facts| < |facts'| then |facts| else |facts'|);
      assert facts[..|facts|] == facts && facts'[..|facts'|] == facts';
    }
  }

  // ----- and the loop performs it -----

  lemma LetsExtend(eval: Evaluator, plan: Plan, inputs: map<string, Value>, lets: seq<Value>, v: Value)
    requires LetsAre(eval, plan, inputs, lets) && NextLet(eval, plan, inputs, lets) == Ok(v)
    ensures LetsAre(eval, plan, inputs, lets + [v])
    ensures var r := Reading(plan, inputs, lets, []);
            Reading(plan, inputs, lets + [v], []) == r.(lets := r.lets[plan.lets[|lets|].0 := v])
  {
    NamedStep(LetNames(plan), lets, v);
    assert (lets + [v])[..|lets|] == lets && forall j :: 0 <= j < |lets| ==> (lets + [v])[..j] == lets[..j];
  }

  lemma FactsExtend(eval: Evaluator, plan: Plan, inputs: map<string, Value>, lets: seq<Value>, facts: seq<Value>, v: Value)
    requires FactsAre(eval, plan, inputs, lets, facts) && NextFact(eval, plan, inputs, lets, facts) == Ok(v)
    ensures FactsAre(eval, plan, inputs, lets, facts + [v])
    ensures var r := Reading(plan, inputs, lets, facts);
            Reading(plan, inputs, lets, facts + [v]) == r.(facts := r.facts[plan.rules[|facts|].name := v])
  {
    NamedStep(RuleNames(plan), facts, v);
    assert (facts + [v])[..|facts|] == facts && forall j :: 0 <= j < |facts| ==> (facts + [v])[..j] == facts[..j];
  }

  lemma RunLetsStep(p: Prims, plan: Plan, lets: seq<Value>, inputs: map<string, Value>, v: Result<Value>)
    requires |lets| < |plan.lets| && RunLets(p, plan, |lets|, inputs) == Ok(Reading(plan, inputs, lets, []))
    requires v == NextLet(EvaluatorOf(p), plan, inputs, lets)
    ensures var env := Reading(plan, inputs, lets, []);
            if v.Ok? then RunLets(p, plan, |lets| + 1, inputs) == Ok(env.(lets := env.lets[plan.lets[|lets|].0 := v.value]))
            else RunLets(p, plan, |lets| + 1, inputs).Err?
  {
  }

  lemma RunRulesStep(p: Prims, plan: Plan, lets: seq<Value>, facts: seq<Value>, inputs: map<string, Value>, v: Result<Value>)
    requires |lets| == |plan.lets| && |facts| < |plan.rules|
    requires RunRules(p, plan, |facts|, inputs) == Ok((Reading(plan, inputs, lets, facts), true))
    requires v == NextFact(EvaluatorOf(p), plan, inputs, lets, facts)
    ensures var env := Reading(plan, inputs, lets, facts);
            RunRules(p, plan, |facts| + 1, inputs) ==
            if v.Ok? then Ok((env.(facts := env.facts[plan.rules[|facts|].name := v.value]), true)) else Ok((env, false))
  {
  }

  /** The loop over the first `i` lets has these values behind it. */
  ghost predicate LetsDone(p: Prims, eval: Evaluator, plan: Plan, i: nat, inputs: map<string, Value>, lets: seq<Value>)
    requires i <= |plan.lets|
  {
    && |lets| <= i && LetsAre(eval, plan, inputs, lets)
    && (if |lets| == i then RunLets(p, plan, i, inputs) == Ok(Reading(plan, inputs, lets, []))
        else RunLets(p, plan, i, inputs).Err? && NextLet(eval, plan, inputs, lets).Err?)
  }

  lemma LetsDoneStep(p: Prims, plan: Plan, inputs: map<string, Value>, lets: seq<Value>) returns (more: seq<Value>)
    requires |lets| < |plan.lets| && LetsDone(p, EvaluatorOf(p), plan, |lets|, inputs, lets)
    ensures LetsDone(p, EvaluatorOf(p), plan, |lets| + 1, inputs, more)
  {
    var v := NextLet(EvaluatorOf(p), plan, inputs, lets);
    RunLetsStep(p, plan, lets, inputs, v);
    if v.Ok? {
      LetsExtend(EvaluatorOf(p), plan, inputs, lets, v.value);
      more := lets + [v.value];
    } else {
      more := lets;
    }
  }

  lemma {:induction false} LetsRun(p: Prims, plan: Plan, i: nat, inputs: map<string, Value>) returns (lets: seq<Value>)
    requires i <= |plan.lets|
    ensures LetsDone(p, EvaluatorOf(p), plan, i, inputs, lets)
  {
    lets := [];
    if i > 0 {
      lets := LetsRun(p, plan, i - 1, inputs);
      if |lets| == i - 1 { lets := LetsDoneStep(p, plan, inputs, lets); }
    }
  }

  ghost predicate RulesDone(p: Prims, eval: Evaluator, plan: Plan, i: nat, inputs: map<string, Value>, lets: seq<Value>, facts: seq<Value>)
    requires i <= |plan.rules| && |lets| == |plan.lets|
  {
    && |facts| <= i && FactsAre(eval, plan, inputs, lets, facts)
    && RunRules(p, plan, i, inputs) == Ok((Reading(plan, inputs, lets, facts), |facts| == i))
    && (|facts| < i ==> NextFact(eval, plan, inputs, lets, facts).Err?)
  }

  lemma RulesDoneStep(p: Prims, plan: Plan, inputs: map<string, Value>, lets: seq<Value>, facts: seq<Value>) returns (more: seq<Value>)
    requires |lets| == |plan.lets| && |facts| < |plan.rules|
    requires RulesDone(p, EvaluatorOf(p), plan, |facts|, inputs, lets, facts)
    ensures RulesDone(p, EvaluatorOf(p), plan, |facts| + 1, inputs, lets, more)
  {
    var v := NextFact(EvaluatorOf(p), plan, inputs, lets, facts);
    RunRulesStep(p, plan, lets, facts, inputs, v);
    if v.Ok? {
      FactsExtend(EvaluatorOf(p), plan, inputs, lets, facts, v.value);
      more := facts + [v.value];
    } else {
      more := facts;
    }
  }

  lemma {:induction false} RulesRun(p: Prims, plan: Plan, i: nat, inputs: map<string, Value>, lets: seq<Value>) returns (facts: seq<Value>)
    requires i <= |plan.rules| && |lets| == |plan.lets|
    requires RunLets(p, plan, |plan.lets|, inputs) == Ok(Reading(plan, inputs, lets, []))
    ensures RulesDone(p, EvaluatorOf(p), plan, i, inputs, lets, facts)
  {
    facts := [];
    if i > 0 {
      facts := RulesRun(p, plan, i - 1, inputs, lets);
      if |facts| == i - 1 { facts := RulesDoneStep(p, plan, inputs, lets, facts); }
    }
  }

  lemma {:induction false} RulesNeedLets(p: Prims, plan: Plan, i: nat, inputs: map<string, Value>)
    requires i <= |plan.rules| && RunLets(p, plan, |plan.lets|, inputs).Err?
    ensures RunRules(p, plan, i, inputs).Err?
  {
    if i > 0 { RulesNeedLets(p, plan, i - 1, inputs); }
  }

  /** There is just one run, and the facts are those of its rules by their names. */
  lemma FactsExact(p: Prims, plan: Plan, inputs: map<string, Value>) returns (lets: seq<Value>, facts: seq<Value>)
    ensures IsRunOf(EvaluatorOf(p), plan, inputs, lets, facts)
    ensures forall ls, fs :: IsRunOf(EvaluatorOf(p), plan, inputs, ls, fs) ==> ls == lets && fs == facts
    ensures Facts(p, plan, inputs) == Named(RuleNames(plan), facts)
  {
    lets := LetsRun(p, plan, |plan.lets|, inputs);
    facts := [];
    if |lets| == |plan.lets| {
      facts := RulesRun(p, plan, |plan.rules|, inputs, lets);
    } else {
      RulesNeedLets(p, plan, |plan.rules|, inputs);
    }
    forall ls, fs | IsRunOf(EvaluatorOf(p), plan, inputs, ls, fs) ensures ls == lets && fs == facts {
      RunUnique(EvaluatorOf(p), plan, inputs, ls, fs, lets, facts);
    }
  }
}
