/** What the dependency graph holds, exactly: a name is reached if and only if a
    path of references leads to it. */
module DepPaths {
  import opened Options
  import opened DecisionPlan
  import opened DepGraph

  // ----- subexpressions -----

  function SecondsOf<T>(pairs: seq<(T, Expr)>): (r: seq<Expr>)
    ensures |r| == |pairs| && forall i :: 0 <= i < |r| ==> r[i] == pairs[i].1
  {
    seq(|pairs|, i requires 0 <= i < |pairs| => pairs[i].1)
  }

  /** The expressions `e` is built from. */
  function Children(e: Expr): (r: seq<Expr>)
    ensures forall i :: 0 <= i < |r| ==> r[i] < e
  {
    match e
    case CtorExpr(_, _, args) => args
    case RecordExpr(_, fields) => SecondsOf(fields)
    case Field(base, _) => [base]
    case Arith(_, a, b) => [a, b]
    case Cmp(_, a, b) => [a, b]
    case IntDivMod(_, a, b) => [a, b]
    case Match(scrutinee, arms) => [scrutinee] + SecondsOf(arms)
    case Call(_, args) => args
    case NumericBuiltin(_, args) => args
    case And(a, b) => [a, b]
    case Or(a, b) => [a, b]
    case In(a, b) => [a, b]
    case Not(a) => [a]
    case Len(a) => [a]
    case Distinct(a) => [a]
    case Only(a) => [a]
    case Ascribe(a, _) => [a]
    case Validate(_, a) => [a]
    case Fold(_, list, _, body) => [list, body]
    case Filter(list, _, body) => [list, body]
    case MapExpr(list, _, body) => [list, body]
    case Comprehension(generators, w, y) => SecondsOf(generators) + (if w.Some? then [w.value] else []) + [y]
    case ListLit(items) => items
    case _ => []
  }

  /** `leaf` is somewhere in `e`. */
  ghost predicate Occurs(e: Expr, leaf: Expr)
    decreases e
  {
    e == leaf || exists i :: 0 <= i < |Children(e)| && Occurs(Children(e)[i], leaf)
  }

  /** References, to a `let` or an input and to a rule's fact. */
  predicate IsReference(leaf: Expr) {
    leaf.LetRef? || leaf.RuleFact?
  }

  predicate Has(r: Refs, leaf: Expr) {
    if leaf.LetRef? then leaf.name in r.lets else leaf.RuleFact? && leaf.rule in r.rules
  }

  ghost predicate SomeHas(es: seq<Expr>, leaf: Expr) {
    exists i :: 0 <= i < |es| && Has(CollectRefs(es[i]), leaf)
  }

  lemma SomeHasAppend(a: seq<Expr>, b: seq<Expr>, leaf: Expr)
    ensures SomeHas(a + b, leaf) <==> SomeHas(a, leaf) || SomeHas(b, leaf)
  {
    forall i | 0 <= i < |a| && Has(CollectRefs(a[i]), leaf) ensures SomeHas(a + b, leaf) { assert (a + b)[i] == a[i]; }
    forall i | 0 <= i < |b| && Has(CollectRefs(b[i]), leaf) ensures SomeHas(a + b, leaf) { assert (a + b)[|a| + i] == b[i]; }
  }

  lemma SomeHasFirst(es: seq<Expr>, leaf: Expr)
    requires es != []
    ensures SomeHas(es, leaf) <==> Has(CollectRefs(es[0]), leaf) || SomeHas(es[1..], leaf)
  {
    assert es == es[..1] + es[1..];
    SomeHasAppend(es[..1], es[1..], leaf);
    assert SomeHas(es[..1], leaf) <==> Has(CollectRefs(es[0]), leaf) by {
      assert es[..1][0] == es[0];
    }
  }

  lemma SomeHasOf(e: Expr, leaf: Expr)
    ensures SomeHas([e], leaf) <==> Has(CollectRefs(e), leaf)
  {
    assert [e][0] == e;
  }

  lemma SomeHasTwo(e: Expr, f: Expr, leaf: Expr)
    ensures SomeHas([e, f], leaf) <==> Has(CollectRefs(e), leaf) || Has(CollectRefs(f), leaf)
  {
    assert [e, f] == [e] + [f];
    SomeHasAppend([e], [f], leaf);
    SomeHasOf(e, leaf);
    SomeHasOf(f, leaf);
  }

  lemma HasUnion(a: Refs, b: Refs, leaf: Expr)
    ensures Has(Union(a, b), leaf) <==> Has(a, leaf) || Has(b, leaf)
    ensures !Has(NO_REFS, leaf)
  {
  }

  lemma {:induction false} AllHas(es: seq<Expr>, leaf: Expr)
    ensures Has(CollectAll(es), leaf) <==> SomeHas(es, leaf)
    decreases |es|
  {
    if |es| > 0 {
      AllHas(es[1..], leaf);
      SomeHasFirst(es, leaf);
    }
  }

  lemma {:induction false} FieldsHave(e: Expr, i: nat, leaf: Expr)
    requires e.RecordExpr? && i <= |e.fields|
    ensures Has(CollectFields(e, i), leaf) <==> SomeHas(SecondsOf(e.fields)[i..], leaf)
    decreases |e.fields| - i
  {
    if i < |e.fields| {
      FieldsHave(e, i + 1, leaf);
      SomeHasFirst(SecondsOf(e.fields)[i..], leaf);
      assert SecondsOf(e.fields)[i..][1..] == SecondsOf(e.fields)[i + 1..];
    }
  }

  lemma {:induction false} ArmsHave(e: Expr, i: nat, leaf: Expr)
    requires e.Match? && i <= |e.arms|
    ensures Has(CollectArms(e, i), leaf) <==> SomeHas(SecondsOf(e.arms)[i..], leaf)
    decreases |e.arms| - i
  {
    if i < |e.arms| {
      ArmsHave(e, i + 1, leaf);
      SomeHasFirst(SecondsOf(e.arms)[i..], leaf);
      assert SecondsOf(e.arms)[i..][1..] == SecondsOf(e.arms)[i + 1..];
    }
  }

  lemma {:induction false} SourcesHave(e: Expr, i: nat, leaf: Expr)
    requires e.Comprehension? && i <= |e.generators|
    ensures Has(CollectGenerators(e, i), leaf) <==> SomeHas(SecondsOf(e.generators)[i..], leaf)
    decreases |e.generators| - i
  {
    if i < |e.generators| {
      SourcesHave(e, i + 1, leaf);
      SomeHasFirst(SecondsOf(e.generators)[i..], leaf);
      assert SecondsOf(e.generators)[i..][1..] == SecondsOf(e.generators)[i + 1..];
    }
  }

  lemma ComprehensionHas(e: Expr, leaf: Expr)
    requires e.Comprehension?
    ensures Has(CollectRefs(e), leaf) <==> SomeHas(Children(e), leaf)
  {
    var sources := SecondsOf(e.generators);
    var w := if e.where_.Some? then [e.where_.value] else [];
    SourcesHave(e, 0, leaf);
    assert sources[0..] == sources;
    if e.where_.Some? { SomeHasOf(e.where_.value, leaf); }
    SomeHasOf(e.yield_, leaf);
    SomeHasAppend(sources, w, leaf);
    SomeHasAppend(sources + w, [e.yield_], leaf);
  }

  lemma BinaryChildrenHave(e: Expr, leaf: Expr)
    requires IsBinary(e)
    ensures Has(CollectRefs(e), leaf) <==> SomeHas(Children(e), leaf)
  {
    SomeHasTwo(e.lhs, e.rhs, leaf);
  }

  lemma UnaryChildrenHave(e: Expr, leaf: Expr)
    requires IsUnary(e)
    ensures Has(CollectRefs(e), leaf) <==> SomeHas(Children(e), leaf)
  {
    SomeHasOf(e.arg, leaf);
  }

  lemma LoopChildrenHave(e: Expr, leaf: Expr)
    requires IsLoop(e)
    ensures Has(CollectRefs(e), leaf) <==> SomeHas(Children(e), leaf)
  {
    if e.Comprehension? { ComprehensionHas(e, leaf); } else { SomeHasTwo(e.list, e.body, leaf); }
  }

  /** Collecting passes every reference of the parts on, and no other. */
  lemma ChildrenHave(e: Expr, leaf: Expr)
    requires IsReference(leaf) && !IsReference(e)
    ensures Has(CollectRefs(e), leaf) <==> SomeHas(Children(e), leaf)
  {
    if IsBinary(e) {
      BinaryChildrenHave(e, leaf);
    } else if IsUnary(e) {
      UnaryChildrenHave(e, leaf);
    } else if IsLoop(e) {
      LoopChildrenHave(e, leaf);
    } else {
      OtherChildrenHave(e, leaf);
    }
  }

  lemma OtherChildrenHave(e: Expr, leaf: Expr)
    requires IsReference(leaf) && !IsReference(e) && !IsBinary(e) && !IsUnary(e) && !IsLoop(e)
    ensures Has(CollectRefs(e), leaf) <==> SomeHas(Children(e), leaf)
  {
    match e
    case CtorExpr(_, _, args) => AllHas(args, leaf);
    case Call(_, args) => AllHas(args, leaf);
    case NumericBuiltin(_, args) => AllHas(args, leaf);
    case ListLit(items) => AllHas(items, leaf);
    case RecordExpr(_, fields) =>
      FieldsHave(e, 0, leaf);
      assert SecondsOf(fields)[0..] == SecondsOf(fields);
    case Match(scrutinee, arms) =>
      ArmsHave(e, 0, leaf);
      assert SecondsOf(arms)[0..] == SecondsOf(arms);
      SomeHasOf(scrutinee, leaf);
      SomeHasAppend([scrutinee], SecondsOf(arms), leaf);
    case Field(base, _) => SomeHasOf(base, leaf);
    case _ =>
  }

  /** A reference is collected if and only if it occurs. */
  lemma {:induction false} CollectedIsMentioned(e: Expr, leaf: Expr)
    requires IsReference(leaf)
    ensures Has(CollectRefs(e), leaf) <==> Occurs(e, leaf)
    decreases e
  {
    if IsReference(e) {
      assert Children(e) == [];
    } else {
      ChildrenHave(e, leaf);
      forall i | 0 <= i < |Children(e)| ensures Has(CollectRefs(Children(e)[i]), leaf) <==> Occurs(Children(e)[i], leaf) {
        CollectedIsMentioned(Children(e)[i], leaf);
      }
    }
  }

  // ----- paths through the lets -----

  /** Where references are made from: the expressions of a rule or a proposal, the
      rules it declares, and how many rules come before it. */
  datatype Site = Site(exprs: seq<Expr>, declared: seq<string>, before: nat)

  ghost predicate Mentions(exprs: seq<Expr>, leaf: Expr) {
    exists i :: 0 <= i < |exprs| && Occurs(exprs[i], leaf)
  }

  predicate LatestLet(plan: Plan, i: nat, k: nat, name: string) {
    k < i <= |plan.lets| && plan.lets[k].0 == name && forall j :: k < j < i ==> plan.lets[j].0 != name
  }

  /** References through the lets `path` lead from these expressions, which may
      refer to the first `i` lets, to the input `n`. An input hides a `let`. */
  ghost predicate LeadsToInput(plan: Plan, exprs: seq<Expr>, i: nat, path: seq<nat>, n: string)
    decreases |path|
  {
    if path == [] then n in InputNames(plan) && Mentions(exprs, LetRef(n))
    else
      var k := path[0];
      && k < i <= |plan.lets| && LatestLet(plan, i, k, plan.lets[k].0) && plan.lets[k].0 !in InputNames(plan)
      && Mentions(exprs, LetRef(plan.lets[k].0))
      && LeadsToInput(plan, [plan.lets[k].1], k, path[1..], n)
  }

  /** What a `let` stands for is kept by name, the latest of a name winning. */
  lemma {:induction false} LetInputsAt(plan: Plan, i: nat, name: string) returns (k: nat)
    requires i <= |plan.lets| && name in LetInputs(plan, i)
    ensures LatestLet(plan, i, k, name)
    ensures LetInputs(plan, i)[name] == InputsOf(CollectRefs(plan.lets[k].1).lets, InputNames(plan), LetInputs(plan, k))
    decreases i
  {
    if plan.lets[i - 1].0 == name { k := i - 1; } else { k := LetInputsAt(plan, i - 1, name); }
  }

  lemma {:induction false} LatestLetIsKept(plan: Plan, i: nat, k: nat, name: string)
    requires LatestLet(plan, i, k, name)
    ensures name in LetInputs(plan, i)
    ensures LetInputs(plan, i)[name] == InputsOf(CollectRefs(plan.lets[k].1).lets, InputNames(plan), LetInputs(plan, k))
    decreases i
  {
    if k < i - 1 { LatestLetIsKept(plan, i - 1, k, name); }
  }

  /** `refs` are the names of lets and inputs these expressions mention. */
  ghost predicate Collected(exprs: seq<Expr>, refs: set<string>) {
    forall n :: n in refs <==> Mentions(exprs, LetRef(n))
  }

  lemma CollectedOne(e: Expr)
    ensures Collected([e], CollectRefs(e).lets)
  {
    forall n ensures n in CollectRefs(e).lets <==> Mentions([e], LetRef(n)) {
      CollectedIsMentioned(e, LetRef(n));
      assert [e][0] == e;
    }
  }

  lemma {:induction false} InputHasPath(plan: Plan, exprs: seq<Expr>, refs: set<string>, i: nat, n: string) returns (path: seq<nat>)
    requires i <= |plan.lets| && Collected(exprs, refs)
    requires n in InputsOf(refs, InputNames(plan), LetInputs(plan, i))
    ensures LeadsToInput(plan, exprs, i, path, n)
    decreases i
  {
    if n in refs && n in InputNames(plan) {
      path := [];
    } else {
      var r :| r in refs && r !in InputNames(plan) && r in LetInputs(plan, i) && n in LetInputs(plan, i)[r];
      var k := LetInputsAt(plan, i, r);
      CollectedOne(plan.lets[k].1);
      var rest := InputHasPath(plan, [plan.lets[k].1], CollectRefs(plan.lets[k].1).lets, k, n);
      path := [k] + rest;
      assert path[1..] == rest;
    }
  }

  lemma {:induction false} PathReachesInput(plan: Plan, exprs: seq<Expr>, refs: set<string>, i: nat, path: seq<nat>, n: string)
    requires i <= |plan.lets| && Collected(exprs, refs) && LeadsToInput(plan, exprs, i, path, n)
    ensures n in InputsOf(refs, InputNames(plan), LetInputs(plan, i))
    decreases |path|
  {
    if path != [] {
      var k := path[0];
      var name := plan.lets[k].0;
      CollectedOne(plan.lets[k].1);
      PathReachesInput(plan, [plan.lets[k].1], CollectRefs(plan.lets[k].1).lets, k, path[1..], n);
      LatestLetIsKept(plan, i, k, name);
      assert name in refs;
    }
  }

  // ----- paths through the rules -----

  function RuleSite(plan: Plan, i: nat): Site
    requires i < |plan.rules|
  {
    Site([plan.rules[i].body], plan.rules[i].dependsOn, i)
  }

  function ProposalSite(plan: Plan, q: Proposal): Site {
    Site([q.guard, q.value], q.deps, |plan.rules|)
  }

  /** The site reads the fact of this rule or declares that it depends on it. */
  ghost predicate RefersTo(site: Site, rule: string) {
    Mentions(site.exprs, RuleFact(rule)) || rule in site.declared
  }

  predicate LatestRule(plan: Plan, i: nat, j: nat, name: string) {
    j < i <= |plan.rules| && plan.rules[j].name == name && forall k :: j < k < i ==> plan.rules[k].name != name
  }

  /** Each rule of `path` is one the site before refers to. */
  ghost predicate Path(plan: Plan, site: Site, path: seq<nat>)
    decreases |path|
  {
    path != [] ==>
      && path[0] < |plan.rules| && LatestRule(plan, site.before, path[0], plan.rules[path[0]].name)
      && RefersTo(site, plan.rules[path[0]].name)
      && Path(plan, RuleSite(plan, path[0]), path[1..])
  }

  ghost function EndOf(plan: Plan, site: Site, path: seq<nat>): Site
    requires Path(plan, site, path)
    decreases |path|
  {
    if path == [] then site else EndOf(plan, RuleSite(plan, path[0]), path[1..])
  }

  /** A path of references ends at a site that refers to the rule. */
  ghost predicate RuleAlong(plan: Plan, site: Site, path: seq<nat>, rule: string) {
    Path(plan, site, path) && RefersTo(EndOf(plan, site, path), rule)
  }

  /** A path of references ends at a site whose expressions lead to the input. */
  ghost predicate InputAlong(plan: Plan, site: Site, path: seq<nat>, lets: seq<nat>, n: string) {
    Path(plan, site, path) && LeadsToInput(plan, EndOf(plan, site, path).exprs, |plan.lets|, lets, n)
  }

  ghost predicate ReachesRule(plan: Plan, site: Site, rule: string) {
    exists path :: RuleAlong(plan, site, path, rule)
  }

  ghost predicate ReachesInput(plan: Plan, site: Site, n: string) {
    exists path, lets :: InputAlong(plan, site, path, lets, n)
  }

  /** The collected references of a site. */
  ghost predicate RefsOf(site: Site, refs: Refs) {
    Collected(site.exprs, refs.lets) && forall r :: r in refs.rules <==> Mentions(site.exprs, RuleFact(r))
  }

  lemma {:induction false} RuleReachesAt(plan: Plan, i: nat, name: string) returns (j: nat)
    requires i <= |plan.rules| && name in RuleReaches(plan, i)
    ensures LatestRule(plan, i, j, name) && RuleReaches(plan, i)[name] == RuleReach(plan, j)
    decreases i
  {
    if plan.rules[i - 1].name == name { j := i - 1; } else { j := RuleReachesAt(plan, i - 1, name); }
  }

  lemma {:induction false} LatestRuleIsKept(plan: Plan, i: nat, j: nat, name: string)
    requires LatestRule(plan, i, j, name)
    ensures name in RuleReaches(plan, i) && RuleReaches(plan, i)[name] == RuleReach(plan, j)
    decreases i
  {
    if j < i - 1 { LatestRuleIsKept(plan, i - 1, j, name); }
  }

  lemma RuleRefs(plan: Plan, j: nat)
    requires j < |plan.rules|
    ensures RefsOf(RuleSite(plan, j), CollectRefs(plan.rules[j].body))
  {
    var e := plan.rules[j].body;
    CollectedOne(e);
    forall r ensures r in CollectRefs(e).rules <==> Mentions([e], RuleFact(r)) {
      CollectedIsMentioned(e, RuleFact(r));
      assert [e][0] == e;
    }
  }

  lemma ProposalRefs(plan: Plan, q: Proposal)
    ensures RefsOf(ProposalSite(plan, q), Union(CollectRefs(q.guard), CollectRefs(q.value)))
  {
    forall leaf | IsReference(leaf)
      ensures Has(Union(CollectRefs(q.guard), CollectRefs(q.value)), leaf) <==> Mentions([q.guard, q.value], leaf)
    {
      CollectedIsMentioned(q.guard, leaf);
      CollectedIsMentioned(q.value, leaf);
      assert [q.guard, q.value][0] == q.guard && [q.guard, q.value][1] == q.value;
    }
    forall n ensures n in Union(CollectRefs(q.guard), CollectRefs(q.value)).lets <==> Mentions([q.guard, q.value], LetRef(n)) {
      assert IsReference(LetRef(n));
    }
    forall r ensures r in Union(CollectRefs(q.guard), CollectRefs(q.value)).rules <==> Mentions([q.guard, q.value], RuleFact(r)) {
      assert IsReference(RuleFact(r));
    }
  }

  /** One more reference at the front. */
  lemma Longer(plan: Plan, site: Site, j: nat, path: seq<nat>)
    requires j < |plan.rules| && LatestRule(plan, site.before, j, plan.rules[j].name) && RefersTo(site, plan.rules[j].name)
    requires Path(plan, RuleSite(plan, j), path)
    ensures Path(plan, site, [j] + path) && EndOf(plan, site, [j] + path) == EndOf(plan, RuleSite(plan, j), path)
  {
    assert ([j] + path)[1..] == path;
  }

  lemma {:induction false} RuleHasPath(plan: Plan, site: Site, refs: Refs, rule: string) returns (path: seq<nat>)
    requires site.before <= |plan.rules| && RefsOf(site, refs)
    requires rule in ReachAt(plan, site.before, refs, site.declared).rules
    ensures RuleAlong(plan, site, path, rule)
    decreases site.before
  {
    var direct := refs.rules + (set d | d in site.declared);
    if rule in direct {
      path := [];
    } else {
      var d :| d in direct && d in RuleReaches(plan, site.before) && rule in RuleReaches(plan, site.before)[d].rules;
      var j := RuleReachesAt(plan, site.before, d);
      RuleRefs(plan, j);
      var rest := RuleHasPath(plan, RuleSite(plan, j), CollectRefs(plan.rules[j].body), rule);
      Longer(plan, site, j, rest);
      path := [j] + rest;
    }
  }

  lemma {:induction false} PathReachesRule(plan: Plan, site: Site, refs: Refs, path: seq<nat>, rule: string)
    requires site.before <= |plan.rules| && RefsOf(site, refs) && RuleAlong(plan, site, path, rule)
    ensures rule in ReachAt(plan, site.before, refs, site.declared).rules
    decreases |path|
  {
    if path != [] {
      var j := path[0];
      var d := plan.rules[j].name;
      RuleRefs(plan, j);
      PathReachesRule(plan, RuleSite(plan, j), CollectRefs(plan.rules[j].body), path[1..], rule);
      LatestRuleIsKept(plan, site.before, j, d);
      assert d in refs.rules + (set d | d in site.declared);
    }
  }

  lemma {:induction false} InputHasRulePath(plan: Plan, site: Site, refs: Refs, n: string) returns (path: seq<nat>, lets: seq<nat>)
    requires site.before <= |plan.rules| && RefsOf(site, refs)
    requires n in ReachAt(plan, site.before, refs, site.declared).inputs
    ensures InputAlong(plan, site, path, lets, n)
    decreases site.before
  {
    if n in InputsOf(refs.lets, InputNames(plan), LetInputs(plan, |plan.lets|)) {
      path := [];
      lets := InputHasPath(plan, site.exprs, refs.lets, |plan.lets|, n);
    } else {
      var direct := refs.rules + (set d | d in site.declared);
      var d :| d in direct && d in RuleReaches(plan, site.before) && n in RuleReaches(plan, site.before)[d].inputs;
      var j := RuleReachesAt(plan, site.before, d);
      RuleRefs(plan, j);
      var rest, last := InputHasRulePath(plan, RuleSite(plan, j), CollectRefs(plan.rules[j].body), n);
      Longer(plan, site, j, rest);
      path, lets := [j] + rest, last;
    }
  }

  lemma {:induction false} RulePathReachesInput(plan: Plan, site: Site, refs: Refs, path: seq<nat>, lets: seq<nat>, n: string)
    requires site.before <= |plan.rules| && RefsOf(site, refs) && InputAlong(plan, site, path, lets, n)
    ensures n in ReachAt(plan, site.before, refs, site.declared).inputs
    decreases |path|
  {
    if path == [] {
      PathReachesInput(plan, site.exprs, refs.lets, |plan.lets|, lets, n);
    } else {
      var j := path[0];
      var d := plan.rules[j].name;
      RuleRefs(plan, j);
      RulePathReachesInput(plan, RuleSite(plan, j), CollectRefs(plan.rules[j].body), path[1..], lets, n);
      LatestRuleIsKept(plan, site.before, j, d);
      assert d in refs.rules + (set d | d in site.declared);
    }
  }

  /** What a site reaches is what paths of references lead to: rules through rules,
      inputs through rules and then lets. */
  lemma ReachExact(plan: Plan, site: Site, refs: Refs, name: string)
    requires site.before <= |plan.rules| && RefsOf(site, refs)
    ensures name in ReachAt(plan, site.before, refs, site.declared).rules <==> ReachesRule(plan, site, name)
    ensures name in ReachAt(plan, site.before, refs, site.declared).inputs <==> ReachesInput(plan, site, name)
  {
    var reach := ReachAt(plan, site.before, refs, site.declared);
    if name in reach.rules { var path := RuleHasPath(plan, site, refs, name); }
    if name in reach.inputs { var path, lets := InputHasRulePath(plan, site, refs, name); }
    forall path | RuleAlong(plan, site, path, name) ensures name in reach.rules {
      PathReachesRule(plan, site, refs, path, name);
    }
    forall path, lets | InputAlong(plan, site, path, lets, name) ensures name in reach.inputs {
      RulePathReachesInput(plan, site, refs, path, lets, name);
    }
  }

  /** The last rule of this name, if any, reaches it. */
  ghost predicate NamedReachesRule(plan: Plan, rule: string, name: string) {
    exists j :: LatestRule(plan, |plan.rules|, j, rule) && ReachesRule(plan, RuleSite(plan, j), name)
  }

  ghost predicate NamedReachesInput(plan: Plan, rule: string, name: string) {
    exists j :: LatestRule(plan, |plan.rules|, j, rule) && ReachesInput(plan, RuleSite(plan, j), name)
  }

  /** The graph of a plan holds exactly what its rules reach. */
  lemma GraphExact(plan: Plan, rule: string, name: string)
    ensures var rules := BuildGraph(plan).rules;
            && (rule in rules && name in rules[rule].rules <==> NamedReachesRule(plan, rule, name))
            && (rule in rules && name in rules[rule].inputs <==> NamedReachesInput(plan, rule, name))
  {
    var n := |plan.rules|;
    if rule in BuildGraph(plan).rules {
      var j := RuleReachesAt(plan, n, rule);
      RuleRefs(plan, j);
      ReachExact(plan, RuleSite(plan, j), CollectRefs(plan.rules[j].body), name);
    }
    forall j: nat | LatestRule(plan, n, j, rule)
      ensures rule in BuildGraph(plan).rules
      ensures name in BuildGraph(plan).rules[rule].rules <==> ReachesRule(plan, RuleSite(plan, j), name)
      ensures name in BuildGraph(plan).rules[rule].inputs <==> ReachesInput(plan, RuleSite(plan, j), name)
    {
      LatestRuleIsKept(plan, n, j, rule);
      RuleRefs(plan, j);
      ReachExact(plan, RuleSite(plan, j), CollectRefs(plan.rules[j].body), name);
    }
  }

  /** The same for a proposal, from its guard, its value and what it declares. */
  lemma ProposalReachExact(plan: Plan, q: Proposal, name: string)
    ensures name in ProposalReach(plan, q).rules <==> ReachesRule(plan, ProposalSite(plan, q), name)
    ensures name in ProposalReach(plan, q).inputs <==> ReachesInput(plan, ProposalSite(plan, q), name)
  {
    ProposalRefs(plan, q);
    ReachExact(plan, ProposalSite(plan, q), Union(CollectRefs(q.guard), CollectRefs(q.value)), name);
  }

  predicate LatestProposal(plan: Plan, i: nat, j: nat, name: string) {
    j < i <= |plan.proposals| && plan.proposals[j].name == name && forall k :: j < k < i ==> plan.proposals[k].name != name
  }

  lemma {:induction false} ProposalReachesAt(plan: Plan, i: nat, name: string) returns (j: nat)
    requires i <= |plan.proposals| && name in ProposalReaches(plan, i)
    ensures LatestProposal(plan, i, j, name) && ProposalReaches(plan, i)[name] == ProposalReach(plan, plan.proposals[j])
    decreases i
  {
    if plan.proposals[i - 1].name == name { j := i - 1; } else { j := ProposalReachesAt(plan, i - 1, name); }
  }

  lemma {:induction false} LatestProposalIsKept(plan: Plan, i: nat, j: nat, name: string)
    requires LatestProposal(plan, i, j, name)
    ensures name in ProposalReaches(plan, i) && ProposalReaches(plan, i)[name] == ProposalReach(plan, plan.proposals[j])
    decreases i
  {
    if j < i - 1 { LatestProposalIsKept(plan, i - 1, j, name); }
  }

  ghost predicate ProposalReachesRule(plan: Plan, proposal: string, name: string) {
    exists j: nat :: LatestProposal(plan, |plan.proposals|, j, proposal) && ReachesRule(plan, ProposalSite(plan, plan.proposals[j]), name)
  }

  ghost predicate ProposalReachesInput(plan: Plan, proposal: string, name: string) {
    exists j: nat :: LatestProposal(plan, |plan.proposals|, j, proposal) && ReachesInput(plan, ProposalSite(plan, plan.proposals[j]), name)
  }

  /** The graph of a plan holds exactly what its proposals reach. */
  lemma ProposalGraphExact(plan: Plan, proposal: string, name: string)
    ensures var proposals := BuildGraph(plan).proposals;
            && (proposal in proposals && name in proposals[proposal].rules <==> ProposalReachesRule(plan, proposal, name))
            && (proposal in proposals && name in proposals[proposal].inputs <==> ProposalReachesInput(plan, proposal, name))
  {
    var n := |plan.proposals|;
    if proposal in BuildGraph(plan).proposals {
      var j := ProposalReachesAt(plan, n, proposal);
      ProposalReachExact(plan, plan.proposals[j], name);
    }
    forall j: nat | LatestProposal(plan, n, j, proposal)
      ensures proposal in BuildGraph(plan).proposals
      ensures name in BuildGraph(plan).proposals[proposal].rules <==> ReachesRule(plan, ProposalSite(plan, plan.proposals[j]), name)
      ensures name in BuildGraph(plan).proposals[proposal].inputs <==> ReachesInput(plan, ProposalSite(plan, plan.proposals[j]), name)
    {
      LatestProposalIsKept(plan, n, j, proposal);
      ProposalReachExact(plan, plan.proposals[j], name);
    }
  }
}
