/** Finite-decision plans: the expression language, an evaluator for it, and a
    run of the plan over bound inputs. Primitive operations are parameters, so
    what is proved holds for every choice of them; the control structure
    (short circuits, arms, binders, early exits, nested generators) is here. */
module DecisionPlan {
  import opened Options

  datatype Value =
    | Int(n: int)
    | Str(s: string)
    | Bool(b: bool)
    | Number(kind: string, repr: string)
    | Ctor(nominal: string, variant: string, args: seq<Value>)
    | Record(nominal: string, fields: seq<(string, Value)>)
    | List(items: seq<Value>)

  datatype Fault = Unbound(name: string) | OperandShape | NoSuchField(field: string) | NoMatchingArm | ListTooLong | PrimitiveFault(code: string)

  datatype Result<+T> = Ok(value: T) | Err(fault: Fault) {
    predicate IsFailure() { Err? }
    function PropagateFailure<U>(): Result<U> requires Err? { Err(fault) }
    function Extract(): T requires Ok? { value }
  }

  datatype Pattern = CtorPattern(nominal: Option<string>, variant: string, binders: seq<Option<string>>) | Wildcard

  datatype Expr =
    | IntLit(n: int)
    | StrLit(s: string)
    | BoolLit(b: bool)
    | LetRef(name: string)
    | RuleFact(rule: string)
    | NullaryVariant(nominal: string, variant: string)
    | CtorExpr(nominal: string, variant: string, args: seq<Expr>)
    | RecordExpr(nominal: string, fields: seq<(string, Expr)>)
    | Field(base: Expr, field: string)
    | Arith(op: string, lhs: Expr, rhs: Expr)
    | Cmp(op: string, lhs: Expr, rhs: Expr)
    | IntDivMod(op: string, lhs: Expr, rhs: Expr)
    | Match(scrutinee: Expr, arms: seq<(Pattern, Expr)>)
    | Call(func: string, args: seq<Expr>)
    | NumericBuiltin(op: string, args: seq<Expr>)
    | And(lhs: Expr, rhs: Expr)
    | Or(lhs: Expr, rhs: Expr)
    | In(lhs: Expr, rhs: Expr)
    | Not(arg: Expr)
    | Len(arg: Expr)
    | Distinct(arg: Expr)
    | Only(arg: Expr)
    | Ascribe(arg: Expr, element: string)
    | Validate(targetType: string, arg: Expr)
    | Fold(op: string, list: Expr, binder: string, body: Expr)
    | Filter(list: Expr, binder: string, body: Expr)
    | MapExpr(list: Expr, binder: string, body: Expr)
    | Comprehension(generators: seq<(string, Expr)>, where_: Option<Expr>, yield_: Expr)
    | ListLit(items: seq<Expr>)

  /** What one element does to a fold. */
  datatype FoldStep = Next(acc: Value) | Stop(result: Value) | Bad(fault: Fault)

  /** Operations whose result depends on their operands only. A called function's
      body is closed over its parameters, so a call is one of them. */
  datatype Prims = Prims(
    binary: (string, Value, Value) -> Result<Value>,
    unary: (string, Value) -> Result<Value>,
    construct: Value -> Result<Value>,
    numeric: (string, seq<Value>) -> Result<Value>,
    call: (string, seq<Value>) -> Result<Value>,
    scrutineeFits: (Value, seq<Pattern>) -> bool,
    matches: (Pattern, Value) -> bool,
    foldStart: (string, seq<Value>) -> Result<Value>,
    foldStep: (string, Value, Value) -> FoldStep,
    maxListLen: nat)

  datatype Env = Env(inputs: map<string, Value>, lets: map<string, Value>, facts: map<string, Value>, locals: map<string, Value>)

  function Lookup<T>(m: map<string, T>, name: string): Option<T> {
    if name in m then Some(m[name]) else None
  }

  /** A name outside the local scope: a `let` first, then an input. */
  function Global(env: Env, name: string): Option<Value> {
    if name in env.lets then Some(env.lets[name]) else Lookup(env.inputs, name)
  }

  function Bind(env: Env, name: string, v: Value): Env {
    env.(locals := env.locals[name := v])
  }

  function BindAll(env: Env, binders: seq<Option<string>>, args: seq<Value>): Env
    requires |binders| == |args|
    decreases |binders|
  {
    if |binders| == 0 then env
    else
      var env' := if binders[0].Some? then Bind(env, binders[0].value, args[0]) else env;
      BindAll(env', binders[1..], args[1..])
  }

  function Patterns(arms: seq<(Pattern, Expr)>): seq<Pattern> {
    seq(|arms|, i requires 0 <= i < |arms| => arms[i].0)
  }

  function FoldItems(step: (Value, Value) -> FoldStep, f: Value -> Result<Value>, items: seq<Value>, acc: Value): Result<Value> {
    if |items| == 0 then Ok(acc)
    else
      var v :- f(items[0]);
      match step(acc, v)
      case Next(acc') => FoldItems(step, f, items[1..], acc')
      case Stop(result) => Ok(result)
      case Bad(fault) => Err(fault)
  }

  function FilterItems(maxLen: nat, f: Value -> Result<Value>, items: seq<Value>, out: seq<Value>): Result<Value> {
    if |items| == 0 then Ok(List(out))
    else
      var v :- f(items[0]);
      if !v.Bool? then Err(OperandShape)
      else if v.b && |out| >= maxLen then Err(ListTooLong)
      else FilterItems(maxLen, f, items[1..], if v.b then out + [items[0]] else out)
  }

  function MapItems(maxLen: nat, f: Value -> Result<Value>, items: seq<Value>, out: seq<Value>): Result<Value> {
    if |items| == 0 then Ok(List(out))
    else
      var v :- f(items[0]);
      if |out| >= maxLen then Err(ListTooLong) else MapItems(maxLen, f, items[1..], out + [v])
  }

  function Eval(p: Prims, e: Expr, env: Env): Result<Value>
    decreases e, 2, 0, 0
  {
    match e
    case IntLit(n) => Ok(Int(n))
    case StrLit(s) => Ok(Str(s))
    case BoolLit(b) => Ok(Bool(b))
    case LetRef(name) =>
      if name in env.locals then Ok(env.locals[name])
      else
        var v := Global(env, name);
        if v.Some? then Ok(v.value) else Err(Unbound(name))
    case RuleFact(rule) => if rule in env.facts then Ok(env.facts[rule]) else Err(Unbound(rule))
    case NullaryVariant(nominal, variant) => p.construct(Ctor(nominal, variant, []))
    case CtorExpr(nominal, variant, args) =>
      var vs :- EvalAll(p, args, env);
      p.construct(Ctor(nominal, variant, vs))
    case RecordExpr(nominal, fields) =>
      var vs :- EvalFields(p, e, 0, env);
      p.construct(Record(nominal, vs))
    case Field(base, field) =>
      var v :- Eval(p, base, env);
      if v.Record? then FindField(v.fields, field) else Err(NoSuchField(field))
    case Arith(op, a, b) =>
      var x :- Eval(p, a, env);
      var y :- Eval(p, b, env);
      p.binary("arith:" + op, x, y)
    case Cmp(op, a, b) =>
      var x :- Eval(p, a, env);
      var y :- Eval(p, b, env);
      p.binary("cmp:" + op, x, y)
    case IntDivMod(op, a, b) =>
      var x :- Eval(p, a, env);
      var y :- Eval(p, b, env);
      p.binary("divmod:" + op, x, y)
    case In(a, b) =>
      var x :- Eval(p, a, env);
      var y :- Eval(p, b, env);
      if y.List? then Ok(Bool(x in y.items)) else Err(OperandShape)
    case Match(scrutinee, arms) =>
      var v :- Eval(p, scrutinee, env);
      if !(v.Ctor? || v.Bool?) || !p.scrutineeFits(v, Patterns(arms)) then Err(OperandShape)
      else EvalArms(p, e, 0, v, env)
    case Call(func, args) =>
      var vs :- EvalAll(p, args, env);
      p.call(func, vs)
    case NumericBuiltin(op, args) =>
      var vs :- EvalAll(p, args, env);
      p.numeric(op, vs)
    case And(a, b) =>
      var x :- Eval(p, a, env);
      if !x.Bool? then Err(OperandShape)
      else if !x.b then Ok(Bool(false))
      else
        var y :- Eval(p, b, env);
        if y.Bool? then Ok(y) else Err(OperandShape)
    case Or(a, b) =>
      var x :- Eval(p, a, env);
      if !x.Bool? then Err(OperandShape)
      else if x.b then Ok(Bool(true))
      else
        var y :- Eval(p, b, env);
        if y.Bool? then Ok(y) else Err(OperandShape)
    case Not(a) =>
      var x :- Eval(p, a, env);
      if x.Bool? then Ok(Bool(!x.b)) else Err(OperandShape)
    case Len(a) =>
      var x :- Eval(p, a, env);
      if x.List? then Ok(Int(|x.items|)) else Err(OperandShape)
    case Distinct(a) =>
      var x :- Eval(p, a, env);
      p.unary("distinct", x)
    case Only(a) =>
      var x :- Eval(p, a, env);
      p.unary("only", x)
    case Ascribe(a, element) =>
      var x :- Eval(p, a, env);
      p.unary("ascribe:" + element, x)
    case Validate(target, a) =>
      var x :- Eval(p, a, env);
      p.unary("validate:" + target, x)
    case Fold(op, list, binder, body) =>
      var xs :- Eval(p, list, env);
      if !xs.List? then Err(OperandShape)
      else
        var acc :- p.foldStart(op, xs.items);
        FoldItems((x, y) => p.foldStep(op, x, y), v => Eval(p, body, Bind(env, binder, v)), xs.items, acc)
    case Filter(list, binder, body) =>
      var xs :- Eval(p, list, env);
      if !xs.List? then Err(OperandShape) else FilterItems(p.maxListLen, v => Eval(p, body, Bind(env, binder, v)), xs.items, [])
    case MapExpr(list, binder, body) =>
      var xs :- Eval(p, list, env);
      if !xs.List? then Err(OperandShape) else MapItems(p.maxListLen, v => Eval(p, body, Bind(env, binder, v)), xs.items, [])
    case Comprehension(_, _, _) =>
      var out :- EvalGenerators(p, e, 0, [], env);
      Ok(List(out))
    case ListLit(items) =>
      if |items| > p.maxListLen then Err(ListTooLong)
      else
        var vs :- EvalAll(p, items, env);
        Ok(List(vs))
  }

  function FindField(fields: seq<(string, Value)>, field: string): Result<Value> {
    if |fields| == 0 then Err(NoSuchField(field))
    else if fields[0].0 == field then Ok(fields[0].1)
    else FindField(fields[1..], field)
  }

  function EvalAll(p: Prims, es: seq<Expr>, env: Env): Result<seq<Value>>
    decreases es, 2, 0, 0
  {
    if |es| == 0 then Ok([])
    else
      var v :- Eval(p, es[0], env);
      var vs :- EvalAll(p, es[1..], env);
      Ok([v] + vs)
  }

  function EvalFields(p: Prims, e: Expr, i: nat, env: Env): Result<seq<(string, Value)>>
    requires e.RecordExpr? && i <= |e.fields|
    decreases e, 1, |e.fields| - i, 0
  {
    if i == |e.fields| then Ok([])
    else
      var v :- Eval(p, e.fields[i].1, env);
      var vs :- EvalFields(p, e, i + 1, env);
      Ok([(e.fields[i].0, v)] + vs)
  }

  /** The first arm from `i` on whose pattern matches. */
  function EvalArms(p: Prims, e: Expr, i: nat, v: Value, env: Env): Result<Value>
    requires e.Match? && i <= |e.arms|
    decreases e, 1, |e.arms| - i, 0
  {
    if i == |e.arms| then Err(NoMatchingArm)
    else
      var pattern := e.arms[i].0;
      if pattern.Wildcard? then Eval(p, e.arms[i].1, env)
      else if !p.matches(pattern, v) then EvalArms(p, e, i + 1, v, env)
      else
        var args := if v.Ctor? then v.args else [];
        if |pattern.binders| != |args| then Err(OperandShape)
        else Eval(p, e.arms[i].1, BindAll(env, pattern.binders, args))
  }

  /** Generators `j`, `j + 1`, … of a comprehension, left to right; `out` is what
      has been yielded so far. */
  function EvalGenerators(p: Prims, e: Expr, j: nat, out: seq<Value>, env: Env): Result<seq<Value>>
    requires e.Comprehension? && j <= |e.generators|
    decreases e, 1, 2 * (|e.generators| - j) + 1, 0
  {
    if j < |e.generators| then
      var xs :- Eval(p, e.generators[j].1, env);
      if !xs.List? then Err(OperandShape) else EvalItems(p, e, j, xs.items, out, env)
    else
      var keep :- if e.where_.None? then Ok(Bool(true)) else Eval(p, e.where_.value, env);
      if !keep.Bool? then Err(OperandShape)
      else if !keep.b then Ok(out)
      else
        var v :- Eval(p, e.yield_, env);
        if |out| >= p.maxListLen then Err(ListTooLong) else Ok(out + [v])
  }

  function EvalItems(p: Prims, e: Expr, j: nat, items: seq<Value>, out: seq<Value>, env: Env): Result<seq<Value>>
    requires e.Comprehension? && j < |e.generators|
    decreases e, 1, 2 * (|e.generators| - j), |items|
  {
    if |items| == 0 then Ok(out)
    else
      var out' :- EvalGenerators(p, e, j + 1, out, Bind(env, e.generators[j].0, items[0]));
      EvalItems(p, e, j, items[1..], out', env)
  }

  // ----- plans and runs -----

  datatype Rule = Rule(name: string, body: Expr, dependsOn: seq<string>)
  datatype Proposal = Proposal(name: string, deps: seq<string>, guard: Expr, value: Expr)
  datatype Plan = Plan(inputs: seq<string>, lets: seq<(string, Expr)>, rules: seq<Rule>, proposals: seq<Proposal>)

  function InputNames(plan: Plan): set<string> {
    set n | n in plan.inputs
  }

  /** The environment after the first `i` lets, or the first fault. */
  function RunLets(p: Prims, plan: Plan, i: nat, inputs: map<string, Value>): Result<Env>
    requires i <= |plan.lets|
  {
    if i == 0 then Ok(Env(inputs, map[], map[], map[]))
    else
      var env :- RunLets(p, plan, i - 1, inputs);
      var v :- Eval(p, plan.lets[i - 1].1, env);
      Ok(env.(lets := env.lets[plan.lets[i - 1].0 := v]))
  }

  /** The environment after all lets and the first `i` rules, up to the first
      rule that faults; `whole` tells whether none did. */
  function RunRules(p: Prims, plan: Plan, i: nat, inputs: map<string, Value>): Result<(Env, bool)>
    requires i <= |plan.rules|
  {
    if i == 0 then
      var env :- RunLets(p, plan, |plan.lets|, inputs);
      Ok((env, true))
    else
      var (env, whole) :- RunRules(p, plan, i - 1, inputs);
      if !whole then Ok((env, false))
      else
        match Eval(p, plan.rules[i - 1].body, env)
        case Ok(v) => Ok((env.(facts := env.facts[plan.rules[i - 1].name := v]), true))
        case Err(_) => Ok((env, false))
  }

  /** The facts a run derives: none when a `let` faults, and those before the
      first faulting rule otherwise. */
  function Facts(p: Prims, plan: Plan, inputs: map<string, Value>): map<string, Value> {
    match RunRules(p, plan, |plan.rules|, inputs)
    case Ok((env, _)) => env.facts
    case Err(_) => map[]
  }
}
