/**
 * What an expression yields, as rules: a derivation proves of an expression, in a step
 * state, what it costs, what comes of it and the state it leaves. Evaluation is proved to
 * be what the rules derive, in both directions.
 */
module ExprRules {
  import opened ExprAst
  import opened ExprValues
  import opened ExprSemantics

  /** An expression, or a list of arguments, has this cost and outcome from `st`, and leaves `end`. */
  datatype Judgement =
    | Yields(e: Expr, st: State, cost: nat, out: Result<Value>, end: State)
    | YieldsAll(es: seq<Expr>, st: State, cost: nat, outs: Result<seq<Value>>, end: State)

  datatype Derivation = Derivation(concludes: Judgement, premises: seq<Derivation>)

  /** The values that count as false. */
  const FALSY: set<Value> := {Undef, Null, Bool(false), Num(Fin(0.0)), Num(NaN), Str("")}

  // ---------------------------------------------------------------- the rules

  predicate LiteralRule(j: Judgement, ps: seq<Judgement>) {
    && j.Yields? && j.e.Lit? && ps == [] && j.cost == 1 && j.end == j.st
    && match j.e.v
       case NumLit(n) => j.out == Ok(Num(Fin(NumeralValue(n))))
       case StrLit(s) => j.out == Ok(Str(s))
       case BoolLit(b) => j.out == Ok(Bool(b))
       case NullLit => j.out == Ok(Null)
  }

  predicate RootRule(env: Env, j: Judgement, ps: seq<Judgement>) {
    j.Yields? && j.e.Root? && ps == [] && j.cost == 1 && j.end == j.st && j.out == Ok(env.roots(j.e.name))
  }

  /** The only premise is about the sub-expression `e`, from the start. */
  predicate First(j: Judgement, ps: seq<Judgement>, e: Expr) {
    j.Yields? && ps != [] && ps[0].Yields? && ps[0].e == e && ps[0].st == j.st
  }

  /** The second premise is about `e`, from where the first, which yielded a value, left off. */
  predicate Then(ps: seq<Judgement>, e: Expr) {
    |ps| == 2 && ps[0].Yields? && ps[0].out.Ok? && ps[1].Yields? && ps[1].e == e && ps[1].st == ps[0].end
  }

  /** The sub-expression evaluated first fails: so does the whole, and nothing else is evaluated. */
  predicate FailsFirst(j: Judgement, ps: seq<Judgement>) {
    && j.Yields? && |ps| == 1 && ps[0].Yields? && ps[0].out.Err? && j.out == Err(ps[0].out.fault)
    && j.cost == 1 + ps[0].cost && j.end == ps[0].end
  }

  /** The second one does. */
  predicate FailsSecond(j: Judgement, ps: seq<Judgement>) {
    && j.Yields? && |ps| == 2 && ps[1].Yields? && ps[1].out.Err? && j.out == Err(ps[1].out.fault)
    && j.cost == 1 + ps[0].cost + ps[1].cost && j.end == ps[1].end
  }

  /** The whole is the outcome `out` of the last premise's value, at `extra` more. */
  predicate Concludes(j: Judgement, ps: seq<Judgement>, extra: nat, out: Result<Value>)
    requires j.Yields? && ps != [] && ps[|ps| - 1].Yields?
  {
    && j.cost == 1 + ps[0].cost + (if |ps| == 1 then 0 else ps[1].cost) + extra
    && j.out == out && j.end == ps[|ps| - 1].end
  }

  predicate MemberRule(j: Judgement, ps: seq<Judgement>) {
    && j.Yields? && j.e.Member? && First(j, ps, j.e.on) && |ps| == 1
    && (FailsFirst(j, ps) || (ps[0].out.Ok? && Concludes(j, ps, 0, Ok(GetMember(ps[0].out.value, j.e.key)))))
  }

  predicate IndexRule(j: Judgement, ps: seq<Judgement>) {
    && j.Yields? && j.e.Index? && First(j, ps, j.e.on)
    && (FailsFirst(j, ps)
        || (Then(ps, j.e.idx) &&
            (FailsSecond(j, ps)
             || (ps[1].out.Ok? && Concludes(j, ps, 0, Ok(GetIndex(ps[0].out.value, ps[1].out.value)))))))
  }

  predicate NotRule(j: Judgement, ps: seq<Judgement>) {
    && j.Yields? && j.e.Unary? && j.e.uop == Not && First(j, ps, j.e.on) && |ps| == 1
    && (FailsFirst(j, ps) || (ps[0].out.Ok? && Concludes(j, ps, 0, Ok(Bool(ps[0].out.value in FALSY)))))
  }

  predicate NegRule(j: Judgement, ps: seq<Judgement>) {
    && j.Yields? && j.e.Unary? && j.e.uop == Neg && First(j, ps, j.e.on) && |ps| == 1
    && (FailsFirst(j, ps)
        || (ps[0].out.Ok? && Concludes(j, ps, 0,
              if ps[0].out.value.Num? then Ok(Num(Negate(ps[0].out.value.n))) else Err(TypeFault))))
  }

  /** `l && r` is `l` where that is false, and otherwise `r`; the right side is evaluated only then. */
  predicate AndRule(j: Judgement, ps: seq<Judgement>) {
    && j.Yields? && j.e.Bin? && j.e.op == AndAlso && First(j, ps, j.e.l)
    && (FailsFirst(j, ps)
        || (|ps| == 1 && ps[0].out.Ok? && ps[0].out.value in FALSY && Concludes(j, ps, 0, ps[0].out))
        || (Then(ps, j.e.r) && ps[0].out.value !in FALSY && Concludes(j, ps, 0, ps[1].out)))
  }

  predicate OrRule(j: Judgement, ps: seq<Judgement>) {
    && j.Yields? && j.e.Bin? && j.e.op == OrElse && First(j, ps, j.e.l)
    && (FailsFirst(j, ps)
        || (|ps| == 1 && ps[0].out.Ok? && ps[0].out.value !in FALSY && Concludes(j, ps, 0, ps[0].out))
        || (Then(ps, j.e.r) && ps[0].out.value in FALSY && Concludes(j, ps, 0, ps[1].out)))
  }

  /** Every other operator evaluates both sides, the left one first, and then combines the values. */
  predicate StrictRule(env: Env, j: Judgement, ps: seq<Judgement>) {
    && j.Yields? && j.e.Bin? && j.e.op != AndAlso && j.e.op != OrElse && First(j, ps, j.e.l)
    && (FailsFirst(j, ps)
        || (Then(ps, j.e.r) &&
            (FailsSecond(j, ps)
             || (ps[1].out.Ok? &&
                 var v := BinRun(j.e.op, ps[0].out.value, ps[1].out.value, env, ps[1].end);
                 Concludes(j, ps, v.cost, v.result)))))
  }

  /** The first branch where the condition is true, the second where it is false; the other is not evaluated. */
  predicate CondRule(j: Judgement, ps: seq<Judgement>) {
    && j.Yields? && j.e.Cond? && First(j, ps, j.e.c)
    && (FailsFirst(j, ps)
        || (Then(ps, j.e.a) && ps[0].out.value !in FALSY && Concludes(j, ps, 0, ps[1].out))
        || (Then(ps, j.e.b) && ps[0].out.value in FALSY && Concludes(j, ps, 0, ps[1].out)))
  }

  /** The arguments, then one unit for the call and what the table entry spends. */
  predicate CallRule(env: Env, j: Judgement, ps: seq<Judgement>) {
    && j.Yields? && j.e.Call? && |ps| == 1 && ps[0].YieldsAll? && ps[0].es == j.e.args && ps[0].st == j.st
    && match ps[0].outs
       case Err(f) => j.out == Err(f) && j.cost == 1 + ps[0].cost && j.end == ps[0].end
       case Ok(vs) =>
         var v := Apply(j.e.fn, vs, env, ps[0].end);
         j.out == v.result && j.cost == 2 + ps[0].cost + v.cost && j.end == v.state
  }

  predicate NoArgsRule(j: Judgement, ps: seq<Judgement>) {
    j.YieldsAll? && j.es == [] && ps == [] && j.outs == Ok([]) && j.cost == 0 && j.end == j.st
  }

  /** From left to right, up to the first that fails. */
  predicate ArgsRule(j: Judgement, ps: seq<Judgement>) {
    && j.YieldsAll? && j.es != [] && 1 <= |ps| <= 2
    && ps[0].YieldsAll? && ps[0].es == j.es[..|j.es| - 1] && ps[0].st == j.st
    && match ps[0].outs
       case Err(f) => |ps| == 1 && j.outs == Err(f) && j.cost == ps[0].cost && j.end == ps[0].end
       case Ok(vs) =>
         && |ps| == 2 && ps[1].Yields? && ps[1].e == j.es[|j.es| - 1] && ps[1].st == ps[0].end
         && j.cost == ps[0].cost + ps[1].cost && j.end == ps[1].end
         && j.outs == match ps[1].out case Err(f) => Err(f) case Ok(v) => Ok(vs + [v])
  }

  predicate Rule(env: Env, j: Judgement, ps: seq<Judgement>) {
    || LiteralRule(j, ps) || RootRule(env, j, ps) || MemberRule(j, ps) || IndexRule(j, ps)
    || NotRule(j, ps) || NegRule(j, ps) || AndRule(j, ps) || OrRule(j, ps) || StrictRule(env, j, ps)
    || CondRule(j, ps) || CallRule(env, j, ps) || NoArgsRule(j, ps) || ArgsRule(j, ps)
  }

  function Conclusions(ds: seq<Derivation>): (js: seq<Judgement>)
    ensures |js| == |ds| && forall i | 0 <= i < |ds| :: js[i] == ds[i].concludes
  {
    if ds == [] then [] else [ds[0].concludes] + Conclusions(ds[1..])
  }

  /** Every step of `d` is an instance of a rule. */
  predicate Derives(d: Derivation, env: Env) {
    && (forall i | 0 <= i < |d.premises| :: Derives(d.premises[i], env))
    && Rule(env, d.concludes, Conclusions(d.premises))
  }

  // ---------------------------------------------------------------- exactness

  /** The evaluator agrees with a judgement. */
  ghost predicate Holds(env: Env, j: Judgement) {
    match j
    case Yields(e, st, cost, out, end) => Eval(e, env, st) == Run(cost, out, end)
    case YieldsAll(es, st, cost, outs, end) => EvalArgs(es, env, st) == Run(cost, outs, end)
  }

  lemma FalsyIffNotTruthy(v: Value)
    ensures v in FALSY <==> !Truthy(v)
  {
  }

  /** A rule leads from judgements that hold to one that holds. */
  lemma RuleHolds(env: Env, j: Judgement, ps: seq<Judgement>)
    requires Rule(env, j, ps) && forall i | 0 <= i < |ps| :: Holds(env, ps[i])
    ensures Holds(env, j)
  {
    hide Truthy, BinRun, Apply, GetMember, GetIndex, Negate, NumeralValue, FALSY;
    if ps != [] { assert Holds(env, ps[0]); }
    if |ps| == 2 { assert Holds(env, ps[1]); }
    if j.YieldsAll? {
      ArgsHold(env, j, ps);
    } else if j.e.Bin? {
      BinHolds(env, j, ps);
    } else if j.e.Cond? {
      if ps[0].Yields? && ps[0].out.Ok? { FalsyIffNotTruthy(ps[0].out.value); }
    } else if j.e.Unary? {
      if ps[0].Yields? && ps[0].out.Ok? { FalsyIffNotTruthy(ps[0].out.value); }
    }
  }

  lemma ArgsHold(env: Env, j: Judgement, ps: seq<Judgement>)
    requires j.YieldsAll? && Rule(env, j, ps) && forall i | 0 <= i < |ps| :: Holds(env, ps[i])
    ensures Holds(env, j)
  {
    hide Eval;
    if ps != [] { assert Holds(env, ps[0]); }
    if |ps| == 2 { assert Holds(env, ps[1]); }
  }

  lemma BinHolds(env: Env, j: Judgement, ps: seq<Judgement>)
    requires j.Yields? && j.e.Bin? && Rule(env, j, ps) && forall i | 0 <= i < |ps| :: Holds(env, ps[i])
    ensures Holds(env, j)
  {
    hide Truthy, BinRun, EvalArgs, FALSY, LiteralRule, RootRule, MemberRule, IndexRule, NotRule, NegRule, CondRule, CallRule;
    hide NoArgsRule, ArgsRule;
    OperatorRule(env, j, ps);
    assert Holds(env, ps[0]);
    if |ps| == 2 {
      assert Holds(env, ps[1]);
      if ps[0].out.Ok? && ps[1].out.Ok? { StrictKeepsState(j.e.op, ps[0].out.value, ps[1].out.value, env, ps[1].end); }
    }
    if ps[0].out.Ok? { FalsyIffNotTruthy(ps[0].out.value); }
  }

  /** Only the rules for operators are about operators. */
  lemma OperatorRule(env: Env, j: Judgement, ps: seq<Judgement>)
    requires j.Yields? && j.e.Bin? && Rule(env, j, ps)
    ensures AndRule(j, ps) || OrRule(j, ps) || StrictRule(env, j, ps)
  {
    hide AndRule, OrRule, StrictRule;
  }

  lemma StrictKeepsState(op: BinOp, l: Value, r: Value, env: Env, st: State)
    ensures BinRun(op, l, r, env, st).state == st
  {
  }

  lemma {:induction false} DerivedHolds(d: Derivation, env: Env)
    requires Derives(d, env)
    ensures Holds(env, d.concludes)
    decreases d
  {
    hide Holds, Rule;
    var ps := Conclusions(d.premises);
    forall i | 0 <= i < |ps|
      ensures Holds(env, ps[i])
    {
      DerivedHolds(d.premises[i], env);
    }
    RuleHolds(env, d.concludes, ps);
  }

  function JudgementOf(e: Expr, env: Env, st: State): Judgement {
    var run := Eval(e, env, st);
    Yields(e, st, run.cost, run.result, run.state)
  }

  function ArgsJudgementOf(es: seq<Expr>, env: Env, st: State): Judgement {
    var run := EvalArgs(es, env, st);
    YieldsAll(es, st, run.cost, run.result, run.state)
  }

  lemma Derived(d: Derivation, env: Env)
    requires forall i | 0 <= i < |d.premises| :: Derives(d.premises[i], env)
    requires Rule(env, d.concludes, Conclusions(d.premises))
    ensures Derives(d, env)
  {
  }

  /** A conclusion from no, one or two derivations. */
  lemma FromNone(j: Judgement, env: Env) returns (d: Derivation)
    requires Rule(env, j, [])
    ensures Derives(d, env) && d.concludes == j
  {
    d := Derivation(j, []);
  }

  lemma FromOne(j: Judgement, env: Env, p: Derivation) returns (d: Derivation)
    requires Derives(p, env) && Rule(env, j, [p.concludes])
    ensures Derives(d, env) && d.concludes == j
  {
    hide Rule;
    d := Derivation(j, [p]);
    assert Conclusions([p]) == [p.concludes];
  }

  lemma FromTwo(j: Judgement, env: Env, p: Derivation, q: Derivation) returns (d: Derivation)
    requires Derives(p, env) && Derives(q, env) && Rule(env, j, [p.concludes, q.concludes])
    ensures Derives(d, env) && d.concludes == j
  {
    hide Rule;
    d := Derivation(j, [p, q]);
    assert Conclusions([p, q]) == [p.concludes, q.concludes];
  }

  /** Whatever evaluation gives can be derived. */
  lemma {:induction false} EvalIsDerived(e: Expr, env: Env, st: State) returns (d: Derivation)
    ensures Derives(d, env) && d.concludes == JudgementOf(e, env, st)
    decreases e, 1
  {
    hide Truthy, BinRun, Apply, GetMember, GetIndex, Negate, NumeralValue, FALSY, Derives, EvalArgs;
    var j := JudgementOf(e, env, st);
    match e
    case Lit(_) => d := FromNone(j, env);
    case Root(_) => d := FromNone(j, env);
    case Member(on, _) =>
      var p := EvalIsDerived(on, env, st);
      d := FromOne(j, env, p);
    case Unary(_, on) =>
      var p := EvalIsDerived(on, env, st);
      if p.concludes.out.Ok? { FalsyIffNotTruthy(p.concludes.out.value); }
      d := FromOne(j, env, p);
    case Index(_, _) => d := IndexIsDerived(e, env, st);
    case Bin(_, _, _) => d := BinIsDerived(e, env, st);
    case Cond(_, _, _) => d := CondIsDerived(e, env, st);
    case Call(_, args) =>
      var p := ArgsAreDerived(args, env, st);
      d := FromOne(j, env, p);
  }

  lemma {:induction false} IndexIsDerived(e: Expr, env: Env, st: State) returns (d: Derivation)
    requires e.Index?
    ensures Derives(d, env) && d.concludes == JudgementOf(e, env, st)
    decreases e, 0
  {
    hide GetIndex, Derives, EvalArgs;
    var j := JudgementOf(e, env, st);
    var p := EvalIsDerived(e.on, env, st);
    if p.concludes.out.Err? {
      d := FromOne(j, env, p);
    } else {
      var q := EvalIsDerived(e.idx, env, p.concludes.end);
      d := FromTwo(j, env, p, q);
    }
  }

  lemma {:induction false} BinIsDerived(e: Expr, env: Env, st: State) returns (d: Derivation)
    requires e.Bin?
    ensures Derives(d, env) && d.concludes == JudgementOf(e, env, st)
    decreases e, 0
  {
    hide Truthy, BinRun, FALSY, Derives, EvalArgs, LiteralRule, RootRule, MemberRule, IndexRule, NotRule, NegRule, CondRule;
    hide CallRule, NoArgsRule, ArgsRule;
    var j := JudgementOf(e, env, st);
    var p := EvalIsDerived(e.l, env, st);
    if p.concludes.out.Ok? { FalsyIffNotTruthy(p.concludes.out.value); }
    if p.concludes.out.Err? || ShortCircuits(e.op, p.concludes.out.value) {
      d := FromOne(j, env, p);
    } else {
      var q := EvalIsDerived(e.r, env, p.concludes.end);
      if q.concludes.out.Ok? { StrictKeepsState(e.op, p.concludes.out.value, q.concludes.out.value, env, q.concludes.end); }
      d := FromTwo(j, env, p, q);
    }
  }

  lemma {:induction false} CondIsDerived(e: Expr, env: Env, st: State) returns (d: Derivation)
    requires e.Cond?
    ensures Derives(d, env) && d.concludes == JudgementOf(e, env, st)
    decreases e, 0
  {
    hide Truthy, FALSY, Derives, EvalArgs;
    var j := JudgementOf(e, env, st);
    var p := EvalIsDerived(e.c, env, st);
    if p.concludes.out.Err? {
      d := FromOne(j, env, p);
    } else {
      FalsyIffNotTruthy(p.concludes.out.value);
      var branch := if p.concludes.out.value in FALSY then e.b else e.a;
      var q := EvalIsDerived(branch, env, p.concludes.end);
      d := FromTwo(j, env, p, q);
    }
  }

  lemma {:induction false} ArgsAreDerived(es: seq<Expr>, env: Env, st: State) returns (d: Derivation)
    ensures Derives(d, env) && d.concludes == ArgsJudgementOf(es, env, st)
    decreases es, 1
  {
    hide Derives, Eval;
    var j := ArgsJudgementOf(es, env, st);
    if es == [] {
      d := FromNone(j, env);
    } else {
      var p := ArgsAreDerived(es[..|es| - 1], env, st);
      if p.concludes.outs.Err? {
        d := FromOne(j, env, p);
      } else {
        var q := EvalIsDerived(es[|es| - 1], env, p.concludes.end);
        d := FromTwo(j, env, p, q);
      }
    }
  }

  /** Evaluation gives an outcome, a cost and a state if and only if the rules derive them. */
  lemma RulesAreExact(e: Expr, env: Env, st: State, cost: nat, out: Result<Value>, end: State)
    ensures (exists d :: Derives(d, env) && d.concludes == Yields(e, st, cost, out, end))
      <==> Eval(e, env, st) == Run(cost, out, end)
  {
    hide Derives, Eval;
    if d :| Derives(d, env) && d.concludes == Yields(e, st, cost, out, end) {
      DerivedHolds(d, env);
    }
    if Eval(e, env, st) == Run(cost, out, end) {
      var d := EvalIsDerived(e, env, st);
    }
  }
}
