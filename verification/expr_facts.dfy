/** What the meaning of an expression guarantees: fuel, reachability, replay and draws. */
module ExprFacts {
  import opened ExprAst
  import opened ExprValues
  import opened ExprSemantics
  import opened ExprEval
  import ExprRandom

  // --------------------------------------------------------------------- fuel

  /**
   * Two evaluations that follow one meaning, the second with at least the fuel of the
   * first: if the first ended, the second ended with the same outcome, the same fuel
   * spent and the same step state; the second is exhausted only if the first was.
   */
  lemma MoreFuelSameEnd(run: Run<Value>, fuel: int, left: int, after: State, r: Ended<Value>,
                        fuel': int, left': int, after': State, r': Ended<Value>)
    requires Follows(run, fuel, left, after, r) && Follows(run, fuel', left', after', r') && fuel <= fuel'
    ensures r.Ended? ==> r' == r && after' == after && fuel - left == fuel' - left' == run.cost
    ensures r'.OutOfFuel? ==> r.OutOfFuel? && fuel' < run.cost
  {
  }

  /**
   * One tree evaluated twice from one step state: if the first evaluation ends, the second,
   * with as much fuel or more, ends with the same outcome, fuel spent and step state, draw
   * counter included; the second runs out only if the first did.
   */
  method EvaluateTwice(ast: Expr, env: Env, start: State, fuel: int, more: int)
    returns (r: Ended<Value>, spent: int, end: State, r': Ended<Value>, spent': int, end': State)
    requires fuel <= more
    ensures r.Ended? ==> r' == r && spent' == spent <= fuel && end' == end
    ensures r'.OutOfFuel? ==> r.OutOfFuel? && spent' > more
  {
    var step := new StepState(start.draws, start.refs);
    var budget := new Fuel(fuel);
    r := EvalNode(ast, env, step, budget);
    spent, end := fuel - budget.remaining, step.Now();
    var step' := new StepState(start.draws, start.refs);
    var budget' := new Fuel(more);
    r' := EvalNode(ast, env, step', budget');
    spent', end' := more - budget'.remaining, step'.Now();
    MoreFuelSameEnd(Eval(ast, env, start), fuel, budget.remaining, end, r, more, budget'.remaining, end', r');
  }

  // ---------------------------------------------------------------------- cost

  predicate CallFree(e: Expr) {
    match e
    case Lit(_) => true
    case Root(_) => true
    case Member(on, _) => CallFree(on)
    case Index(on, idx) => CallFree(on) && CallFree(idx)
    case Unary(_, on) => CallFree(on)
    case Bin(_, l, r) => CallFree(l) && CallFree(r)
    case Cond(c, a, b) => CallFree(c) && CallFree(a) && CallFree(b)
    case Call(_, _) => false
  }

  /** No root of the scope holds more than `bound` values. */
  ghost predicate ScopeWithin(env: Env, bound: nat) {
    bound >= 1 && forall name: RootName :: ValueSize(env.roots(name)) <= bound
  }

  /** `e` costs at most its nodes times one more than `bound`, yields no more than `bound`, draws nothing. */
  ghost predicate CheapRun(e: Expr, env: Env, st: State, bound: nat) {
    var run := Eval(e, env, st);
    && run.cost <= Size(e) * (1 + bound)
    && (run.result.Ok? ==> ValueSize(run.result.value) <= bound)
    && run.state == st
  }

  lemma Distribute(a: nat, b: nat, c: nat, unit: nat)
    ensures (a + b + c + 1) * unit == a * unit + b * unit + c * unit + unit
  {
  }

  /**
   * A tree without calls costs at most its node count times one more than the
   * largest scope value, and its value is no larger than that.
   */
  lemma {:induction false} CallFreeCost(e: Expr, env: Env, st: State, bound: nat)
    requires CallFree(e) && ScopeWithin(env, bound)
    ensures CheapRun(e, env, st, bound)
    decreases e
  {
    match e
    case Lit(_) =>
    case Root(_) =>
    case Member(on, _) => CallFreeCost(on, env, st, bound); MemberCost(e, env, st, bound);
    case Index(on, idx) =>
      CallFreeCost(on, env, st, bound);
      CallFreeCost(idx, env, st, bound);
      IndexCost(e, env, st, bound);
    case Unary(_, on) => CallFreeCost(on, env, st, bound); UnaryCost(e, env, st, bound);
    case Bin(op, l, r) =>
      CallFreeCost(l, env, st, bound);
      CallFreeCost(r, env, st, bound);
      BinCost(e, env, st, bound);
    case Cond(c, a, b) =>
      CallFreeCost(c, env, st, bound);
      CallFreeCost(a, env, st, bound);
      CallFreeCost(b, env, st, bound);
      CondCost(e, env, st, bound);
  }

  lemma MemberCost(e: Expr, env: Env, st: State, bound: nat)
    requires e.Member? && bound >= 1 && CheapRun(e.on, env, st, bound)
    ensures CheapRun(e, env, st, bound)
  {
    Distribute(Size(e.on), 0, 0, 1 + bound);
    var o := Eval(e.on, env, st).result;
    if o.Ok? { OwnPropertySize(o.value, e.key); }
  }

  lemma IndexCost(e: Expr, env: Env, st: State, bound: nat)
    requires e.Index? && bound >= 1 && CheapRun(e.on, env, st, bound) && CheapRun(e.idx, env, st, bound)
    ensures CheapRun(e, env, st, bound)
  {
    Distribute(Size(e.on), Size(e.idx), 0, 1 + bound);
    var o, i := Eval(e.on, env, st).result, Eval(e.idx, env, st).result;
    if o.Ok? && i.Ok? { IndexedSize(o.value, i.value); }
  }

  lemma UnaryCost(e: Expr, env: Env, st: State, bound: nat)
    requires e.Unary? && bound >= 1 && CheapRun(e.on, env, st, bound)
    ensures CheapRun(e, env, st, bound)
  {
    Distribute(Size(e.on), 0, 0, 1 + bound);
  }

  lemma BinCost(e: Expr, env: Env, st: State, bound: nat)
    requires e.Bin? && bound >= 1 && CheapRun(e.l, env, st, bound) && CheapRun(e.r, env, st, bound)
    ensures CheapRun(e, env, st, bound)
  {
    Distribute(Size(e.l), Size(e.r), 0, 1 + bound);
    var x, y := Eval(e.l, env, st), Eval(e.r, env, st);
    if x.result.Ok? && y.result.Ok? {
      StrictCost(e.op, x.result.value, y.result.value, env, st);
    }
  }

  lemma CondCost(e: Expr, env: Env, st: State, bound: nat)
    requires e.Cond? && bound >= 1
    requires CheapRun(e.c, env, st, bound) && CheapRun(e.a, env, st, bound) && CheapRun(e.b, env, st, bound)
    ensures CheapRun(e, env, st, bound)
  {
    Distribute(Size(e.c), Size(e.a), Size(e.b), 1 + bound);
  }

  /** A strict operator costs at most its left operand's size and yields a primitive. */
  lemma StrictCost(op: BinOp, l: Value, r: Value, env: Env, st: State)
    ensures var run := BinRun(op, l, r, env, st);
      run.cost <= ValueSize(l) && run.state == st && (run.result.Ok? ==> ValueSize(run.result.value) == 1)
  {
  }

  /** A parsed tree without calls never exhausts the default budget over a scope of small values. */
  lemma SmallScopeNeverExhausts(e: Expr, env: Env, st: State)
    requires CallFree(e) && Size(e) <= MAX_AST_NODES && ScopeWithin(env, 49)
    ensures CutOff(Eval(e, env, st), MAX_STEPS).Ended?
  {
    CallFreeCost(e, env, st, 49);
  }

  // -------------------------------------------------------------- reachability

  /** Over a table whose every name is known, the evaluator's unknown-function branch is dead. */
  lemma {:induction false} NeverUnknown(e: Expr, table: set<string>, env: Env, st: State)
    requires WellFormed(e, table) && forall fn | fn in table :: Known(fn, env)
    ensures Eval(e, env, st).result != Err(UnknownFunction)
    decreases e
  {
    hide Apply, Known, BinRun;
    match e
    case Lit(_) =>
    case Root(_) =>
    case Member(on, _) => NeverUnknown(on, table, env, st);
    case Index(on, idx) =>
      NeverUnknown(on, table, env, st);
      NeverUnknown(idx, table, env, Eval(on, env, st).state);
    case Unary(_, on) => NeverUnknown(on, table, env, st);
    case Bin(op, l, r) =>
      NeverUnknown(l, table, env, st);
      var left := Eval(l, env, st);
      NeverUnknown(r, table, env, left.state);
      var right := Eval(r, env, left.state);
      if left.result.Ok? && right.result.Ok? {
        StrictNeverUnknown(op, left.result.value, right.result.value, env, right.state);
      }
    case Cond(c, a, b) =>
      NeverUnknown(c, table, env, st);
      NeverUnknown(a, table, env, Eval(c, env, st).state);
      NeverUnknown(b, table, env, Eval(c, env, st).state);
    case Call(fn, args) =>
      ArgsNeverUnknown(args, table, env, st);
      var xs := EvalArgs(args, env, st);
      if xs.result.Ok? { KnownApplies(fn, xs.result.value, env, xs.state); }
  }

  lemma StrictNeverUnknown(op: BinOp, l: Value, r: Value, env: Env, st: State)
    ensures BinRun(op, l, r, env, st).result != Err(UnknownFunction)
  {
  }

  lemma {:induction false} ArgsNeverUnknown(args: seq<Expr>, table: set<string>, env: Env, st: State)
    requires forall i | 0 <= i < |args| :: WellFormed(args[i], table)
    requires forall fn | fn in table :: Known(fn, env)
    ensures EvalArgs(args, env, st).result != Err(UnknownFunction)
    decreases args
  {
    if args != [] {
      var init := args[..|args| - 1];
      ArgsNeverUnknown(init, table, env, st);
      NeverUnknown(args[|args| - 1], table, env, EvalArgs(init, env, st).state);
    }
  }

  lemma KnownApplies(fn: string, args: seq<Value>, env: Env, st: State)
    requires Known(fn, env)
    ensures Apply(fn, args, env, st).result != Err(UnknownFunction)
  {
    hide GATE_OPS;
  }

  // -------------------------------------------------------------------- replay

  /** The two environments differ at most in their draws, and agree on draws `from` to `to`. */
  ghost predicate Replays(a: Env, b: Env, from: nat, to: nat) {
    && b == a.(draw := b.draw)
    && forall k: nat :: from <= k < to ==> a.draw(k) == b.draw(k)
  }

  /**
   * A run reads only the draws it counts: with those replayed, everything else about
   * the generator can change and the run is the same, cost, result and counter alike.
   */
  lemma ReplayedDrawsSuffice(e: Expr, a: Env, b: Env, st: State)
    requires Replays(a, b, st.draws, Eval(e, a, st).state.draws)
    ensures Eval(e, b, st) == Eval(e, a, st)
  {
    Replay(e, a, b, st, Eval(e, a, st).state.draws);
  }

  lemma {:induction false} Replay(e: Expr, a: Env, b: Env, st: State, to: nat)
    requires Eval(e, a, st).state.draws <= to && Replays(a, b, st.draws, to)
    ensures Eval(e, b, st) == Eval(e, a, st)
    decreases e, 1
  {
    match e
    case Lit(_) =>
    case Root(_) =>
    case Member(on, _) => Replay(on, a, b, st, to);
    case Index(on, idx) =>
      Replay(on, a, b, st, to);
      var o := Eval(on, a, st);
      if o.result.Ok? { Replay(idx, a, b, o.state, to); }
    case Unary(_, on) => Replay(on, a, b, st, to);
    case Bin(_, _, _) => ReplayBin(e, a, b, st, to);
    case Cond(c, x, y) =>
      Replay(c, a, b, st, to);
      var o := Eval(c, a, st);
      if o.result.Ok? { Replay(if Truthy(o.result.value) then x else y, a, b, o.state, to); }
    case Call(fn, args) =>
      var xs := EvalArgs(args, a, st);
      ApplyCounts(fn, if xs.result.Ok? then xs.result.value else [], a, xs.state);
      ReplayArgs(args, a, b, st, to);
      if xs.result.Ok? { ReplayApply(fn, xs.result.value, a, b, xs.state, to); }
  }

  lemma {:induction false} ReplayBin(e: Expr, a: Env, b: Env, st: State, to: nat)
    requires e.Bin? && Eval(e, a, st).state.draws <= to && Replays(a, b, st.draws, to)
    ensures Eval(e, b, st) == Eval(e, a, st)
    decreases e, 0
  {
    Replay(e.l, a, b, st, to);
    var x := Eval(e.l, a, st);
    if x.result.Ok? && !ShortCircuits(e.op, x.result.value) {
      Replay(e.r, a, b, x.state, to);
    }
  }

  lemma {:induction false} ReplayArgs(args: seq<Expr>, a: Env, b: Env, st: State, to: nat)
    requires EvalArgs(args, a, st).state.draws <= to && Replays(a, b, st.draws, to)
    ensures EvalArgs(args, b, st) == EvalArgs(args, a, st)
    decreases args, 0
  {
    if args != [] {
      var init := args[..|args| - 1];
      ReplayArgs(init, a, b, st, to);
      var xs := EvalArgs(init, a, st);
      if xs.result.Ok? { Replay(args[|args| - 1], a, b, xs.state, to); }
    }
  }

  lemma ApplyCounts(fn: string, args: seq<Value>, env: Env, st: State)
    ensures Apply(fn, args, env, st).state.draws == if fn == "rand" then st.draws + 1 else st.draws
  {
    hide GATE_OPS;
  }

  lemma ReplayApply(fn: string, args: seq<Value>, a: Env, b: Env, st: State, to: nat)
    requires Apply(fn, args, a, st).state.draws <= to && Replays(a, b, st.draws, to)
    ensures Apply(fn, args, b, st) == Apply(fn, args, a, st)
  {
    ApplyCounts(fn, args, a, st);
    if fn == "filterWhere" {
      ReplayFilter(args, a, b, st);
    }
  }

  lemma ReplayFilter(args: seq<Value>, a: Env, b: Env, st: State)
    requires b == a.(draw := b.draw)
    ensures FilterWhere(args, b, st) == FilterWhere(args, a, st)
  {
    hide GATE_OPS;
    if Arg(args, 0).Arr? && Arg(args, 1).Str? && Arg(args, 2).Str? {
      FilterIgnoresDraws(args[0].items, args[1].s, args[2].s, Arg(args, 3), a, b);
    }
  }

  lemma {:induction false} FilterIgnoresDraws(items: seq<Value>, path: string, op: string, right: Value, a: Env, b: Env)
    requires b == a.(draw := b.draw)
    ensures FilterAll(items, path, op, right, a) == FilterAll(items, path, op, right, b)
  {
    if items != [] {
      FilterIgnoresDraws(items[..|items| - 1], path, op, right, a, b);
    }
  }

  // --------------------------------------------------------------------- draws

  /** Every draw of the step lies in [0, 1). */
  ghost predicate UnitDraws(env: Env) {
    forall k: nat :: 0.0 <= env.draw(k) < 1.0
  }

  /** The generator of a step whose `$random` is `random` makes such draws. */
  lemma StepDrawsAreUnit(env: Env, random: real)
    requires forall k: nat :: env.draw(k) == ExprRandom.Draw(random, k)
    ensures UnitDraws(env)
  {
  }

  /** `rand()` is in [0, 1), and counts one draw. */
  lemma RandUnit(env: Env, st: State)
    requires UnitDraws(env)
    ensures var run := Apply("rand", [], env, st);
      && (exists x: real :: run.result == Ok(Num(Fin(x))) && 0.0 <= x < 1.0)
      && run.state == st.(draws := st.draws + 1)
  {
    assert Rand([], env, st).result == Ok(Num(Fin(env.draw(st.draws))));
  }

  /** The result is one of 0, 1, …, n - 1. */
  predicate IsWholeBelow(result: Result<Value>, n: int) {
    && result.Ok? && result.value.Num? && result.value.n.Fin?
    && var x := result.value.n.r; x.Floor as real == x && 0 <= x.Floor < n
  }

  /** `rand(n)` for a positive whole `n` is a whole number below `n`, and counts one draw. */
  lemma RandBelow(n: int, env: Env, st: State)
    requires UnitDraws(env) && n > 0
    ensures var run := Apply("rand", [Num(Fin(n as real))], env, st);
      && IsWholeBelow(run.result, n)
      && run.state == st.(draws := st.draws + 1)
  {
    var r := env.draw(st.draws);
    ScaledDraw(r, n);
    var m := n as real;
    RandOfPositive(m, env, st);
    WholeFloor(r * m);
  }

  lemma RandOfPositive(m: real, env: Env, st: State)
    requires m > 0.0
    ensures Apply("rand", [Num(Fin(m))], env, st)
         == Run(0, Ok(Num(Fin((env.draw(st.draws) * m).Floor as real))), st.(draws := st.draws + 1))
  {
    var args := [Num(Fin(m))];
    assert LessThan(Fin(0.0), args[0].n);
    assert Times(Fin(env.draw(st.draws)), args[0].n) == Fin(env.draw(st.draws) * m);
  }

  lemma WholeFloor(x: real)
    ensures (x.Floor as real).Floor == x.Floor
  {
  }

  lemma ScaledDraw(r: real, n: int)
    requires 0.0 <= r < 1.0 && n > 0
    ensures 0 <= (r * n as real).Floor < n
  {
    var m := n as real;
    assert 0.0 <= r * m;
    assert (1.0 - r) * m > 0.0;
    assert r * m < m;
  }

  // ---------------------------------------------------------------------- JSON

  /** A value with no `undefined` in it. */
  predicate IsJson(v: Value)
    decreases v
  {
    match v
    case Undef => false
    case Arr(_, items) => forall i | 0 <= i < |items| :: IsJson(items[i])
    case Obj(_, fields) => forall i | 0 <= i < |fields| :: IsJson(fields[i].value)
    case _ => true
  }

  /** `toJsonSafe` leaves no `undefined`, keeps the shape, and done again changes nothing. */
  lemma {:induction false} JsonSafeIsJson(v: Value)
    ensures IsJson(JsonSafe(v)) && ValueSize(JsonSafe(v)) == ValueSize(v) && JsonSafe(JsonSafe(v)) == JsonSafe(v)
    decreases v
  {
    match v
    case Arr(_, items) => JsonItemsAreJson(items);
    case Obj(_, fields) => JsonFieldsAreJson(fields);
    case _ =>
  }

  lemma {:induction false} JsonItemsAreJson(items: seq<Value>)
    ensures var safe := JsonItems(items);
      && |safe| == |items| && (forall i | 0 <= i < |safe| :: IsJson(safe[i]))
      && ItemsSize(safe) == ItemsSize(items) && JsonItems(safe) == safe
    decreases items
  {
    if items != [] {
      JsonSafeIsJson(items[0]);
      JsonItemsAreJson(items[1..]);
      var rest := JsonItems(items[1..]);
      assert JsonItems(items)[1..] == rest;
      assert forall i | 0 < i < |items| :: JsonItems(items)[i] == rest[i - 1];
    }
  }

  lemma {:induction false} JsonFieldsAreJson(fields: seq<Field>)
    ensures var safe := JsonFields(fields);
      && |safe| == |fields| && (forall i | 0 <= i < |safe| :: safe[i].key == fields[i].key && IsJson(safe[i].value))
      && FieldsSize(safe) == FieldsSize(fields) && JsonFields(safe) == safe
    decreases fields
  {
    if fields != [] {
      JsonSafeIsJson(fields[0].value);
      JsonFieldsAreJson(fields[1..]);
      var rest := JsonFields(fields[1..]);
      assert JsonFields(fields)[1..] == rest;
      assert forall i | 0 < i < |fields| :: JsonFields(fields)[i] == rest[i - 1];
    }
  }
}
