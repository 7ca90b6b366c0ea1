/** The evaluator as it runs: one shared fuel budget, one mutable step state. */
module ExprEval {
  import opened ExprAst
  import opened ExprValues
  import opened ExprSemantics

  const MAX_STEPS: nat := 10_000

  /** The evaluation budget; `Spend` fails from the moment it is overdrawn. */
  class Fuel {
    var remaining: int

    constructor (n: int)
      ensures remaining == n
    {
      remaining := n;
    }

    method Spend() returns (ok: bool)
      modifies this
      ensures remaining == old(remaining) - 1 && ok == (remaining >= 0)
    {
      remaining := remaining - 1;
      ok := remaining >= 0;
    }
  }

  /** The draw counter all expressions of one step share, and the next free identity. */
  class StepState {
    var draws: nat
    var refs: nat

    constructor (draws: nat, refs: nat)
      ensures Now() == State(draws, refs)
    {
      this.draws, this.refs := draws, refs;
    }

    function Now(): State
      reads this
    {
      State(draws, refs)
    }
  }

  datatype Ended<+T> = Ended(result: Result<T>) | OutOfFuel

  /** The unlimited `run`, cut off by `fuel` units: what an evaluation ends in. */
  function CutOff<T>(run: Run<T>, fuel: int): Ended<T> {
    if run.cost <= fuel then Ended(run.result) else OutOfFuel
  }

  /** An evaluation that had `before` units ended as the unlimited `run` says. */
  ghost predicate Follows<T>(run: Run<T>, before: int, after: int, st: State, r: Ended<T>) {
    && r == CutOff(run, before)
    && if run.cost <= before then after == before - run.cost && st == run.state else after < 0
  }

  // ------------------------------------------------- costs of plain functions

  /** `cost` units were spent, or the budget was overdrawn on the way. */
  ghost predicate Charged(cost: nat, before: int, after: int, ok: bool) {
    && ok == (cost <= before)
    && if ok then after == before - cost else after < 0
  }

  method DeepEqualNode(a: Value, b: Value, fuel: Fuel) returns (ok: bool, equal: bool)
    modifies fuel
    ensures var v := DeepEqual(a, b);
      Charged(v.cost, old(fuel.remaining), fuel.remaining, ok) && (ok ==> equal == v.equal)
    decreases a
  {
    equal := false;
    ok := fuel.Spend();
    if !ok { return; }
    if Same(a, b) { return true, true; }
    match (a, b)
    case (Arr(_, xs), Arr(_, ys)) => ok, equal := EqualItems(xs, ys, fuel);
    case (Obj(_, fs), Obj(_, gs)) => ok, equal := EqualFields(fs, gs, fuel);
    case _ =>
  }

  method EqualItems(xs: seq<Value>, ys: seq<Value>, fuel: Fuel) returns (ok: bool, equal: bool)
    requires fuel.remaining >= 0
    modifies fuel
    ensures |xs| != |ys| ==> ok && !equal && fuel.remaining == old(fuel.remaining)
    ensures |xs| == |ys| ==> var v := ItemsEqual(xs, ys);
      Charged(v.cost, old(fuel.remaining), fuel.remaining, ok) && (ok ==> equal == v.equal)
    decreases xs
  {
    if |xs| != |ys| { return true, false; }
    hide DeepEqual, FieldsEqual;
    var i := 0;
    while i < |xs|
      invariant i <= |xs| && 0 <= fuel.remaining <= old(fuel.remaining)
      invariant var v, rest := ItemsEqual(xs, ys), ItemsEqual(xs[i..], ys[i..]);
        v.equal == rest.equal && v.cost == old(fuel.remaining) - fuel.remaining + rest.cost
    {
      assert xs[i..][1..] == xs[i + 1..] && ys[i..][1..] == ys[i + 1..];
      ok, equal := DeepEqualNode(xs[i], ys[i], fuel);
      if !ok || !equal { return; }
      i := i + 1;
    }
    return true, true;
  }

  method EqualFields(fs: seq<Field>, gs: seq<Field>, fuel: Fuel) returns (ok: bool, equal: bool)
    requires fuel.remaining >= 0
    modifies fuel
    ensures |fs| != |gs| ==> ok && !equal && fuel.remaining == old(fuel.remaining)
    ensures |fs| == |gs| ==> var v := FieldsEqual(fs, gs);
      Charged(v.cost, old(fuel.remaining), fuel.remaining, ok) && (ok ==> equal == v.equal)
    decreases fs
  {
    if |fs| != |gs| { return true, false; }
    hide DeepEqual, FieldOf, ItemsEqual;
    var i := 0;
    while i < |fs|
      invariant i <= |fs| && 0 <= fuel.remaining <= old(fuel.remaining)
      invariant var v, rest := FieldsEqual(fs, gs), FieldsEqual(fs[i..], gs);
        v.equal == rest.equal && v.cost == old(fuel.remaining) - fuel.remaining + rest.cost
    {
      assert fs[i..][1..] == fs[i + 1..];
      var other := FieldOf(gs, fs[i].key);
      if other.Missing? { return true, false; }
      ok, equal := DeepEqualNode(fs[i].value, other.value, fuel);
      if !ok || !equal { return; }
      i := i + 1;
    }
    return true, true;
  }

  method SplitPath(path: string) returns (segments: seq<string>)
    ensures segments == Segments(path)
  {
    segments := [];
    var rest := path;
    while DotAt(rest) < |rest|
      invariant Segments(path) == segments + Segments(rest)
      decreases |rest|
    {
      var k := DotAt(rest);
      segments, rest := segments + [rest[..k]], rest[k + 1..];
    }
    segments := segments + [rest];
  }

  method WalkPath(root: Value, path: string, fuel: Fuel) returns (ok: bool, at: Lookup)
    requires fuel.remaining >= 0
    modifies fuel
    ensures var w := PathWalk(root, path);
      Charged(w.cost, old(fuel.remaining), fuel.remaining, ok) && (ok ==> at == w.at)
  {
    if path == "" { return true, Found(root); }
    var segments := SplitPath(path);
    var cur, i := root, 0;
    while i < |segments|
      invariant i <= |segments| && 0 <= fuel.remaining <= old(fuel.remaining)
      invariant var w, rest := WalkFrom(root, segments), WalkFrom(cur, segments[i..]);
        w.at == rest.at && w.cost == old(fuel.remaining) - fuel.remaining + rest.cost
    {
      assert segments[i..][1..] == segments[i + 1..];
      ok := fuel.Spend();
      if !ok { return false, Missing; }
      var next := PathStep(cur, segments[i]);
      if next.Missing? { return true, Missing; }
      cur, i := next.value, i + 1;
    }
    return true, Found(cur);
  }

  method WalkGet(root: Value, path: string, fuel: Fuel) returns (ok: bool, at: Lookup)
    requires fuel.remaining >= 0
    modifies fuel
    ensures var w := GetFrom(root, Segments(path));
      Charged(w.cost, old(fuel.remaining), fuel.remaining, ok) && (ok ==> at == w.at)
  {
    var segments := SplitPath(path);
    var cur, i := root, 0;
    while i < |segments|
      invariant i <= |segments| && 0 <= fuel.remaining <= old(fuel.remaining)
      invariant var w, rest := GetFrom(root, segments), GetFrom(cur, segments[i..]);
        w.at == rest.at && w.cost == old(fuel.remaining) - fuel.remaining + rest.cost
    {
      assert segments[i..][1..] == segments[i + 1..];
      ok := fuel.Spend();
      if !ok { return false, Missing; }
      var next := OwnProperty(cur, segments[i]);
      if next.Missing? { return true, Missing; }
      cur, i := next.value, i + 1;
    }
    return true, if cur == Undef then Missing else Found(cur);
  }

  method PluckItems(items: seq<Value>, path: string, fuel: Fuel) returns (ok: bool, out: seq<Value>)
    requires fuel.remaining >= 0
    modifies fuel
    ensures var p := PluckAll(items, path);
      Charged(p.cost, old(fuel.remaining), fuel.remaining, ok) && (ok ==> out == p.items)
  {
    out := [];
    for i := 0 to |items|
      invariant 0 <= fuel.remaining <= old(fuel.remaining)
      invariant PluckAll(items[..i], path) == Plucked(old(fuel.remaining) - fuel.remaining, out)
    {
      PluckGrows(items, i, path);
      ok := fuel.Spend();
      if !ok { return; }
      var at;
      ok, at := WalkPath(items[i], path, fuel);
      if !ok { return; }
      out := out + [LookupOr(at, Undef)];
    }
    assert items[..|items|] == items;
    ok := true;
  }

  /** A prefix of the elements never costs more than all of them. */
  lemma PluckGrows(items: seq<Value>, i: nat, path: string)
    requires i < |items|
    ensures items[..i + 1][..i] == items[..i]
    ensures PluckAll(items[..i + 1], path).cost <= PluckAll(items, path).cost
    decreases |items| - i
  {
    assert items[..|items|] == items;
    if i + 1 < |items| {
      PluckGrows(items, i + 1, path);
    }
  }

  method FilterItems(items: seq<Value>, path: string, op: string, right: Value, env: Env, fuel: Fuel)
    returns (ok: bool, out: seq<Value>)
    requires fuel.remaining >= 0
    modifies fuel
    ensures var p := FilterAll(items, path, op, right, env);
      Charged(p.cost, old(fuel.remaining), fuel.remaining, ok) && (ok ==> out == p.items)
  {
    out := [];
    assert FilterAll(items[..0], path, op, right, env) == Plucked(0, []);
    hide FilterAll, PathWalk, Keeps;
    for i := 0 to |items|
      invariant 0 <= fuel.remaining <= old(fuel.remaining)
      invariant FilterAll(items[..i], path, op, right, env) == Plucked(old(fuel.remaining) - fuel.remaining, out)
    {
      FilterGrows(items, i, path, op, right, env);
      FilterOne(items, i, path, op, right, env);
      var keep;
      ok, keep := FilterItem(items[i], path, op, right, env, fuel);
      if !ok { return; }
      if keep { out := out + [items[i]]; }
    }
    assert items[..|items|] == items;
    ok := true;
  }

  predicate Keeps(item: Value, path: string, op: string, right: Value, env: Env) {
    var at := PathWalk(item, path).at;
    env.gate(op, at.Found?, LookupOr(at, Undef), right)
  }

  method FilterItem(item: Value, path: string, op: string, right: Value, env: Env, fuel: Fuel)
    returns (ok: bool, keep: bool)
    requires fuel.remaining >= 0
    modifies fuel
    ensures Charged(1 + PathWalk(item, path).cost, old(fuel.remaining), fuel.remaining, ok)
    ensures ok ==> keep == Keeps(item, path, op, right, env)
  {
    hide PathWalk;
    keep := false;
    ok := fuel.Spend();
    if !ok { return; }
    var at;
    ok, at := WalkPath(item, path, fuel);
    if !ok { return; }
    keep := env.gate(op, at.Found?, LookupOr(at, Undef), right);
  }

  lemma FilterOne(items: seq<Value>, i: nat, path: string, op: string, right: Value, env: Env)
    requires i < |items|
    ensures var before := FilterAll(items[..i], path, op, right, env);
      FilterAll(items[..i + 1], path, op, right, env) == Plucked(before.cost + 1 + PathWalk(items[i], path).cost,
        before.items + if Keeps(items[i], path, op, right, env) then [items[i]] else [])
  {
    assert items[..i + 1][..i] == items[..i];
  }

  lemma FilterGrows(items: seq<Value>, i: nat, path: string, op: string, right: Value, env: Env)
    requires i < |items|
    ensures items[..i + 1][..i] == items[..i]
    ensures FilterAll(items[..i + 1], path, op, right, env).cost <= FilterAll(items, path, op, right, env).cost
    decreases |items| - i
  {
    assert items[..|items|] == items;
    if i + 1 < |items| {
      FilterGrows(items, i + 1, path, op, right, env);
    }
  }

  /** One unit for every value in the tree. */
  method ToJsonSafe(v: Value, fuel: Fuel) returns (ok: bool, out: Value)
    modifies fuel
    ensures Charged(ValueSize(v), old(fuel.remaining), fuel.remaining, ok) && (ok ==> out == JsonSafe(v))
    decreases v
  {
    out := v;
    ok := fuel.Spend();
    if !ok { return; }
    match v
    case Undef => out := Null;
    case Arr(_, items) =>
      var safe;
      ok, safe := ItemsToJsonSafe(items, fuel);
      out := Arr(0, safe);
    case Obj(_, fields) =>
      var safe;
      ok, safe := FieldsToJsonSafe(fields, fuel);
      out := Obj(0, safe);
    case _ =>
  }

  method ItemsToJsonSafe(items: seq<Value>, fuel: Fuel) returns (ok: bool, safe: seq<Value>)
    requires fuel.remaining >= 0
    modifies fuel
    ensures Charged(ItemsSize(items), old(fuel.remaining), fuel.remaining, ok) && (ok ==> safe == JsonItems(items))
    decreases items
  {
    safe := [];
    var i := 0;
    while i < |items|
      invariant i <= |items| && 0 <= fuel.remaining <= old(fuel.remaining)
      invariant ItemsSize(items) == old(fuel.remaining) - fuel.remaining + ItemsSize(items[i..])
      invariant JsonItems(items) == safe + JsonItems(items[i..])
    {
      assert items[i..][1..] == items[i + 1..];
      var out;
      ok, out := ToJsonSafe(items[i], fuel);
      if !ok { return; }
      safe, i := safe + [out], i + 1;
    }
    ok := true;
  }

  method FieldsToJsonSafe(fields: seq<Field>, fuel: Fuel) returns (ok: bool, safe: seq<Field>)
    requires fuel.remaining >= 0
    modifies fuel
    ensures Charged(FieldsSize(fields), old(fuel.remaining), fuel.remaining, ok) && (ok ==> safe == JsonFields(fields))
    decreases fields
  {
    safe := [];
    var i := 0;
    while i < |fields|
      invariant i <= |fields| && 0 <= fuel.remaining <= old(fuel.remaining)
      invariant FieldsSize(fields) == old(fuel.remaining) - fuel.remaining + FieldsSize(fields[i..])
      invariant JsonFields(fields) == safe + JsonFields(fields[i..])
    {
      assert fields[i..][1..] == fields[i + 1..];
      var out;
      ok, out := ToJsonSafe(fields[i].value, fuel);
      if !ok { return; }
      safe, i := safe + [Field(fields[i].key, out)], i + 1;
    }
    ok := true;
  }

  /** The unmodelled part of the table: its cost, one unit at a time. */
  method ChargeHost(cost: nat, fuel: Fuel) returns (ok: bool)
    requires fuel.remaining >= 0
    modifies fuel
    ensures Charged(cost, old(fuel.remaining), fuel.remaining, ok)
  {
    for i := 0 to cost
      invariant 0 <= fuel.remaining == old(fuel.remaining) - i
    {
      ok := fuel.Spend();
      if !ok { return; }
    }
    ok := true;
  }

  // --------------------------------------------------------------- evaluation

  method NextDraw(env: Env, step: StepState) returns (r: real)
    modifies step
    ensures r == env.draw(old(step.draws)) && step.Now() == old(step.Now()).(draws := old(step.draws) + 1)
  {
    r := env.draw(step.draws);
    step.draws := step.draws + 1;
  }

  method ApplyNode(fn: string, args: seq<Value>, env: Env, step: StepState, fuel: Fuel) returns (r: Ended<Value>)
    requires fuel.remaining >= 0
    modifies step, fuel
    ensures Follows(Apply(fn, args, env, old(step.Now())), old(fuel.remaining), fuel.remaining, step.Now(), r)
  {
    if fn == "rand" {
      var draw := NextDraw(env, step);
      if args == [] { return Ended(Ok(Num(Fin(draw)))); }
      if !args[0].Num? || !LessThan(Fin(0.0), args[0].n) { return Ended(Err(TypeFault)); }
      return Ended(Ok(Num(FloorOf(Times(Fin(draw), args[0].n)))));
    } else if fn == "now" {
      return Ended(Ok(env.roots(RootNow)));
    } else if fn == "pluck" {
      r := PluckNode(args, step, fuel);
    } else if fn == "filterWhere" {
      r := FilterNode(args, env, step, fuel);
    } else if fn == "get" {
      if !Arg(args, 1).Str? { return Ended(Err(TypeFault)); }
      var ok, at := WalkGet(Arg(args, 0), args[1].s, fuel);
      return if ok then Ended(Ok(LookupOr(at, Arg(args, 2)))) else OutOfFuel;
    } else if fn == "toJson" {
      var ok, safe := ToJsonSafe(Arg(args, 0), fuel);
      if !ok { return OutOfFuel; }
      var text := env.jsonText(safe);
      return Ended(if env.utf8Length(text) > MAX_STRING_BYTES then Err(LimitFault) else Ok(Str(text)));
    } else if fn in env.hostTable {
      r := HostNode(fn, args, env, step, fuel);
    } else {
      return Ended(Err(UnknownFunction));
    }
  }

  method PluckNode(args: seq<Value>, step: StepState, fuel: Fuel) returns (r: Ended<Value>)
    requires fuel.remaining >= 0
    modifies step, fuel
    ensures Follows(Pluck(args, old(step.Now())), old(fuel.remaining), fuel.remaining, step.Now(), r)
  {
    if !Arg(args, 0).Arr? { return Ended(Err(TypeFault)); }
    if |args[0].items| > MAX_ARRAY_LENGTH { return Ended(Err(LimitFault)); }
    if !Arg(args, 1).Str? { return Ended(Err(TypeFault)); }
    var ok, out := PluckItems(args[0].items, args[1].s, fuel);
    if !ok { return OutOfFuel; }
    r := Ended(Ok(Arr(step.refs, out)));
    step.refs := step.refs + 1;
  }

  method FilterNode(args: seq<Value>, env: Env, step: StepState, fuel: Fuel) returns (r: Ended<Value>)
    requires fuel.remaining >= 0
    modifies step, fuel
    ensures Follows(FilterWhere(args, env, old(step.Now())), old(fuel.remaining), fuel.remaining, step.Now(), r)
  {
    hide GATE_OPS;
    if !Arg(args, 0).Arr? { return Ended(Err(TypeFault)); }
    if |args[0].items| > MAX_ARRAY_LENGTH { return Ended(Err(LimitFault)); }
    if !Arg(args, 1).Str? || !Arg(args, 2).Str? { return Ended(Err(TypeFault)); }
    if args[2].s !in GATE_OPS { return Ended(Err(TypeFault)); }
    var ok, out := FilterItems(args[0].items, args[1].s, args[2].s, Arg(args, 3), env, fuel);
    if !ok { return OutOfFuel; }
    r := Ended(Ok(Arr(step.refs, out)));
    step.refs := step.refs + 1;
  }

  method HostNode(fn: string, args: seq<Value>, env: Env, step: StepState, fuel: Fuel) returns (r: Ended<Value>)
    requires fuel.remaining >= 0 && fn in env.hostTable
    modifies step, fuel
    ensures Follows(HostCall(fn, args, env, old(step.Now())), old(fuel.remaining), fuel.remaining, step.Now(), r)
  {
    var h := env.hostTable[fn](args, step.refs);
    var ok := ChargeHost(h.cost, fuel);
    if !ok { return OutOfFuel; }
    step.refs := h.refs;
    r := Ended(HostVerdict(h.result));
  }

  method BinNode(op: BinOp, l: Value, r: Value, env: Env, step: StepState, fuel: Fuel) returns (out: Ended<Value>)
    requires fuel.remaining >= 0
    modifies fuel
    ensures Follows(BinRun(op, l, r, env, step.Now()), old(fuel.remaining), fuel.remaining, step.Now(), out)
  {
    match op
    case Add => return Ended(AddValues(l, r, env));
    case Eq =>
      var ok, equal := DeepEqualNode(l, r, fuel);
      return if ok then Ended(Ok(Bool(equal))) else OutOfFuel;
    case Ne =>
      var ok, equal := DeepEqualNode(l, r, fuel);
      return if ok then Ended(Ok(Bool(!equal))) else OutOfFuel;
    case AndAlso => return Ended(Err(TypeFault));
    case OrElse => return Ended(Err(TypeFault));
    case _ =>
      if !l.Num? || !r.Num? { return Ended(Err(TypeFault)); }
      return Ended(Ok(Arith(op, l.n, r.n)));
  }

  predicate Stopped<T>(r: Ended<T>) {
    r.OutOfFuel? || r.result.Err?
  }

  method EvalNode(e: Expr, env: Env, step: StepState, fuel: Fuel) returns (r: Ended<Value>)
    modifies step, fuel
    ensures Follows(Eval(e, env, old(step.Now())), old(fuel.remaining), fuel.remaining, step.Now(), r)
    decreases e, 1
  {
    var ok := fuel.Spend();
    if !ok { return OutOfFuel; }
    match e
    case Lit(v) => return Ended(Ok(LiteralValue(v)));
    case Root(name) => return Ended(Ok(env.roots(name)));
    case Member(on, key) =>
      r := EvalNode(on, env, step, fuel);
      if Stopped(r) { return; }
      return Ended(Ok(GetMember(r.result.value, key)));
    case Index(on, idx) => r := EvalIndex(e, env, step, fuel);
    case Unary(op, on) =>
      r := EvalNode(on, env, step, fuel);
      if Stopped(r) { return; }
      return Ended(UnaryValue(op, r.result.value));
    case Bin(op, left, right) => r := EvalBinary(e, env, step, fuel);
    case Cond(c, a, b) => r := EvalCond(e, env, step, fuel);
    case Call(fn, args) => r := EvalCall(e, env, step, fuel);
  }

  // The four larger cases, entered with the node's own unit already spent.

  method EvalIndex(e: Expr, env: Env, step: StepState, fuel: Fuel) returns (r: Ended<Value>)
    requires e.Index? && fuel.remaining >= 0
    modifies step, fuel
    ensures Follows(Eval(e, env, old(step.Now())), old(fuel.remaining) + 1, fuel.remaining, step.Now(), r)
    decreases e, 0
  {
    r := EvalNode(e.on, env, step, fuel);
    if Stopped(r) { return; }
    var o := r.result.value;
    r := EvalNode(e.idx, env, step, fuel);
    if Stopped(r) { return; }
    return Ended(Ok(GetIndex(o, r.result.value)));
  }

  method EvalBinary(e: Expr, env: Env, step: StepState, fuel: Fuel) returns (r: Ended<Value>)
    requires e.Bin? && fuel.remaining >= 0
    modifies step, fuel
    ensures Follows(Eval(e, env, old(step.Now())), old(fuel.remaining) + 1, fuel.remaining, step.Now(), r)
    decreases e, 0
  {
    r := EvalNode(e.l, env, step, fuel);
    if Stopped(r) || ShortCircuits(e.op, r.result.value) { return; }
    var l := r.result.value;
    r := EvalNode(e.r, env, step, fuel);
    if Stopped(r) || e.op == AndAlso || e.op == OrElse { return; }
    r := BinNode(e.op, l, r.result.value, env, step, fuel);
  }

  method EvalCond(e: Expr, env: Env, step: StepState, fuel: Fuel) returns (r: Ended<Value>)
    requires e.Cond? && fuel.remaining >= 0
    modifies step, fuel
    ensures Follows(Eval(e, env, old(step.Now())), old(fuel.remaining) + 1, fuel.remaining, step.Now(), r)
    decreases e, 0
  {
    r := EvalNode(e.c, env, step, fuel);
    if Stopped(r) { return; }
    if Truthy(r.result.value) {
      r := EvalNode(e.a, env, step, fuel);
    } else {
      r := EvalNode(e.b, env, step, fuel);
    }
  }

  method EvalCall(e: Expr, env: Env, step: StepState, fuel: Fuel) returns (r: Ended<Value>)
    requires e.Call? && fuel.remaining >= 0
    modifies step, fuel
    ensures Follows(Eval(e, env, old(step.Now())), old(fuel.remaining) + 1, fuel.remaining, step.Now(), r)
    decreases e, 0
  {
    var vs := EvalAll(e.args, env, step, fuel);
    if vs.OutOfFuel? { return OutOfFuel; }
    if vs.result.Err? { return Ended(Err(vs.result.fault)); }
    var ok := fuel.Spend();
    if !ok { return OutOfFuel; }
    r := ApplyNode(e.fn, vs.result.value, env, step, fuel);
  }

  method EvalAll(args: seq<Expr>, env: Env, step: StepState, fuel: Fuel) returns (r: Ended<seq<Value>>)
    requires fuel.remaining >= 0
    modifies step, fuel
    ensures Follows(EvalArgs(args, env, old(step.Now())), old(fuel.remaining), fuel.remaining, step.Now(), r)
    decreases args, 0
  {
    var values := [];
    var i := 0;
    while i < |args|
      invariant i <= |args| && 0 <= fuel.remaining <= old(fuel.remaining)
      invariant EvalArgs(args[..i], env, old(step.Now()))
             == Run(old(fuel.remaining) - fuel.remaining, Ok(values), step.Now())
    {
      ArgsGrow(args, i, env, old(step.Now()));
      var v := EvalNode(args[i], env, step, fuel);
      if v.OutOfFuel? { return OutOfFuel; }
      if v.result.Err? { return Ended(Err(v.result.fault)); }
      values := values + [v.result.value];
      i := i + 1;
    }
    assert args[..|args|] == args;
    return Ended(Ok(values));
  }

  /** All the arguments cost at least what the first `i + 1` do, and stop where those stop. */
  lemma ArgsGrow(args: seq<Expr>, i: nat, env: Env, st: State)
    requires i < |args|
    ensures args[..i + 1][..i] == args[..i]
    ensures EvalArgs(args[..i + 1], env, st).cost <= EvalArgs(args, env, st).cost
    ensures var run := EvalArgs(args[..i + 1], env, st); run.result.Err? ==> EvalArgs(args, env, st) == run
    decreases |args| - i
  {
    hide EvalArgs;
    if i + 1 < |args| {
      assert args[..i + 2][..i + 1] == args[..i + 1];
      ArgsOneMore(args[..i + 2], env, st);
      ArgsGrow(args, i + 1, env, st);
    } else {
      assert args[..i + 1] == args;
    }
  }

  lemma ArgsOneMore(args: seq<Expr>, env: Env, st: State)
    requires args != []
    ensures var run, all := EvalArgs(args[..|args| - 1], env, st), EvalArgs(args, env, st);
      run.cost <= all.cost && (run.result.Err? ==> all == run)
  {
  }

  /**
   * `evaluate`: a fresh budget for one expression. Its answer is the expression's
   * meaning when the cost fits the budget, and exhaustion exactly when it does not.
   */
  method Evaluate(ast: Expr, env: Env, step: StepState, budget: int) returns (r: Ended<Value>)
    modifies step
    ensures r == CutOff(Eval(ast, env, old(step.Now())), budget)
    ensures r.Ended? ==> step.Now() == Eval(ast, env, old(step.Now())).state
  {
    var fuel := new Fuel(budget);
    r := EvalNode(ast, env, step, fuel);
  }
}
