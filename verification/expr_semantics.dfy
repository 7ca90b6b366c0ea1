/**
 * What an expression means and what finding out costs, with no fuel limit: every
 * run has a cost, a result and the step state it leaves. The metered evaluator of
 * `ExprEval` is proved to be this, cut off at its fuel.
 */
module ExprSemantics {
  import opened ExprText
  import opened ExprAst
  import opened ExprValues

  /** The step's draw counter, and the next unused array or object identity. */
  datatype State = State(draws: nat, refs: nat)

  datatype Run<+T> = Run(cost: nat, result: Result<T>, state: State)

  /** A call into the part of the function table that is not modelled here. */
  datatype HostRun = HostRun(cost: nat, result: HostResult, refs: nat)
  datatype HostResult = HostOk(value: Value) | HostTypeFault | HostLimitFault

  /** Everything an evaluation reads: the scope, the k-th draw of the step, and the host. */
  datatype Env = Env(
    roots: RootName -> Value,
    draw: nat -> real,
    hostTable: map<string, (seq<Value>, nat) -> HostRun>,
    numberText: Number -> string,
    jsonText: Value -> string,
    utf8Length: string -> nat,
    gate: (string, bool, Value, Value) -> bool)

  const GATE_OPS: set<string> := {
    "eq", "ne", "lt", "lte", "gt", "gte", "contains", "notContains", "startsWith", "endsWith",
    "exists", "notExists", "isEmpty", "notEmpty", "length" }

  // ---------------------------------------------------------- deep comparison

  datatype Verdict = Verdict(cost: nat, equal: bool)

  function DeepEqual(a: Value, b: Value): (v: Verdict)
    ensures 1 <= v.cost <= ValueSize(a)
    decreases a
  {
    if Same(a, b) then Verdict(1, true) else
    match (a, b)
    case (Arr(_, xs), Arr(_, ys)) =>
      if |xs| != |ys| then Verdict(1, false) else
      var v := ItemsEqual(xs, ys); Verdict(1 + v.cost, v.equal)
    case (Obj(_, fs), Obj(_, gs)) =>
      if |fs| != |gs| then Verdict(1, false) else
      var v := FieldsEqual(fs, gs); Verdict(1 + v.cost, v.equal)
    case _ => Verdict(1, false)
  }

  /** Element by element, up to the first difference. */
  function ItemsEqual(xs: seq<Value>, ys: seq<Value>): (v: Verdict)
    requires |xs| == |ys|
    ensures v.cost <= ItemsSize(xs)
    decreases xs
  {
    if xs == [] then Verdict(0, true) else
    var first := DeepEqual(xs[0], ys[0]);
    if !first.equal then first else
    var rest := ItemsEqual(xs[1..], ys[1..]);
    Verdict(first.cost + rest.cost, rest.equal)
  }

  /** Key by key of the left object, up to the first difference. */
  function FieldsEqual(fs: seq<Field>, gs: seq<Field>): (v: Verdict)
    ensures v.cost <= FieldsSize(fs)
    decreases fs
  {
    if fs == [] then Verdict(0, true) else
    match FieldOf(gs, fs[0].key)
    case Missing => Verdict(0, false)
    case Found(other) =>
      var first := DeepEqual(fs[0].value, other);
      if !first.equal then first else
      var rest := FieldsEqual(fs[1..], gs);
      Verdict(first.cost + rest.cost, rest.equal)
  }

  // ------------------------------------------------------------------- paths

  /** `s` cut at every dot. */
  function Segments(s: string): (r: seq<string>)
    ensures r != []
  {
    var k := DotAt(s);
    if k == |s| then [s] else [s[..k]] + Segments(s[k + 1..])
  }

  function DotAt(s: string): (k: nat)
    ensures k <= |s| && (k < |s| ==> s[k] == '.') && forall i | 0 <= i < k :: s[i] != '.'
  {
    if s == "" || s[0] == '.' then 0 else 1 + DotAt(s[1..])
  }

  /** One step of `pathWalk`: an array takes any digits as an index, an object its own key. */
  function PathStep(cur: Value, segment: string): Lookup {
    match cur
    case Arr(_, items) =>
      if segment != "" && AllDigits(segment) && DigitsValue(segment) < |items|
      then Found(items[DigitsValue(segment)]) else Missing
    case Obj(_, fields) => FieldOf(fields, segment)
    case _ => Missing
  }

  datatype Walk = Walk(cost: nat, at: Lookup)

  function WalkFrom(cur: Value, segments: seq<string>): (w: Walk)
    ensures w.cost <= |segments|
    decreases |segments|
  {
    if segments == [] then Walk(0, Found(cur)) else
    match PathStep(cur, segments[0])
    case Missing => Walk(1, Missing)
    case Found(next) =>
      var w := WalkFrom(next, segments[1..]); Walk(1 + w.cost, w.at)
  }

  /** The empty path means the value itself. */
  function PathWalk(root: Value, path: string): Walk {
    if path == "" then Walk(0, Found(root)) else WalkFrom(root, Segments(path))
  }

  function LookupOr(at: Lookup, default: Value): Value {
    match at case Found(v) => v case Missing => default
  }

  /** `get`'s own walk: own properties at every step, and `undefined` falls back too. */
  function GetFrom(cur: Value, segments: seq<string>): (w: Walk)
    ensures w.cost <= |segments|
    decreases |segments|
  {
    if segments == [] then Walk(0, if cur == Undef then Missing else Found(cur)) else
    match OwnProperty(cur, segments[0])
    case Missing => Walk(1, Missing)
    case Found(next) =>
      var w := GetFrom(next, segments[1..]); Walk(1 + w.cost, w.at)
  }

  // -------------------------------------------------- the metered table entries

  datatype Plucked = Plucked(cost: nat, items: seq<Value>)

  function PluckAll(items: seq<Value>, path: string): (p: Plucked)
    ensures |p.items| == |items|
  {
    if items == [] then Plucked(0, []) else
    var init := PluckAll(items[..|items| - 1], path);
    var w := PathWalk(items[|items| - 1], path);
    Plucked(init.cost + 1 + w.cost, init.items + [LookupOr(w.at, Undef)])
  }

  function FilterAll(items: seq<Value>, path: string, op: string, right: Value, env: Env): (p: Plucked)
    ensures |p.items| <= |items|
  {
    if items == [] then Plucked(0, []) else
    var init := FilterAll(items[..|items| - 1], path, op, right, env);
    var last := items[|items| - 1];
    var w := PathWalk(last, path);
    var kept := env.gate(op, w.at.Found?, LookupOr(w.at, Undef), right);
    Plucked(init.cost + 1 + w.cost, init.items + if kept then [last] else [])
  }

  /** The value `toJsonSafe` builds; fresh identities do not matter to its text. */
  function JsonSafe(v: Value): Value
    decreases v
  {
    match v
    case Undef => Null
    case Arr(_, items) => Arr(0, JsonItems(items))
    case Obj(_, fields) => Obj(0, JsonFields(fields))
    case _ => v
  }

  function JsonItems(items: seq<Value>): (r: seq<Value>)
    decreases items
  {
    if items == [] then [] else [JsonSafe(items[0])] + JsonItems(items[1..])
  }

  function JsonFields(fields: seq<Field>): (r: seq<Field>)
    decreases fields
  {
    if fields == [] then [] else [Field(fields[0].key, JsonSafe(fields[0].value))] + JsonFields(fields[1..])
  }

  function Arg(args: seq<Value>, i: nat): Value {
    if i < |args| then args[i] else Undef
  }

  function Pluck(args: seq<Value>, st: State): Run<Value> {
    if !Arg(args, 0).Arr? then Run(0, Err(TypeFault), st)
    else if |args[0].items| > MAX_ARRAY_LENGTH then Run(0, Err(LimitFault), st)
    else if !Arg(args, 1).Str? then Run(0, Err(TypeFault), st)
    else
      var p := PluckAll(args[0].items, args[1].s);
      Run(p.cost, Ok(Arr(st.refs, p.items)), st.(refs := st.refs + 1))
  }

  function FilterWhere(args: seq<Value>, env: Env, st: State): Run<Value> {
    if !Arg(args, 0).Arr? then Run(0, Err(TypeFault), st)
    else if |args[0].items| > MAX_ARRAY_LENGTH then Run(0, Err(LimitFault), st)
    else if !Arg(args, 1).Str? || !Arg(args, 2).Str? || args[2].s !in GATE_OPS then Run(0, Err(TypeFault), st)
    else
      var p := FilterAll(args[0].items, args[1].s, args[2].s, Arg(args, 3), env);
      Run(p.cost, Ok(Arr(st.refs, p.items)), st.(refs := st.refs + 1))
  }

  function Get(args: seq<Value>, st: State): Run<Value> {
    if !Arg(args, 1).Str? then Run(0, Err(TypeFault), st) else
    var w := GetFrom(Arg(args, 0), Segments(args[1].s));
    Run(w.cost, Ok(LookupOr(w.at, Arg(args, 2))), st)
  }

  function ToJson(args: seq<Value>, env: Env, st: State): Run<Value> {
    var text := env.jsonText(JsonSafe(Arg(args, 0)));
    Run(ValueSize(Arg(args, 0)),
        if env.utf8Length(text) > MAX_STRING_BYTES then Err(LimitFault) else Ok(Str(text)), st)
  }

  /** `rand()` and `rand(n)`: the next draw, counted even when `n` is refused. */
  function Rand(args: seq<Value>, env: Env, st: State): Run<Value> {
    var r := env.draw(st.draws);
    var st' := st.(draws := st.draws + 1);
    if args == [] then Run(0, Ok(Num(Fin(r))), st')
    else if !args[0].Num? || !LessThan(Fin(0.0), args[0].n) then Run(0, Err(TypeFault), st')
    else Run(0, Ok(Num(FloorOf(Times(Fin(r), args[0].n)))), st')
  }

  function HostVerdict(r: HostResult): Result<Value> {
    match r
    case HostOk(v) => Ok(v)
    case HostTypeFault => Err(TypeFault)
    case HostLimitFault => Err(LimitFault)
  }

  function HostCall(fn: string, args: seq<Value>, env: Env, st: State): Run<Value>
    requires fn in env.hostTable
  {
    var h := env.hostTable[fn](args, st.refs);
    Run(h.cost, HostVerdict(h.result), st.(refs := h.refs))
  }

  /** The table entry `fn` applied to evaluated arguments. */
  function Apply(fn: string, args: seq<Value>, env: Env, st: State): Run<Value> {
    if fn == "rand" then Rand(args, env, st)
    else if fn == "now" then Run(0, Ok(env.roots(RootNow)), st)
    else if fn == "pluck" then Pluck(args, st)
    else if fn == "filterWhere" then FilterWhere(args, env, st)
    else if fn == "get" then Get(args, st)
    else if fn == "toJson" then ToJson(args, env, st)
    else if fn in env.hostTable then
      HostCall(fn, args, env, st)
    else Run(0, Err(UnknownFunction), st)
  }

  /** The names the table answers to. */
  predicate Known(fn: string, env: Env) {
    fn in {"rand", "now", "pluck", "filterWhere", "get", "toJson"} || fn in env.hostTable
  }

  // --------------------------------------------------------------- evaluation

  function Concat(l: Value, r: Value, env: Env): Result<Value>
    requires (l.Str? || l.Num?) && (r.Str? || r.Num?)
  {
    var s := (if l.Str? then l.s else env.numberText(l.n)) + (if r.Str? then r.s else env.numberText(r.n));
    if env.utf8Length(s) > MAX_STRING_BYTES then Err(LimitFault) else Ok(Str(s))
  }

  function AddValues(l: Value, r: Value, env: Env): Result<Value> {
    if l.Num? && r.Num? then Ok(Num(Sum(l.n, r.n)))
    else if (l.Str? || r.Str?) && (l.Str? || l.Num?) && (r.Str? || r.Num?) then Concat(l, r, env)
    else Err(TypeFault)
  }

  function Arith(op: BinOp, x: Number, y: Number): Value
    requires op in {Sub, Mul, Div, Mod, Lt, Le, Gt, Ge}
  {
    match op
    case Sub => Num(Difference(x, y))
    case Mul => Num(Times(x, y))
    case Div => Num(Over(x, y))
    case Mod => Num(Remainder(x, y))
    case Lt => Bool(LessThan(x, y))
    case Le => Bool(LessThan(x, y) || SameNumber(x, y))
    case Gt => Bool(LessThan(y, x))
    case Ge => Bool(LessThan(y, x) || SameNumber(x, y))
  }

  /** `evalBin`: the strict operators. Only a comparison for equality costs anything. */
  function BinRun(op: BinOp, l: Value, r: Value, env: Env, st: State): Run<Value> {
    match op
    case Add => Run(0, AddValues(l, r, env), st)
    case Eq => var v := DeepEqual(l, r); Run(v.cost, Ok(Bool(v.equal)), st)
    case Ne => var v := DeepEqual(l, r); Run(v.cost, Ok(Bool(!v.equal)), st)
    case AndAlso => Run(0, Err(TypeFault), st)
    case OrElse => Run(0, Err(TypeFault), st)
    case _ => if l.Num? && r.Num? then Run(0, Ok(Arith(op, l.n, r.n)), st) else Run(0, Err(TypeFault), st)
  }

  function UnaryValue(op: UnOp, v: Value): Result<Value> {
    match op
    case Not => Ok(Bool(!Truthy(v)))
    case Neg => if v.Num? then Ok(Num(Negate(v.n))) else Err(TypeFault)
  }

  /** `run`, after `cost` units already spent. */
  function Paid<T>(cost: nat, run: Run<T>): Run<T> {
    run.(cost := cost + run.cost)
  }

  function Eval(e: Expr, env: Env, st: State): (run: Run<Value>)
    ensures run.cost >= 1 && run.state.draws >= st.draws
    decreases e
  {
    match e
    case Lit(v) => Run(1, Ok(LiteralValue(v)), st)
    case Root(name) => Run(1, Ok(env.roots(name)), st)
    case Member(on, key) =>
      var o := Eval(on, env, st);
      if o.result.Err? then Paid(1, o) else Run(1 + o.cost, Ok(GetMember(o.result.value, key)), o.state)
    case Index(on, idx) =>
      var o := Eval(on, env, st);
      if o.result.Err? then Paid(1, o) else
      var i := Eval(idx, env, o.state);
      if i.result.Err? then Paid(1 + o.cost, i) else
      Run(1 + o.cost + i.cost, Ok(GetIndex(o.result.value, i.result.value)), i.state)
    case Unary(op, on) =>
      var o := Eval(on, env, st);
      if o.result.Err? then Paid(1, o) else Run(1 + o.cost, UnaryValue(op, o.result.value), o.state)
    case Bin(op, l, r) =>
      var x := Eval(l, env, st);
      if x.result.Err? then Paid(1, x)
      else if ShortCircuits(op, x.result.value) then Run(1 + x.cost, x.result, x.state)
      else
        var y := Eval(r, env, x.state);
        if y.result.Err? || op == AndAlso || op == OrElse then Paid(1 + x.cost, y)
        else Paid(1 + x.cost + y.cost, BinRun(op, x.result.value, y.result.value, env, y.state))
    case Cond(c, a, b) =>
      var x := Eval(c, env, st);
      if x.result.Err? then Paid(1, x)
      else Paid(1 + x.cost, Eval(if Truthy(x.result.value) then a else b, env, x.state))
    case Call(fn, args) =>
      var xs := EvalArgs(args, env, st);
      match xs.result
      case Err(f) => Run(1 + xs.cost, Err(f), xs.state)
      case Ok(vs) => Paid(1 + xs.cost + 1, Apply(fn, vs, env, xs.state))
  }

  predicate ShortCircuits(op: BinOp, l: Value) {
    (op == AndAlso && !Truthy(l)) || (op == OrElse && Truthy(l))
  }

  /** The arguments in order, up to the first that fails. */
  function EvalArgs(args: seq<Expr>, env: Env, st: State): (run: Run<seq<Value>>)
    ensures run.state.draws >= st.draws
    ensures run.result.Ok? ==> |run.result.value| == |args|
    decreases args
  {
    if args == [] then Run(0, Ok([]), st) else
    var init := EvalArgs(args[..|args| - 1], env, st);
    if init.result.Err? then init else
    var last := Eval(args[|args| - 1], env, init.state);
    match last.result
    case Err(f) => Run(init.cost + last.cost, Err(f), last.state)
    case Ok(v) => Run(init.cost + last.cost, Ok(init.result.value + [v]), last.state)
  }
}
