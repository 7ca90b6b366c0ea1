/** Laws of the operations on values, each in terms of numbers, texts, elements and data, not of how it is computed. */
module ExprLaws {
  import opened ExprText
  import opened ExprAst
  import opened ExprValues
  import opened ExprSemantics
  import Sets

  /** What `l op r` comes to. */
  function Outcome(op: BinOp, l: Value, r: Value, env: Env): Result<Value> {
    BinRun(op, l, r, env, State(0, 0)).result
  }

  function Finite(x: real): Value { Num(Fin(x)) }

  function Abs(x: real): real { if x < 0.0 then -x else x }

  // ------------------------------------------------------------------ numbers

  /** Finite numbers add, subtract, multiply and compare as they should; subtraction undoes addition. */
  lemma FiniteArithmetic(x: real, y: real, env: Env)
    ensures Outcome(Add, Finite(x), Finite(y), env) == Ok(Finite(x + y)) == Outcome(Add, Finite(y), Finite(x), env)
    ensures var d := Outcome(Sub, Finite(x), Finite(y), env); d.Ok? && Outcome(Add, d.value, Finite(y), env) == Ok(Finite(x))
    ensures UnaryValue(Neg, Finite(x)) == Outcome(Sub, Finite(0.0), Finite(x), env)
  {
  }

  lemma FiniteProduct(x: real, y: real, z: real, env: Env)
    ensures Outcome(Mul, Finite(x), Finite(y), env) == Ok(Finite(x * y)) == Outcome(Mul, Finite(y), Finite(x), env)
  {
    var product, back := x * y, y * x;
    assert product == back;
    assert Times(Fin(x), Fin(y)) == Fin(product) && Times(Fin(y), Fin(x)) == Fin(back);
  }

  lemma FiniteOrder(x: real, y: real, env: Env)
    ensures Outcome(Lt, Finite(x), Finite(y), env) == Ok(Bool(0.0 < y - x))
    ensures Outcome(Gt, Finite(x), Finite(y), env) == Ok(Bool(0.0 < x - y))
    ensures Outcome(Le, Finite(x), Finite(y), env) == Ok(Bool(0.0 <= y - x))
    ensures Outcome(Ge, Finite(x), Finite(y), env) == Ok(Bool(0.0 <= x - y))
    ensures Outcome(Eq, Finite(x), Finite(y), env) == Ok(Bool(y - x == 0.0))
  {
  }

  /** Division undoes multiplication; dividing by zero gives the infinity of the dividend's sign, or no number. */
  lemma FiniteDivision(x: real, y: real, env: Env)
    ensures y != 0.0 ==>
      var q := Outcome(Div, Finite(x), Finite(y), env);
      q.Ok? && q.value.Num? && q.value.n.Fin? && Outcome(Mul, q.value, Finite(y), env) == Ok(Finite(x))
    ensures y == 0.0 ==>
      Outcome(Div, Finite(x), Finite(y), env) == Ok(Num(if x > 0.0 then Inf(false) else if x < 0.0 then Inf(true) else NaN))
  {
    if y != 0.0 {
      var q := x / y;
      assert q * y == x;
      FiniteProduct(q, y, 0.0, env);
      hide Times;
    }
  }

  /** A remainder differs from the dividend by a multiple of the divisor, is smaller than it, and has the dividend's sign. */
  lemma FiniteRemainder(x: real, y: real, env: Env) returns (q: int)
    ensures y == 0.0 ==> Outcome(Mod, Finite(x), Finite(y), env) == Ok(Num(NaN))
    ensures y != 0.0 ==>
      var r := Outcome(Mod, Finite(x), Finite(y), env);
      && r.Ok? && r.value.Num? && r.value.n.Fin?
      && x == q as real * y + r.value.n.r && Abs(r.value.n.r) < Abs(y)
      && (x >= 0.0 ==> r.value.n.r >= 0.0) && (x <= 0.0 ==> r.value.n.r <= 0.0)
  {
    hide BinRun, Truncate;
    q := 0;
    if y == 0.0 {
      RemainderIs(x, y, 0.0, env);
    } else {
      var d := x / y;
      q := CutOff(d);
      assert x == d * y;
      var t := d - q as real;
      RemainderOf(x, y, d, q, t);
      var m := y * Truncate(d);
      assert x - m == t * y;
      RemainderIs(x, y, m, env);
    }
  }

  /** A number without its fraction. */
  lemma CutOff(d: real) returns (q: int)
    ensures Truncate(d) == q as real
    ensures var t := d - q as real; -1.0 < t < 1.0 && (d >= 0.0 ==> t >= 0.0) && (d <= 0.0 ==> t <= 0.0)
  {
    q := if d < 0.0 then -((-d).Floor) else d.Floor;
  }

  lemma RemainderIs(x: real, y: real, m: real, env: Env)
    requires y != 0.0 ==> m == y * Truncate(x / y)
    ensures Outcome(Mod, Finite(x), Finite(y), env) == Ok(if y == 0.0 then Num(NaN) else Finite(x - m))
  {
    hide Truncate;
    if y != 0.0 { assert Remainder(Fin(x), Fin(y)) == Fin(x - m); }
  }

  lemma RemainderOf(x: real, y: real, d: real, q: int, t: real)
    requires y != 0.0 && x == d * y && t == d - q as real && -1.0 < t < 1.0
    requires (d >= 0.0 ==> t >= 0.0) && (d <= 0.0 ==> t <= 0.0)
    ensures x == q as real * y + t * y && Abs(t * y) < Abs(y)
    ensures (x >= 0.0 ==> t * y >= 0.0) && (x <= 0.0 ==> t * y <= 0.0)
  {
    assert t * y == d * y - q as real * y;
    Signs(d, y, x);
    var r := t * y;
    Shrinks(t, y, r);
    if d >= 0.0 { ProductSign(t, y, r); } else { ProductSign(-t, y, -r); }
  }

  lemma Shrinks(t: real, y: real, r: real)
    requires y != 0.0 && -1.0 < t < 1.0 && r == t * y
    ensures Abs(r) < Abs(y)
  {
    if y > 0.0 {
      assert (1.0 - t) * y > 0.0 && (1.0 + t) * y > 0.0;
    } else {
      assert (1.0 - t) * -y > 0.0 && (1.0 + t) * -y > 0.0;
    }
  }

  lemma ProductSign(t: real, y: real, r: real)
    requires t >= 0.0 && y != 0.0 && r == t * y
    ensures if y > 0.0 then r >= 0.0 else r <= 0.0
  {
  }

  lemma Signs(d: real, y: real, x: real)
    requires y != 0.0 && x == d * y
    ensures (x > 0.0 ==> (d > 0.0 <==> y > 0.0)) && (x < 0.0 ==> (d > 0.0 <==> y < 0.0)) && (x == 0.0 ==> d == 0.0)
  {
  }

  /** The infinities bound the finite numbers, and absorb them. */
  lemma InfiniteOrder(s: bool, x: real, env: Env)
    ensures Outcome(Lt, Num(Inf(true)), Finite(x), env) == Ok(Bool(true)) == Outcome(Lt, Finite(x), Num(Inf(false)), env)
    ensures Outcome(Lt, Num(Inf(true)), Num(Inf(false)), env) == Ok(Bool(true))
    ensures Outcome(Lt, Num(Inf(s)), Num(Inf(s)), env) == Ok(Bool(false)) && Outcome(Le, Num(Inf(s)), Num(Inf(s)), env) == Ok(Bool(true))
    ensures Outcome(Gt, Num(Inf(true)), Finite(x), env) == Ok(Bool(false)) == Outcome(Gt, Finite(x), Num(Inf(false)), env)
  {
  }

  lemma InfiniteArithmetic(s: bool, x: real, env: Env)
    ensures Outcome(Add, Num(Inf(s)), Finite(x), env) == Ok(Num(Inf(s))) == Outcome(Add, Finite(x), Num(Inf(s)), env)
    ensures Outcome(Add, Num(Inf(s)), Num(Inf(s)), env) == Ok(Num(Inf(s))) && Outcome(Sub, Num(Inf(s)), Num(Inf(s)), env) == Ok(Num(NaN))
    ensures Outcome(Mul, Num(Inf(s)), Finite(x), env) == Outcome(Mul, Finite(x), Num(Inf(s)), env)
      == Ok(Num(if x == 0.0 then NaN else Inf(s == (x > 0.0))))
    ensures Outcome(Div, Finite(x), Num(Inf(s)), env) == Ok(Finite(0.0)) && Outcome(Mod, Finite(x), Num(Inf(s)), env) == Ok(Finite(x))
    ensures Outcome(Div, Num(Inf(s)), Finite(x), env) == Ok(Num(Inf(s != (x < 0.0))))
    ensures Outcome(Mod, Num(Inf(s)), Finite(x), env) == Ok(Num(NaN)) == Outcome(Div, Num(Inf(s)), Num(Inf(!s)), env)
  {
  }

  /** What is no number stays none, is in no order, and equals nothing. */
  lemma NotANumber(op: BinOp, x: Number, env: Env)
    ensures op in {Add, Sub, Mul, Div, Mod} ==>
      Outcome(op, Num(NaN), Num(x), env) == Ok(Num(NaN)) == Outcome(op, Num(x), Num(NaN), env)
    ensures op in {Lt, Le, Gt, Ge, Eq} ==>
      Outcome(op, Num(NaN), Num(x), env) == Ok(Bool(false)) == Outcome(op, Num(x), Num(NaN), env)
    ensures UnaryValue(Neg, Num(NaN)) == Ok(Num(NaN))
  {
  }

  /** A numeral with a fraction is its digits over a power of ten. */
  lemma NumeralIsDecimal(whole: string, frac: string)
    requires whole != "" && AllDigits(whole) && frac != "" && AllDigits(frac)
    ensures IsNumeral(whole) && NumeralValue(whole) == DigitsValue(whole) as real
    ensures IsNumeral(whole + "." + frac)
      && NumeralValue(whole + "." + frac) * PowerOfTen(|frac|) as real == DigitsValue(whole + frac) as real
  {
    hide DigitsValue, PowerOfTen, PointAt, NumeralValue, IsNumeral, AllDigits;
    WholeValue(whole);
    PointValue(whole, frac);
    DigitsAppend(whole, frac);
    Scaled(DigitsValue(whole), DigitsValue(frac), PowerOfTen(|frac|), NumeralValue(whole + "." + frac));
  }

  lemma WholeValue(whole: string)
    requires whole != "" && AllDigits(whole)
    ensures IsNumeral(whole) && NumeralValue(whole) == DigitsValue(whole) as real
  {
    hide DigitsValue, PointAt;
    PointAtDot(whole, "");
    assert whole + "" == whole && whole[..|whole|] == whole;
  }

  lemma PointValue(whole: string, frac: string)
    requires whole != "" && AllDigits(whole) && frac != "" && AllDigits(frac)
    ensures IsNumeral(whole + "." + frac)
      && NumeralValue(whole + "." + frac) == DigitsValue(whole) as real + DigitsValue(frac) as real / PowerOfTen(|frac|) as real
  {
    hide DigitsValue, PowerOfTen, PointAt, IsNumeral, AllDigits;
    PointShape(whole, frac);
  }

  lemma PointShape(whole: string, frac: string)
    requires whole != "" && AllDigits(whole) && frac != "" && AllDigits(frac)
    ensures var s := whole + "." + frac;
      IsNumeral(s) && PointAt(s) == |whole| < |s| && s[..|whole|] == whole && s[|whole| + 1..] == frac
  {
    hide PointAt;
    var s := whole + "." + frac;
    assert s[..|whole|] == whole && s[|whole|] == '.' && s[|whole| + 1..] == frac;
    assert IsNumeralSplitAt(s, |whole|);
    assert s == whole + ("." + frac);
    PointAtDot(whole, "." + frac);
  }

  lemma Scaled(w: nat, f: nat, p: nat, v: real)
    requires p > 0 && v == w as real + f as real / p as real
    ensures v * p as real == (w * p + f) as real
  {
    var q, r := f as real, p as real;
    assert q / r * r == q;
    assert v * r == w as real * r + q / r * r;
    assert w as real * r == (w * p) as real;
  }

  lemma {:induction false} PointAtDot(whole: string, rest: string)
    requires AllDigits(whole) && (rest != "" ==> !IsDigit(rest[0]))
    ensures PointAt(whole + rest) == |whole|
  {
    if whole == "" {
      assert whole + rest == rest;
    } else {
      assert (whole + rest)[1..] == whole[1..] + rest;
      PointAtDot(whole[1..], rest);
    }
  }

  lemma {:induction false} DigitsAppend(a: string, b: string)
    requires AllDigits(a) && AllDigits(b)
    ensures AllDigits(a + b) && DigitsValue(a + b) == DigitsValue(a) * PowerOfTen(|b|) + DigitsValue(b)
    decreases |b|
  {
    if b == "" {
      assert a + b == a;
    } else {
      var init := b[..|b| - 1];
      DigitsAppend(a, init);
      assert (a + b)[..|a + b| - 1] == a + init;
      Distributes(DigitsValue(a), PowerOfTen(|init|));
    }
  }

  lemma Distributes(a: nat, p: nat)
    ensures 10 * (a * p) == a * (10 * p)
  {
  }

  // ------------------------------------------------------------- all operands

  /** `+` joins texts, a number by its text, up to the size limit; two numbers it adds. */
  lemma TextsJoin(l: Value, r: Value, env: Env)
    requires (l.Str? || l.Num?) && (r.Str? || r.Num?) && !(l.Num? && r.Num?)
    ensures var text := (if l.Str? then l.s else env.numberText(l.n)) + (if r.Str? then r.s else env.numberText(r.n));
      Outcome(Add, l, r, env) == if env.utf8Length(text) <= 64 * 1024 then Ok(Str(text)) else Err(LimitFault)
  {
  }

  /** Which operands an operator refuses. */
  lemma RefusedIff(op: BinOp, l: Value, r: Value, env: Env)
    requires op != AndAlso && op != OrElse
    ensures Outcome(op, l, r, env) == Err(TypeFault) <==>
      match op
      case Eq => false
      case Ne => false
      case Add => (l.Bool? || l.Null? || l.Undef? || l.Arr? || l.Obj?) || (r.Bool? || r.Null? || r.Undef? || r.Arr? || r.Obj?)
      case _ => !l.Num? || !r.Num?
    ensures Outcome(op, l, r, env).Err? && op != Add ==> Outcome(op, l, r, env) == Err(TypeFault)
  {
  }

  lemma NegationIsRefusedIff(v: Value)
    ensures UnaryValue(Neg, v) == Err(TypeFault) <==> !v.Num?
    ensures UnaryValue(Neg, v).Ok? ==> UnaryValue(Neg, UnaryValue(Neg, v).value) == Ok(v)
  {
  }

  lemma NotEqualNegates(l: Value, r: Value, env: Env)
    ensures var equal := Outcome(Eq, l, r, env);
      equal.Ok? && equal.value.Bool? && Outcome(Ne, l, r, env) == Ok(Bool(!equal.value.b))
  {
  }

  // ------------------------------------------------------------ deep equality

  /** A value without its identities and without an order of its keys. */
  datatype Data =
    | NoData | NullData | BoolData(b: bool) | NumData(n: Number) | TextData(s: string)
    | ListData(items: seq<Data>) | RecordData(fields: map<string, Data>)

  function DataOf(v: Value): Data
    decreases v
  {
    match v
    case Undef => NoData
    case Null => NullData
    case Bool(b) => BoolData(b)
    case Num(n) => NumData(n)
    case Str(s) => TextData(s)
    case Arr(_, items) => ListData(ItemsData(items))
    case Obj(_, fields) => RecordData(FieldsData(fields))
  }

  function ItemsData(items: seq<Value>): (r: seq<Data>)
    ensures |r| == |items|
    decreases items
  {
    if items == [] then [] else [DataOf(items[0])] + ItemsData(items[1..])
  }

  function FieldsData(fields: seq<Field>): map<string, Data>
    decreases fields
  {
    if fields == [] then map[] else FieldsData(fields[1..])[fields[0].key := DataOf(fields[0].value)]
  }

  ghost predicate OwnKeys(fields: seq<Field>) {
    forall i, j | 0 <= i < j < |fields| :: fields[i].key != fields[j].key
  }

  /**
   * A value of a heap: an identity stands for one array or object (`heap` says which data
   * it holds), no object has a key twice, and what is no number does not occur.
   */
  ghost predicate Sound(v: Value, heap: nat -> Data)
    decreases v
  {
    match v
    case Num(n) => n != NaN
    case Arr(ref, items) => heap(ref) == DataOf(v) && forall i | 0 <= i < |items| :: Sound(items[i], heap)
    case Obj(ref, fields) =>
      heap(ref) == DataOf(v) && OwnKeys(fields) && forall i | 0 <= i < |fields| :: Sound(fields[i].value, heap)
    case _ => true
  }

  /** `==` is equality of data: neither identities nor the order of keys matter to it. */
  lemma {:induction false} EqualIsSameData(a: Value, b: Value, heap: nat -> Data)
    requires Sound(a, heap) && Sound(b, heap)
    ensures DeepEqual(a, b).equal <==> DataOf(a) == DataOf(b)
    decreases a
  {
    if !Same(a, b) {
      match (a, b)
      case (Arr(_, xs), Arr(_, ys)) => if |xs| == |ys| { ItemsEqualIff(xs, ys, heap); }
      case (Obj(_, fs), Obj(_, gs)) => FieldsEqualIff(fs, gs, heap); RecordsEqualIff(fs, gs);
      case _ =>
    }
  }

  lemma {:induction false} ItemsEqualIff(xs: seq<Value>, ys: seq<Value>, heap: nat -> Data)
    requires |xs| == |ys|
    requires forall i | 0 <= i < |xs| :: Sound(xs[i], heap) && Sound(ys[i], heap)
    ensures ItemsEqual(xs, ys).equal <==> ItemsData(xs) == ItemsData(ys)
    decreases xs
  {
    hide Sound, DeepEqual, DataOf;
    if xs != [] {
      EqualIsSameData(xs[0], ys[0], heap);
      ItemsEqualIff(xs[1..], ys[1..], heap);
      assert ItemsData(xs)[1..] == ItemsData(xs[1..]) && ItemsData(ys)[1..] == ItemsData(ys[1..]);
      assert ItemsData(xs)[0] == DataOf(xs[0]) && ItemsData(ys)[0] == DataOf(ys[0]);
    }
  }

  /** The value a record has at a key is that of the field. */
  lemma {:induction false} FieldInData(gs: seq<Field>, key: string)
    ensures match FieldOf(gs, key)
      case Missing => key !in FieldsData(gs)
      case Found(v) => key in FieldsData(gs) && FieldsData(gs)[key] == DataOf(v)
  {
    hide DataOf;
    if gs != [] { FieldInData(gs[1..], key); }
  }

  /** Every field of `fs` is in the record `m`. */
  ghost predicate AllIn(fs: seq<Field>, m: map<string, Data>) {
    forall i | 0 <= i < |fs| :: FieldIn(fs[i], m)
  }

  predicate FieldIn(f: Field, m: map<string, Data>) {
    f.key in m && m[f.key] == DataOf(f.value)
  }

  lemma {:induction false} FieldsEqualIff(fs: seq<Field>, gs: seq<Field>, heap: nat -> Data)
    requires forall i | 0 <= i < |fs| :: Sound(fs[i].value, heap)
    requires forall i | 0 <= i < |gs| :: Sound(gs[i].value, heap)
    ensures FieldsEqual(fs, gs).equal <==> AllIn(fs, FieldsData(gs))
    decreases fs
  {
    hide Sound, DeepEqual, DataOf, FieldsData;
    if fs != [] {
      FieldInData(gs, fs[0].key);
      var found := FieldOf(gs, fs[0].key);
      if found.Found? { EqualIsSameData(fs[0].value, found.value, heap); }
      FieldsEqualIff(fs[1..], gs, heap);
      AllInCons(fs, FieldsData(gs));
    }
  }

  lemma AllInCons(fs: seq<Field>, m: map<string, Data>)
    requires fs != []
    ensures AllIn(fs, m) <==> FieldIn(fs[0], m) && AllIn(fs[1..], m)
  {
    hide FieldIn;
    if FieldIn(fs[0], m) && AllIn(fs[1..], m) {
      forall i | 0 < i < |fs|
        ensures FieldIn(fs[i], m)
      {
        assert fs[i] == fs[1..][i - 1];
      }
    }
  }

  /** The keys of a record are those of its fields. */
  lemma {:induction false} KeysOf(fs: seq<Field>)
    ensures forall k | k in FieldsData(fs) :: exists i :: 0 <= i < |fs| && fs[i].key == k
  {
    hide DataOf;
    if fs != [] {
      KeysOf(fs[1..]);
      assert forall i | 0 <= i < |fs[1..]| :: fs[1..][i] == fs[i + 1];
      assert fs[0].key == fs[0].key;
    }
  }

  /** Without double keys a record has as many entries as fields, and all of them. */
  lemma {:induction false} RecordOf(fs: seq<Field>)
    requires OwnKeys(fs)
    ensures |FieldsData(fs)| == |fs| && AllIn(fs, FieldsData(fs))
  {
    hide DataOf, FieldIn, AllIn;
    if fs == [] {
      assert AllIn(fs, FieldsData(fs)) by { NoneIn(FieldsData(fs)); }
    } else {
      var rest, d := FieldsData(fs[1..]), DataOf(fs[0].value);
      RecordOf(fs[1..]);
      KeysOf(fs[1..]);
      assert forall i | 0 <= i < |fs[1..]| :: fs[1..][i] == fs[i + 1];
      assert fs[0].key !in rest;
      AddedIn(fs, rest);
    }
  }

  lemma NoneIn(m: map<string, Data>)
    ensures AllIn([], m)
  {
  }

  lemma AddedIn(fs: seq<Field>, rest: map<string, Data>)
    requires fs != [] && OwnKeys(fs) && AllIn(fs[1..], rest)
    ensures AllIn(fs, rest[fs[0].key := DataOf(fs[0].value)])
  {
    hide FieldIn, DataOf;
    var d := DataOf(fs[0].value);
    var m := rest[fs[0].key := d];
    assert FieldIn(fs[0], m) by { HeadIn(fs[0], rest); }
    forall i | 0 <= i < |fs[1..]|
      ensures FieldIn(fs[1..][i], m)
    {
      StillIn(fs[1..][i], rest, fs[0].key, d);
    }
    AllInCons(fs, m);
  }

  lemma HeadIn(f: Field, m: map<string, Data>)
    ensures FieldIn(f, m[f.key := DataOf(f.value)])
  {
  }

  lemma StillIn(f: Field, m: map<string, Data>, key: string, d: Data)
    requires FieldIn(f, m) && f.key != key
    ensures FieldIn(f, m[key := d])
  {
  }

  lemma RecordsEqualIff(fs: seq<Field>, gs: seq<Field>)
    requires OwnKeys(fs) && OwnKeys(gs)
    ensures |fs| == |gs| && AllIn(fs, FieldsData(gs)) <==> FieldsData(fs) == FieldsData(gs)
  {
    hide DataOf, FieldsData;
    RecordOf(fs);
    RecordOf(gs);
    KeysOf(fs);
    var m, n := FieldsData(fs), FieldsData(gs);
    if |fs| == |gs| && AllIn(fs, n) {
      forall k | k in m
        ensures k in n && n[k] == m[k]
      {
        var i :| 0 <= i < |fs| && fs[i].key == k;
        assert FieldIn(fs[i], m) && FieldIn(fs[i], n);
      }
      if k :| k in n && k !in m {
        Sets.SubsetSize(m.Keys, n.Keys - {k});
        assert false;
      }
      assert m == n;
    }
  }

  // What `==` costs: one unit for every pair of values compared.

  /** The costs of comparing the first `n` elements. */
  function ItemCosts(xs: seq<Value>, ys: seq<Value>, n: nat): nat
    requires n <= |xs| && n <= |ys|
  {
    if n == 0 then 0 else ItemCosts(xs, ys, n - 1) + DeepEqual(xs[n - 1], ys[n - 1]).cost
  }

  /** Two arrays are compared element by element, up to the first difference; of different lengths, not at all. */
  lemma ArrayCost(p: nat, xs: seq<Value>, q: nat, ys: seq<Value>, n: nat)
    requires p != q
    ensures |xs| != |ys| ==> DeepEqual(Arr(p, xs), Arr(q, ys)).cost == 1
    ensures DifferAt(xs, ys, n) ==>
      DeepEqual(Arr(p, xs), Arr(q, ys)).cost == 1 + ItemCosts(xs, ys, if n == |xs| then n else n + 1)
    ensures DeepEqual(Arr(p, xs), Arr(p, ys)).cost == 1
  {
    hide ItemsEqual, ItemCosts, DifferAt;
    if DifferAt(xs, ys, n) {
      SameLengths(xs, ys, n);
      ItemsCost(xs, ys, n);
    }
  }

  /** The first difference of two arrays of one length is at `n`, or there is none and `n` is the length. */
  ghost predicate DifferAt(xs: seq<Value>, ys: seq<Value>, n: nat) {
    && |xs| == |ys| && n <= |xs| && (forall i | 0 <= i < n :: DeepEqual(xs[i], ys[i]).equal)
    && (n == |xs| || !DeepEqual(xs[n], ys[n]).equal)
  }

  lemma SameLengths(xs: seq<Value>, ys: seq<Value>, n: nat)
    requires DifferAt(xs, ys, n)
    ensures |xs| == |ys| && n <= |xs|
  {
  }

  lemma {:induction false} ItemsCost(xs: seq<Value>, ys: seq<Value>, n: nat)
    requires DifferAt(xs, ys, n)
    ensures ItemsEqual(xs, ys).cost == ItemCosts(xs, ys, if n == |xs| then n else n + 1)
    decreases n
  {
    hide DeepEqual;
    if n > 0 {
      ItemsCost(xs[1..], ys[1..], n - 1);
      ItemCostsCons(xs, ys, if n == |xs| then n else n + 1);
    }
  }

  lemma {:induction false} ItemCostsCons(xs: seq<Value>, ys: seq<Value>, n: nat)
    requires 0 < n <= |xs| && n <= |ys|
    ensures ItemCosts(xs, ys, n) == DeepEqual(xs[0], ys[0]).cost + ItemCosts(xs[1..], ys[1..], n - 1)
  {
    hide DeepEqual;
    if n > 1 { ItemCostsCons(xs, ys, n - 1); }
  }

  /** The costs of comparing the first `n` fields with those of the same key; a key that is missing costs nothing. */
  function FieldCosts(fs: seq<Field>, gs: seq<Field>, n: nat): nat
    requires n <= |fs|
  {
    if n == 0 then 0 else
    FieldCosts(fs, gs, n - 1)
      + match FieldOf(gs, fs[n - 1].key) case Missing => 0 case Found(v) => DeepEqual(fs[n - 1].value, v).cost
  }

  predicate SameField(f: Field, gs: seq<Field>) {
    FieldOf(gs, f.key).Found? && DeepEqual(f.value, FieldOf(gs, f.key).value).equal
  }

  lemma RecordCost(p: nat, fs: seq<Field>, q: nat, gs: seq<Field>, n: nat)
    requires p != q
    ensures |fs| != |gs| ==> DeepEqual(Obj(p, fs), Obj(q, gs)).cost == 1
    ensures |fs| == |gs| && n <= |fs| && (forall i | 0 <= i < n :: SameField(fs[i], gs)) && (n == |fs| || !SameField(fs[n], gs))
      ==> DeepEqual(Obj(p, fs), Obj(q, gs)).cost == 1 + FieldCosts(fs, gs, if n == |fs| then n else n + 1)
    ensures DeepEqual(Obj(p, fs), Obj(p, gs)).cost == 1
  {
    if |fs| == |gs| && n <= |fs| && (forall i | 0 <= i < n :: SameField(fs[i], gs)) && (n == |fs| || !SameField(fs[n], gs)) {
      FieldsCost(fs, gs, n);
    }
  }

  lemma {:induction false} FieldsCost(fs: seq<Field>, gs: seq<Field>, n: nat)
    requires n <= |fs| && (forall i | 0 <= i < n :: SameField(fs[i], gs)) && (n == |fs| || !SameField(fs[n], gs))
    ensures FieldsEqual(fs, gs).cost == FieldCosts(fs, gs, if n == |fs| then n else n + 1)
    decreases n
  {
    hide DeepEqual, FieldOf;
    if n > 0 {
      assert SameField(fs[0], gs);
      FieldsCost(fs[1..], gs, n - 1);
      FieldCostsCons(fs, gs, if n == |fs| then n else n + 1);
    }
  }

  lemma {:induction false} FieldCostsCons(fs: seq<Field>, gs: seq<Field>, n: nat)
    requires 0 < n <= |fs|
    ensures FieldCosts(fs, gs, n) == FieldCosts(fs[1..], gs, n - 1)
      + match FieldOf(gs, fs[0].key) case Missing => 0 case Found(v) => DeepEqual(fs[0].value, v).cost
  {
    hide DeepEqual, FieldOf;
    if n > 1 { FieldCostsCons(fs, gs, n - 1); }
  }

  // ------------------------------------------------------------------ reading

  /** `a[i]` is the element at `i`, for a whole `i` within the array, and nothing otherwise. */
  lemma ElementRead(ref: nat, items: seq<Value>, idx: Value)
    ensures forall i: nat | i < |items| :: GetIndex(Arr(ref, items), Finite(i as real)) == items[i]
    ensures (forall i: nat | i < |items| :: !IsIndex(idx, i)) ==> GetIndex(Arr(ref, items), idx) == Undef
  {
    if idx.Num? && idx.n.Fin? && 0 <= idx.n.r.Floor < |items| { assert IsIndex(idx, idx.n.r.Floor) || idx.n.r.Floor as real != idx.n.r; }
  }

  predicate IsIndex(v: Value, i: nat) {
    v == Finite(i as real)
  }

  /** A property read by name, in brackets or after a dot, is the field of that name. */
  lemma PropertyRead(ref: nat, fields: seq<Field>, i: nat)
    requires i < |fields| && OwnKeys(fields)
    ensures GetMember(Obj(ref, fields), fields[i].key) == fields[i].value == GetIndex(Obj(ref, fields), Str(fields[i].key))
  {
    var r := FieldOf(fields, fields[i].key);
    assert fields[i].key == fields[i].key;
    var j :| 0 <= j < |fields| && fields[j] == Field(fields[i].key, r.value);
    assert j == i;
  }

  /** Nothing else has properties, and what is not there reads as `undefined`. */
  lemma NothingThere(on: Value, key: Ident, idx: Value)
    ensures on.Obj? && (forall i | 0 <= i < |on.fields| :: on.fields[i].key != key) ==> GetMember(on, key) == Undef
    ensures on.Arr? ==> GetMember(on, key) == if key == "length" then Finite(|on.items| as real) else Undef
    ensures !on.Obj? && !on.Arr? ==> GetMember(on, key) == Undef == GetIndex(on, idx)
    ensures on.Obj? && !idx.Str? ==> GetIndex(on, idx) == Undef
  {
    assert !AllDigits(key) by { assert !IsDigit(key[0]); }
  }

  function Digit(d: nat): char
    requires d < 10
  {
    ('0' as int + d) as char
  }

  /** A number in decimal, without leading zeros. */
  function Decimal(n: nat): string {
    if n < 10 then [Digit(n)] else Decimal(n / 10) + [Digit(n % 10)]
  }

  lemma {:induction false} DecimalReads(n: nat)
    ensures IsIndexKey(Decimal(n)) && DigitsValue(Decimal(n)) == n && (n > 0 ==> Decimal(n)[0] != '0')
  {
    hide DigitsValue;
    if n < 10 {
      OneDigit(n);
    } else {
      DecimalReads(n / 10);
      LastDigit(Decimal(n / 10), n % 10);
    }
  }

  lemma OneDigit(d: nat)
    requires d < 10
    ensures DigitsValue([Digit(d)]) == d && AllDigits([Digit(d)])
  {
    assert [Digit(d)][..0] == "" && DigitsValue("") == 0;
  }

  lemma LastDigit(s: string, d: nat)
    requires AllDigits(s) && d < 10
    ensures AllDigits(s + [Digit(d)]) && DigitsValue(s + [Digit(d)]) == 10 * DigitsValue(s) + d
  {
    assert (s + [Digit(d)])[..|s|] == s;
  }

  lemma {:induction false} OnlyDecimal(s: string)
    requires IsIndexKey(s)
    ensures s == Decimal(DigitsValue(s)) && (s[0] != '0' ==> DigitsValue(s) > 0)
    decreases |s|
  {
    hide DigitsValue, Decimal;
    var init, d := s[..|s| - 1], s[|s| - 1] as int - '0' as int;
    assert s == init + [Digit(d)];
    if |s| == 1 {
      assert s == [Digit(d)];
      OneDigit(d);
      SmallDecimal(d);
    } else {
      assert init[0] == s[0];
      OnlyDecimal(init);
      LastDigit(init, d);
      LargeDecimal(DigitsValue(init), d);
    }
  }

  lemma SmallDecimal(d: nat)
    requires d < 10
    ensures Decimal(d) == [Digit(d)]
  {
  }

  lemma LargeDecimal(m: nat, d: nat)
    requires m > 0 && d < 10
    ensures Decimal(10 * m + d) == Decimal(m) + [Digit(d)]
  {
    assert (10 * m + d) / 10 == m && (10 * m + d) % 10 == d;
  }

  /** The own properties of an array are its elements, at their index in decimal, and its length; along a path an element is read so too. */
  lemma ArrayOwns(ref: nat, items: seq<Value>, key: string)
    ensures forall i: nat | i < |items| :: OwnProperty(Arr(ref, items), Decimal(i)) == Found(items[i])
    ensures OwnProperty(Arr(ref, items), "length") == Found(Finite(|items| as real))
    ensures key != "length" && (forall i: nat | i < |items| :: key != Decimal(i)) ==> OwnProperty(Arr(ref, items), key) == Missing
  {
    hide Decimal, DigitsValue;
    forall i: nat | i < |items|
      ensures OwnProperty(Arr(ref, items), Decimal(i)) == Found(items[i])
    {
      DecimalReads(i);
      assert Decimal(i) != "length" by { NoLetters(Decimal(i)); }
    }
    if key != "length" && IsIndexKey(key) && DigitsValue(key) < |items| { OnlyDecimal(key); }
    NoLetters("length");
  }

  lemma NoLetters(s: string)
    ensures IsIndexKey(s) ==> s != "length"
  {
    assert !IsDigit("length"[0]);
  }

  // -------------------------------------------------------------------- paths

  /** A longer path is one more step from where the shorter one leads. */
  lemma PathGrows(root: Value, path: string, segment: string)
    requires '.' !in segment && path != ""
    ensures PathWalk(root, path + "." + segment).at
      == match PathWalk(root, path).at case Missing => Missing case Found(v) => PathStep(v, segment)
    ensures segment != "" ==> PathWalk(root, segment).at == PathStep(root, segment)
    ensures PathWalk(root, path + "." + segment).cost == PathWalk(root, path).cost + if PathWalk(root, path).at.Found? then 1 else 0
    ensures PathWalk(root, "") == Walk(0, Found(root)) && (segment != "" ==> PathWalk(root, segment).cost == 1)
  {
    SegmentsJoin(path, segment);
    WalkJoin(root, Segments(path), segment);
    if segment != "" { OneStep(root, segment); }
  }

  lemma OneStep(root: Value, segment: string)
    requires '.' !in segment && segment != ""
    ensures PathWalk(root, segment).at == PathStep(root, segment) && PathWalk(root, segment).cost == 1
  {
    OneSegment(segment);
    WalkJoin(root, [], segment);
    assert [] + [segment] == [segment];
  }

  lemma OneSegment(segment: string)
    requires '.' !in segment
    ensures Segments(segment) == [segment]
  {
    NoDot(segment);
  }

  lemma {:induction false} NoDot(s: string)
    requires '.' !in s
    ensures DotAt(s) == |s|
  {
    if s != "" { NoDot(s[1..]); }
  }

  lemma {:induction false} DotFound(a: string, b: string)
    requires '.' !in a
    ensures DotAt(a + "." + b) == |a|
  {
    if a == "" {
      assert a + "." + b == "." + b;
    } else {
      assert (a + "." + b)[1..] == a[1..] + "." + b;
      DotFound(a[1..], b);
    }
  }

  lemma {:induction false} SegmentsJoin(path: string, segment: string)
    requires '.' !in segment
    ensures Segments(path + "." + segment) == Segments(path) + [segment]
    decreases |path|
  {
    hide Segments, DotAt;
    var k := DotAt(path);
    if k == |path| {
      LastJoin(path, segment);
    } else {
      SegmentsJoin(path[k + 1..], segment);
      FirstJoin(path, segment);
    }
  }

  lemma LastJoin(path: string, segment: string)
    requires '.' !in segment && DotAt(path) == |path|
    ensures Segments(path + "." + segment) == Segments(path) + [segment]
  {
    hide DotAt;
    var all := path + "." + segment;
    DotFound(path, segment);
    OneSegment(segment);
    assert all[..|path|] == path && all[|path| + 1..] == segment;
  }

  lemma FirstJoin(path: string, segment: string)
    requires DotAt(path) < |path|
    requires var rest := path[DotAt(path) + 1..]; Segments(rest + "." + segment) == Segments(rest) + [segment]
    ensures Segments(path + "." + segment) == Segments(path) + [segment]
  {
    hide DotAt, Segments;
    var k := DotAt(path);
    var head, rest := path[..k], path[k + 1..];
    SegmentsHead(head, rest);
    SegmentsHead(head, rest + "." + segment);
    assert path == head + "." + rest;
    assert path + "." + segment == head + "." + (rest + "." + segment);
    assert [head] + (Segments(rest) + [segment]) == [head] + Segments(rest) + [segment];
  }

  lemma SegmentsHead(head: string, rest: string)
    requires '.' !in head
    ensures Segments(head + "." + rest) == [head] + Segments(rest)
  {
    hide DotAt;
    DotFound(head, rest);
    var all := head + "." + rest;
    assert all[..|head|] == head && all[|head| + 1..] == rest;
  }

  lemma {:induction false} WalkJoin(cur: Value, segments: seq<string>, segment: string)
    ensures WalkFrom(cur, segments + [segment]).at
      == match WalkFrom(cur, segments).at case Missing => Missing case Found(v) => PathStep(v, segment)
    ensures WalkFrom(cur, segments + [segment]).cost
      == WalkFrom(cur, segments).cost + if WalkFrom(cur, segments).at.Found? then 1 else 0
    decreases |segments|
  {
    hide PathStep;
    if segments == [] {
      assert [] + [segment] == [segment] && [segment][1..] == [];
    } else {
      assert (segments + [segment])[1..] == segments[1..] + [segment];
      var next := PathStep(cur, segments[0]);
      if next.Found? { WalkJoin(next.value, segments[1..], segment); }
    }
  }

  /** A step into an array takes its decimal index, into an object its own key, into anything else leads nowhere. */
  lemma StepsOf(cur: Value, digits: string, fields: seq<Field>, i: nat, ref: nat)
    ensures cur.Arr? && digits != "" && AllDigits(digits) && DigitsValue(digits) < |cur.items| ==>
      PathStep(cur, digits) == Found(cur.items[DigitsValue(digits)])
    ensures cur.Arr? && (digits == "" || !AllDigits(digits) || DigitsValue(digits) >= |cur.items|) ==> PathStep(cur, digits) == Missing
    ensures i < |fields| && OwnKeys(fields) ==> PathStep(Obj(ref, fields), fields[i].key) == Found(fields[i].value)
    ensures !cur.Arr? && !cur.Obj? ==> PathStep(cur, digits) == Missing
  {
    if i < |fields| && OwnKeys(fields) { PropertyRead(ref, fields, i); }
    if i < |fields| { assert FieldOf(fields, fields[i].key).Found?; }
  }

  /** `pluck` gives, at each place, what the path leads to in the element there. */
  lemma {:induction false} PluckedAt(items: seq<Value>, path: string, i: nat)
    requires i < |items|
    ensures PluckAll(items, path).items[i] == LookupOr(PathWalk(items[i], path).at, Undef)
    decreases |items|
  {
    if i < |items| - 1 { PluckedAt(items[..|items| - 1], path, i); }
  }

  // ------------------------------------------------------------ the function table

  /** What `toJson` makes of data: `null` for what is not there, everything else as it is. */
  function Filled(d: Data): Data
    decreases d
  {
    match d
    case NoData => NullData
    case ListData(items) => ListData(FilledItems(items))
    case RecordData(fields) => RecordData(map k | k in fields :: Filled(fields[k]))
    case _ => d
  }

  function FilledItems(items: seq<Data>): seq<Data>
    decreases items
  {
    if items == [] then [] else [Filled(items[0])] + FilledItems(items[1..])
  }

  lemma {:induction false} JsonSafeFills(v: Value)
    ensures DataOf(JsonSafe(v)) == Filled(DataOf(v))
    decreases v
  {
    match v
    case Arr(_, items) => JsonItemsFill(items);
    case Obj(_, fields) => JsonFieldsFill(fields);
    case _ =>
  }

  lemma {:induction false} JsonItemsFill(items: seq<Value>)
    ensures ItemsData(JsonItems(items)) == FilledItems(ItemsData(items))
    decreases items
  {
    hide DataOf, JsonSafe, Filled;
    if items != [] {
      JsonSafeFills(items[0]);
      JsonItemsFill(items[1..]);
      assert JsonItems(items)[1..] == JsonItems(items[1..]) && ItemsData(items)[1..] == ItemsData(items[1..]);
      assert JsonItems(items)[0] == JsonSafe(items[0]) && ItemsData(items)[0] == DataOf(items[0]);
    }
  }

  lemma {:induction false} JsonFieldsFill(fields: seq<Field>)
    ensures var m := FieldsData(fields); FieldsData(JsonFields(fields)) == map k | k in m :: Filled(m[k])
    decreases fields
  {
    hide DataOf, JsonSafe, Filled;
    if fields != [] {
      var m := FieldsData(fields[1..]);
      JsonSafeFills(fields[0].value);
      JsonFieldsFill(fields[1..]);
      assert JsonFields(fields)[1..] == JsonFields(fields[1..]);
      assert JsonFields(fields)[0] == Field(fields[0].key, JsonSafe(fields[0].value));
    }
  }

  /** The value of `now()`; `toJson` is the text of the filled value, or the size limit. */
  lemma NowAndJson(args: seq<Value>, env: Env, st: State)
    ensures Apply("now", args, env, st) == Run(0, Ok(env.roots(RootNow)), st)
    ensures var run := Apply("toJson", args, env, st);
      var v := if args == [] then Undef else args[0];
      var text := env.jsonText(JsonSafe(v));
      && run.cost == ValueSize(v) && run.state == st
      && run.result == if env.utf8Length(text) <= 64 * 1024 then Ok(Str(text)) else Err(LimitFault)
  {
  }

  /** Only comparing for equality spends anything, and none of the operators draws or makes anything. */
  lemma OperatorsAreFree(op: BinOp, l: Value, r: Value, env: Env, st: State)
    ensures BinRun(op, l, r, env, st).state == st && (op != Eq && op != Ne ==> BinRun(op, l, r, env, st).cost == 0)
  {
  }

  /** `rand` counts a draw whatever it is given, and refuses anything but a number above zero. */
  lemma RandYields(args: seq<Value>, env: Env, st: State)
    ensures var run := Apply("rand", args, env, st);
      && run.cost == 0 && run.state == st.(draws := st.draws + 1)
      && (args == [] ==> run.result == Ok(Finite(env.draw(st.draws))))
      && (args != [] ==> (run.result == Err(TypeFault) <==> !args[0].Num? || NotPositive(args[0].n)))
      && (args != [] ==> run.result == Err(TypeFault) || run.result == Ok(Num(FloorOf(Times(Fin(env.draw(st.draws)), args[0].n)))))
  {
    hide Times, FloorOf;
  }

  /** A whole number is cut out of what `rand` scales: the greatest not above it. */
  lemma FloorCuts(x: real)
    ensures FloorOf(Fin(x)).Fin? && IsWhole(FloorOf(Fin(x)).r) && 0.0 <= x - FloorOf(Fin(x)).r < 1.0
    ensures FloorOf(NaN) == NaN && forall s :: FloorOf(Inf(s)) == Inf(s)
  {
    assert FloorOf(Fin(x)) == Fin(x.Floor as real);
    assert IsWhole(x.Floor as real) by { assert (x.Floor as real).Floor == x.Floor; }
  }

  predicate IsWhole(x: real) {
    x == x.Floor as real
  }

  predicate NotPositive(n: Number) {
    n == NaN || n == Inf(true) || (n.Fin? && n.r <= 0.0)
  }

  /** `pluck`: an array of at most 10 000 elements and a path, or what is wrong with them, the array first. */
  lemma PluckYields(args: seq<Value>, env: Env, st: State)
    ensures var run := Apply("pluck", args, env, st);
      if |args| >= 1 && args[0].Arr? && |args[0].items| > 10_000 then run == Run(0, Err(LimitFault), st)
      else if |args| < 2 || !args[0].Arr? || !args[1].Str? then run == Run(0, Err(TypeFault), st)
      else
        && run.result.Ok? && run.result.value.Arr? && |run.result.value.items| == |args[0].items|
        && run.result.value.ref == st.refs && run.state == st.(refs := st.refs + 1)
        && run.cost == WalkCosts(args[0].items, args[1].s)
        && forall i | 0 <= i < |args[0].items| ::
             run.result.value.items[i] == LookupOr(PathWalk(args[0].items[i], args[1].s).at, Undef)
  {
    hide PluckAll, PathWalk;
    if |args| >= 2 && args[0].Arr? && args[1].Str? && |args[0].items| <= 10_000 {
      PluckedAll(args[0].items, args[1].s);
      PluckCost(args[0].items, args[1].s);
    }
  }

  /** One unit for every element, and what walking to its path costs. */
  function WalkCosts(items: seq<Value>, path: string): nat {
    if items == [] then 0 else 1 + PathWalk(items[0], path).cost + WalkCosts(items[1..], path)
  }

  lemma {:induction false} WalkCostsSnoc(init: seq<Value>, last: Value, path: string)
    ensures WalkCosts(init + [last], path) == WalkCosts(init, path) + 1 + PathWalk(last, path).cost
    decreases |init|
  {
    hide PathWalk;
    if init == [] {
      assert [] + [last] == [last] && [last][1..] == [];
    } else {
      assert (init + [last])[1..] == init[1..] + [last];
      WalkCostsSnoc(init[1..], last, path);
    }
  }

  lemma {:induction false} PluckCost(items: seq<Value>, path: string)
    ensures PluckAll(items, path).cost == WalkCosts(items, path)
    decreases |items|
  {
    hide PathWalk, WalkCosts;
    if items == [] {
      NoWalks(path);
    } else {
      var init, last := items[..|items| - 1], items[|items| - 1];
      PluckCost(init, path);
      assert items == init + [last];
      WalkCostsSnoc(init, last, path);
    }
  }

  lemma NoWalks(path: string)
    ensures WalkCosts([], path) == 0
  {
  }

  lemma PluckedAll(items: seq<Value>, path: string)
    ensures forall i | 0 <= i < |items| :: PluckAll(items, path).items[i] == LookupOr(PathWalk(items[i], path).at, Undef)
  {
    hide PluckAll, PathWalk;
    forall i | 0 <= i < |items|
      ensures PluckAll(items, path).items[i] == LookupOr(PathWalk(items[i], path).at, Undef)
    {
      PluckedAt(items, path, i);
    }
  }

  /** Whether the gate lets an element through. */
  predicate Lets(item: Value, path: string, op: string, right: Value, env: Env) {
    var at := PathWalk(item, path).at;
    env.gate(op, at.Found?, if at.Found? then at.value else Undef, right)
  }

  /** `filterWhere`: the elements the gate lets through, in their order; the operator must be one of the table. */
  lemma FilterYields(args: seq<Value>, env: Env, st: State)
    ensures var run := Apply("filterWhere", args, env, st);
      if |args| >= 1 && args[0].Arr? && |args[0].items| > 10_000 then run == Run(0, Err(LimitFault), st)
      else if |args| < 3 || !args[0].Arr? || !args[1].Str? || !args[2].Str? || args[2].s !in GATE_OPS then run == Run(0, Err(TypeFault), st)
      else
        && run.result.Ok? && run.result.value.Arr? && run.result.value.ref == st.refs && run.state == st.(refs := st.refs + 1)
        && run.cost == WalkCosts(args[0].items, args[1].s)
        && run.result.value.items == Kept(args[0].items, args[1].s, args[2].s, if |args| == 3 then Undef else args[3], env)
  {
    hide GATE_OPS, Lets, FilterAll;
    if |args| >= 3 && args[0].Arr? && args[1].Str? && args[2].Str? {
      FilterKeeps(args[0].items, args[1].s, args[2].s, if |args| == 3 then Undef else args[3], env);
    }
  }

  function Kept(items: seq<Value>, path: string, op: string, right: Value, env: Env): seq<Value> {
    if items == [] then []
    else if Lets(items[0], path, op, right, env) then [items[0]] + Kept(items[1..], path, op, right, env)
    else Kept(items[1..], path, op, right, env)
  }

  lemma {:induction false} KeptSnoc(init: seq<Value>, last: Value, path: string, op: string, right: Value, env: Env)
    ensures Kept(init + [last], path, op, right, env)
      == Kept(init, path, op, right, env) + if Lets(last, path, op, right, env) then [last] else []
    decreases |init|
  {
    hide Lets;
    if init == [] {
      assert [] + [last] == [last] && [last][1..] == [];
    } else {
      assert (init + [last])[1..] == init[1..] + [last];
      KeptSnoc(init[1..], last, path, op, right, env);
    }
  }

  lemma {:induction false} FilterKeeps(items: seq<Value>, path: string, op: string, right: Value, env: Env)
    ensures FilterAll(items, path, op, right, env).items == Kept(items, path, op, right, env)
    ensures FilterAll(items, path, op, right, env).cost == WalkCosts(items, path)
    decreases |items|
  {
    hide Kept, PathWalk, WalkCosts;
    if items == [] {
      NoneKept(path, op, right, env);
      NoWalks(path);
    } else {
      var init, last := items[..|items| - 1], items[|items| - 1];
      FilterKeeps(init, path, op, right, env);
      assert items == init + [last];
      KeptSnoc(init, last, path, op, right, env);
      WalkCostsSnoc(init, last, path);
    }
  }

  lemma NoneKept(path: string, op: string, right: Value, env: Env)
    ensures Kept([], path, op, right, env) == []
  {
  }

  /** `get`: what the own properties along the path lead to, and the third argument where that is nothing or `undefined`. */
  lemma GetYields(args: seq<Value>, env: Env, st: State)
    ensures var run := Apply("get", args, env, st);
      if |args| < 2 || !args[1].Str? then run == Run(0, Err(TypeFault), st)
      else
        && run.state == st
        && run.result == Ok(LookupOr(Own(args[0], Segments(args[1].s)), if |args| == 2 then Undef else args[2]))
  {
    hide Segments, OwnProperty;
    if |args| >= 2 && args[1].Str? { GetIsOwn(args[0], Segments(args[1].s)); }
  }

  /** The property chain: from the last segment backwards. */
  function Own(cur: Value, segments: seq<string>): Lookup
    decreases |segments|
  {
    if segments == [] then (if cur == Undef then Missing else Found(cur)) else
    var before := OwnAll(cur, segments[..|segments| - 1]);
    if before.Missing? then Missing else
    var last := OwnProperty(before.value, segments[|segments| - 1]);
    if last == Found(Undef) then Missing else last
  }

  function OwnAll(cur: Value, segments: seq<string>): Lookup
    decreases |segments|
  {
    if segments == [] then Found(cur) else
    var before := OwnAll(cur, segments[..|segments| - 1]);
    if before.Missing? then Missing else OwnProperty(before.value, segments[|segments| - 1])
  }

  lemma {:induction false} OwnAllCons(cur: Value, segments: seq<string>)
    requires segments != []
    ensures OwnAll(cur, segments)
      == match OwnProperty(cur, segments[0]) case Missing => Missing case Found(next) => OwnAll(next, segments[1..])
    decreases |segments|
  {
    hide OwnProperty;
    if |segments| == 1 {
      assert segments[..0] == [] && segments[1..] == [];
    } else {
      var init := segments[..|segments| - 1];
      OwnAllCons(cur, init);
      assert init[1..] == segments[1..][..|segments| - 2];
    }
  }

  lemma {:induction false} GetIsOwn(cur: Value, segments: seq<string>)
    ensures GetFrom(cur, segments).at == Own(cur, segments)
    decreases |segments|
  {
    hide OwnProperty;
    if segments != [] {
      var next := OwnProperty(cur, segments[0]);
      OwnAllCons(cur, segments[..|segments| - 1] + [segments[|segments| - 1]]);
      if next.Found? { GetIsOwn(next.value, segments[1..]); }
      OwnCons(cur, segments);
    }
  }

  lemma OwnCons(cur: Value, segments: seq<string>)
    requires segments != []
    ensures Own(cur, segments)
      == match OwnProperty(cur, segments[0]) case Missing => Missing case Found(next) => Own(next, segments[1..])
  {
    hide OwnProperty;
    if |segments| == 1 {
      assert segments[..0] == [] && segments[1..] == [];
    } else {
      var init := segments[..|segments| - 1];
      OwnAllCons(cur, init);
      assert init[1..] == segments[1..][..|segments| - 2];
    }
  }

  /** Every other name goes to the host's table, or is unknown. */
  lemma OtherNames(fn: string, args: seq<Value>, env: Env, st: State)
    requires fn !in {"rand", "now", "pluck", "filterWhere", "get", "toJson"}
    ensures fn !in env.hostTable ==> Apply(fn, args, env, st) == Run(0, Err(UnknownFunction), st)
    ensures fn in env.hostTable ==>
      var h, run := env.hostTable[fn](args, st.refs), Apply(fn, args, env, st);
      && run.cost == h.cost && run.state == State(st.draws, h.refs)
      && (h.result.HostOk? ==> run.result == Ok(h.result.value))
      && (h.result == HostTypeFault ==> run.result == Err(TypeFault)) && (h.result == HostLimitFault ==> run.result == Err(LimitFault))
  {
  }
}
