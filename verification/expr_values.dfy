/** The values the evaluator works on, and the operations on them that spend no fuel. */
module ExprValues {
  import opened ExprText
  import opened ExprAst

  const MAX_STRING_BYTES: nat := 64 * 1024
  const MAX_ARRAY_LENGTH: nat := 10_000

  /** A number: exact where the host rounds, without a signed zero. */
  datatype Number = Fin(r: real) | Inf(negative: bool) | NaN

  /** `ref` is the identity `===` compares arrays and objects by. */
  datatype Value =
    | Undef
    | Null
    | Bool(b: bool)
    | Num(n: Number)
    | Str(s: string)
    | Arr(ref: nat, items: seq<Value>)
    | Obj(ref: nat, fields: seq<Field>)

  /** One own property; an object lists its own in key order. */
  datatype Field = Field(key: string, value: Value)

  /** A type error, a size limit, and the evaluator's defensive branch. */
  datatype Fault = TypeFault | LimitFault | UnknownFunction

  datatype Result<+T> = Ok(value: T) | Err(fault: Fault)

  // ------------------------------------------------------------------ numbers

  function Negate(x: Number): Number {
    match x case Fin(a) => Fin(-a) case Inf(s) => Inf(!s) case NaN => NaN
  }

  function Sum(x: Number, y: Number): Number {
    match (x, y)
    case (NaN, _) => NaN
    case (_, NaN) => NaN
    case (Inf(s), Inf(t)) => if s == t then x else NaN
    case (Inf(_), _) => x
    case (_, Inf(_)) => y
    case (Fin(a), Fin(b)) => Fin(a + b)
  }

  function Difference(x: Number, y: Number): Number { Sum(x, Negate(y)) }

  function IsNegative(x: Number): bool {
    match x case Fin(a) => a < 0.0 case Inf(s) => s case NaN => false
  }

  function Times(x: Number, y: Number): Number {
    match (x, y)
    case (NaN, _) => NaN
    case (_, NaN) => NaN
    case (Fin(a), Fin(b)) => Fin(a * b)
    case _ => if x == Fin(0.0) || y == Fin(0.0) then NaN else Inf(IsNegative(x) != IsNegative(y))
  }

  function Over(x: Number, y: Number): Number {
    match (x, y)
    case (NaN, _) => NaN
    case (_, NaN) => NaN
    case (Inf(_), Inf(_)) => NaN
    case (Fin(_), Inf(_)) => Fin(0.0)
    case (Inf(s), Fin(b)) => Inf(s != (b < 0.0))
    case (Fin(a), Fin(b)) => if b != 0.0 then Fin(a / b) else if a == 0.0 then NaN else Inf(a < 0.0)
  }

  /** `x` without its fraction, rounded toward zero. */
  function Truncate(x: real): real {
    if x < 0.0 then -((-x).Floor as real) else x.Floor as real
  }

  function Remainder(x: Number, y: Number): Number {
    match (x, y)
    case (Fin(a), Fin(b)) => if b == 0.0 then NaN else Fin(a - b * Truncate(a / b))
    case (Fin(_), Inf(_)) => x
    case _ => NaN
  }

  function LessThan(x: Number, y: Number): bool {
    match (x, y)
    case (NaN, _) => false
    case (_, NaN) => false
    case (Fin(a), Fin(b)) => a < b
    case (Inf(s), Inf(t)) => s && !t
    case (Inf(s), Fin(_)) => s
    case (Fin(_), Inf(t)) => !t
  }

  /** Numeric `===`. */
  function SameNumber(x: Number, y: Number): bool { x == y && x != NaN }

  function FloorOf(x: Number): Number {
    match x case Fin(a) => Fin(a.Floor as real) case _ => x
  }

  function DigitsValue(s: string): nat
    requires AllDigits(s)
  {
    if s == "" then 0 else 10 * DigitsValue(s[..|s| - 1]) + (s[|s| - 1] as int - '0' as int)
  }

  function PowerOfTen(n: nat): (p: nat)
    ensures p > 0
  {
    if n == 0 then 1 else 10 * PowerOfTen(n - 1)
  }

  /** Where the fraction's point is, or the numeral's length. */
  function PointAt(s: string): (k: nat)
    ensures k <= |s| && AllDigits(s[..k]) && (k < |s| ==> !IsDigit(s[k]))
  {
    if s != "" && IsDigit(s[0]) then
      var k := 1 + PointAt(s[1..]);
      assert forall i | 1 <= i < k :: s[..k][i] == s[1..][..k - 1][i - 1];
      k
    else 0
  }

  lemma NumeralShape(s: Numeral)
    ensures var k := PointAt(s); k < |s| ==> AllDigits(s[k + 1..])
  {
    var k := PointAt(s);
    if k < |s| {
      assert !AllDigits(s);
      var j :| 0 < j < |s| - 1 && IsNumeralSplitAt(s, j);
      assert forall i | 0 <= i < j :: s[i] == s[..j][i];
      assert forall i | 0 <= i < k :: s[i] == s[..k][i];
      assert forall i | j < i < |s| :: s[i] == s[j + 1..][i - j - 1];
      assert j == k;
    }
  }

  function NumeralValue(s: Numeral): real {
    NumeralShape(s);
    var k := PointAt(s);
    var whole := DigitsValue(s[..k]) as real;
    if k < |s| then
      assert PowerOfTen(|s| - k - 1) as real > 0.0;
      whole + DigitsValue(s[k + 1..]) as real / (PowerOfTen(|s| - k - 1) as real)
    else whole
  }

  // ------------------------------------------------------------------- values

  function LiteralValue(v: Literal): Value {
    match v
    case NumLit(n) => Num(Fin(NumeralValue(n)))
    case StrLit(s) => Str(s)
    case BoolLit(b) => Bool(b)
    case NullLit => Null
  }

  predicate Truthy(v: Value) {
    match v
    case Undef => false
    case Null => false
    case Bool(b) => b
    case Num(n) => n != Fin(0.0) && n != NaN
    case Str(s) => s != ""
    case Arr(_, _) => true
    case Obj(_, _) => true
  }

  /** `a === b`: primitives by value, arrays and objects by identity. */
  predicate Same(a: Value, b: Value) {
    match (a, b)
    case (Num(x), Num(y)) => SameNumber(x, y)
    case (Arr(p, _), Arr(q, _)) => p == q
    case (Obj(p, _), Obj(q, _)) => p == q
    case _ => a == b
  }

  datatype Lookup = Missing | Found(value: Value)

  /** The own property `key` among `fields`. */
  function FieldOf(fields: seq<Field>, key: string): (r: Lookup)
    ensures r.Found? ==> exists i | 0 <= i < |fields| :: fields[i] == Field(key, r.value)
    ensures r.Missing? ==> forall i | 0 <= i < |fields| :: fields[i].key != key
  {
    if fields == [] then Missing
    else if fields[0].key == key then Found(fields[0].value)
    else
      var r := FieldOf(fields[1..], key);
      assert r.Found? ==> exists i | 0 <= i < |fields| - 1 :: fields[1..][i] == fields[i + 1] == Field(key, r.value);
      assert forall i | 0 < i < |fields| :: fields[i] == fields[1..][i - 1];
      r
  }

  /** `s` spells an index the way array keys are spelled: no leading zero. */
  predicate IsIndexKey(s: string) {
    s != "" && AllDigits(s) && (s[0] == '0' ==> |s| == 1)
  }

  /** The own property `key` of `on`; an array owns its elements and its length. */
  function OwnProperty(on: Value, key: string): Lookup {
    match on
    case Obj(_, fields) => FieldOf(fields, key)
    case Arr(_, items) =>
      if key == "length" then Found(Num(Fin(|items| as real)))
      else if IsIndexKey(key) && DigitsValue(key) < |items| then Found(items[DigitsValue(key)])
      else Missing
    case _ => Missing
  }

  function GetMember(on: Value, key: string): Value {
    match OwnProperty(on, key) case Found(v) => v case Missing => Undef
  }

  function GetIndex(on: Value, idx: Value): Value {
    match (on, idx)
    case (Arr(_, items), Num(Fin(x))) =>
      if x.Floor as real == x && 0 <= x.Floor < |items| then items[x.Floor] else Undef
    case (Obj(_, _), Str(key)) => GetMember(on, key)
    case _ => Undef
  }

  /** The number of values in the tree `v`. */
  function ValueSize(v: Value): (n: nat)
    ensures n >= 1
    decreases v
  {
    match v
    case Arr(_, items) => 1 + ItemsSize(items)
    case Obj(_, fields) => 1 + FieldsSize(fields)
    case _ => 1
  }

  function ItemsSize(items: seq<Value>): nat
    decreases items
  {
    if items == [] then 0 else ValueSize(items[0]) + ItemsSize(items[1..])
  }

  function FieldsSize(fields: seq<Field>): nat
    decreases fields
  {
    if fields == [] then 0 else ValueSize(fields[0].value) + FieldsSize(fields[1..])
  }

  lemma {:induction false} ItemSize(items: seq<Value>, i: nat)
    requires i < |items|
    ensures ValueSize(items[i]) <= ItemsSize(items)
  {
    if i > 0 {
      ItemSize(items[1..], i - 1);
    }
  }

  lemma {:induction false} FieldSize(fields: seq<Field>, i: nat)
    requires i < |fields|
    ensures ValueSize(fields[i].value) <= FieldsSize(fields)
  {
    if i > 0 {
      FieldSize(fields[1..], i - 1);
    }
  }

  /** An own property is no larger than what it was read from. */
  lemma OwnPropertySize(on: Value, key: string)
    ensures ValueSize(GetMember(on, key)) <= ValueSize(on)
  {
    match on
    case Obj(_, fields) =>
      var r := FieldOf(fields, key);
      if r.Found? {
        var i :| 0 <= i < |fields| && fields[i] == Field(key, r.value);
        FieldSize(fields, i);
      }
    case Arr(_, items) =>
      if key != "length" && IsIndexKey(key) && DigitsValue(key) < |items| {
        ItemSize(items, DigitsValue(key));
      }
    case _ =>
  }

  lemma IndexedSize(on: Value, idx: Value)
    ensures ValueSize(GetIndex(on, idx)) <= ValueSize(on)
  {
    match (on, idx)
    case (Arr(_, items), Num(Fin(x))) =>
      if x.Floor as real == x && 0 <= x.Floor < |items| {
        ItemSize(items, x.Floor);
      }
    case (Obj(_, _), Str(key)) => OwnPropertySize(on, key);
    case _ =>
  }
}
