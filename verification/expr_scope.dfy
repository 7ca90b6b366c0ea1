/** How host values enter the evaluator: `toScopeValue` on object graphs of any shape. */
module ExprScope {
  import opened ExprAst
  import opened ExprValues

  /** A value of the host. Functions, symbols and big integers are all alike here. */
  datatype Host =
    | HostUndefined | HostNull | HostBool(b: bool) | HostNumber(n: Number) | HostString(s: string)
    | HostFunction
    | Ref(at: nat)

  datatype Property = Property(key: string, value: Host)

  /** What a reference leads to; anything with a prototype of its own is `Exotic`. */
  datatype HostObject = HostArray(items: seq<Host>) | PlainObject(properties: seq<Property>) | Exotic

  /** Any object graph, shared and cyclic ones included. */
  type Heap = nat -> HostObject

  /** The levels left before the depth limit cuts. */
  function Left(depth: nat): nat {
    if depth > MAX_DEPTH then 0 else MAX_DEPTH + 1 - depth
  }

  function Shortened(items: seq<Host>): seq<Host> {
    if |items| > MAX_ARRAY_LENGTH then items[..MAX_ARRAY_LENGTH] else items
  }

  /** The copy of a value; the identities of the fresh arrays and objects are not told apart. */
  function ScopeValue(h: Heap, v: Host, depth: nat): Value
    decreases Left(depth), 0
  {
    if depth > MAX_DEPTH then Undef else
    match v
    case HostUndefined => Undef
    case HostNull => Null
    case HostBool(b) => Bool(b)
    case HostNumber(n) => Num(n)
    case HostString(s) => Str(s)
    case HostFunction => Undef
    case Ref(at) =>
      match h(at)
      case HostArray(items) => Arr(0, ScopeItems(h, Shortened(items), depth + 1))
      case PlainObject(properties) => Obj(0, ScopeFields(h, properties, depth + 1))
      case Exotic => Undef
  }

  function ScopeItems(h: Heap, items: seq<Host>, depth: nat): (r: seq<Value>)
    ensures |r| == |items|
    ensures forall i | 0 <= i < |items| :: r[i] == ScopeValue(h, items[i], depth)
    decreases Left(depth), |items|
  {
    if items == [] then [] else
    ScopeItems(h, items[..|items| - 1], depth) + [ScopeValue(h, items[|items| - 1], depth)]
  }

  function ScopeFields(h: Heap, properties: seq<Property>, depth: nat): (r: seq<Field>)
    ensures |r| == |properties|
    ensures forall i | 0 <= i < |r| :: r[i] == Field(properties[i].key, ScopeValue(h, properties[i].value, depth))
    decreases Left(depth), |properties|
  {
    if properties == [] then [] else
    var last := properties[|properties| - 1];
    ScopeFields(h, properties[..|properties| - 1], depth) + [Field(last.key, ScopeValue(h, last.value, depth))]
  }

  method ToScopeValue(h: Heap, v: Host, depth: nat) returns (r: Value)
    ensures r == ScopeValue(h, v, depth)
    decreases Left(depth), 0
  {
    hide ScopeItems, ScopeFields;
    if depth > MAX_DEPTH { return Undef; }
    match v
    case HostUndefined => return Undef;
    case HostNull => return Null;
    case HostBool(b) => return Bool(b);
    case HostNumber(n) => return Num(n);
    case HostString(s) => return Str(s);
    case HostFunction => return Undef;
    case Ref(at) =>
      match h(at) {
        case HostArray(items) =>
          var out := ToScopeItems(h, items, depth + 1);
          return Arr(0, out);
        case PlainObject(properties) =>
          var out := ToScopeFields(h, properties, depth + 1);
          return Obj(0, out);
        case Exotic => return Undef;
      }
  }

  method ToScopeItems(h: Heap, items: seq<Host>, depth: nat) returns (out: seq<Value>)
    ensures out == ScopeItems(h, Shortened(items), depth)
    decreases Left(depth), 1
  {
    hide ScopeValue;
    var n := if |items| < MAX_ARRAY_LENGTH then |items| else MAX_ARRAY_LENGTH;
    out := [];
    for i := 0 to n
      invariant out == ScopeItems(h, items[..i], depth)
    {
      assert items[..i + 1][..i] == items[..i];
      var item := ToScopeValue(h, items[i], depth);
      out := out + [item];
    }
    assert items[..n] == Shortened(items);
  }

  method ToScopeFields(h: Heap, properties: seq<Property>, depth: nat) returns (out: seq<Field>)
    ensures out == ScopeFields(h, properties, depth)
    decreases Left(depth), 1
  {
    hide ScopeValue;
    out := [];
    for i := 0 to |properties|
      invariant out == ScopeFields(h, properties[..i], depth)
    {
      assert properties[..i + 1][..i] == properties[..i];
      var value := ToScopeValue(h, properties[i].value, depth);
      out := out + [Field(properties[i].key, value)];
    }
    assert properties[..|properties|] == properties;
  }

  // --------------------------------------------------------------------- limits

  /** A tree within the limits of a scope, `depth` levels down. */
  predicate Fits(v: Value, depth: nat)
    decreases v
  {
    if depth > MAX_DEPTH then v == Undef else
    match v
    case Arr(_, items) => |items| <= MAX_ARRAY_LENGTH && forall i | 0 <= i < |items| :: Fits(items[i], depth + 1)
    case Obj(_, fields) => forall i | 0 <= i < |fields| :: Fits(fields[i].value, depth + 1)
    case _ => true
  }

  /** The items of a copied array, and the fields of a copied object, are copied one by one. */
  lemma CopyOfArray(h: Heap, at: nat, depth: nat)
    requires depth <= MAX_DEPTH && h(at).HostArray?
    ensures var v, some := ScopeValue(h, Ref(at), depth), Shortened(h(at).items);
      && v.Arr? && |v.items| == |some| <= MAX_ARRAY_LENGTH
      && forall i | 0 <= i < |some| :: v.items[i] == ScopeValue(h, some[i], depth + 1)
  {
  }

  lemma CopyOfObject(h: Heap, at: nat, depth: nat)
    requires depth <= MAX_DEPTH && h(at).PlainObject?
    ensures var v, props := ScopeValue(h, Ref(at), depth), h(at).properties;
      && v.Obj? && |v.fields| == |props|
      && forall i | 0 <= i < |props| :: v.fields[i].value == ScopeValue(h, props[i].value, depth + 1)
  {
  }

  lemma CopyOfPlain(h: Heap, v: Host, depth: nat)
    requires depth > MAX_DEPTH || !v.Ref? || h(v.at).Exotic?
    ensures Fits(ScopeValue(h, v, depth), depth)
  {
  }

  /** Whatever the graph, its copy is a tree within the limits. */
  lemma {:induction false} CopyFits(h: Heap, v: Host, depth: nat)
    ensures Fits(ScopeValue(h, v, depth), depth)
    decreases Left(depth)
  {
    hide ScopeValue, Shortened;
    if depth > MAX_DEPTH || !v.Ref? || h(v.at).Exotic? {
      CopyOfPlain(h, v, depth);
    } else if h(v.at).HostArray? {
      CopyOfArray(h, v.at, depth);
      var some := Shortened(h(v.at).items);
      forall i | 0 <= i < |some|
        ensures Fits(ScopeValue(h, v, depth).items[i], depth + 1)
      {
        CopyFits(h, some[i], depth + 1);
      }
    } else {
      CopyOfObject(h, v.at, depth);
      forall i | 0 <= i < |h(v.at).properties|
        ensures Fits(ScopeValue(h, v, depth).fields[i].value, depth + 1)
      {
        CopyFits(h, h(v.at).properties[i].value, depth + 1);
      }
    }
  }

  /** The host value `v` is the tree `t`, and holds nothing that is not data. */
  ghost predicate Represents(h: Heap, v: Host, t: Value)
    decreases t
  {
    match v
    case HostUndefined => t == Undef
    case HostNull => t == Null
    case HostBool(b) => t == Bool(b)
    case HostNumber(n) => t == Num(n)
    case HostString(s) => t == Str(s)
    case HostFunction => false
    case Ref(at) =>
      match h(at)
      case HostArray(items) =>
        t.Arr? && t.ref == 0 && |items| == |t.items| && forall i | 0 <= i < |items| :: Represents(h, items[i], t.items[i])
      case PlainObject(properties) =>
        t.Obj? && t.ref == 0 && |properties| == |t.fields|
        && forall i | 0 <= i < |properties| ::
             properties[i].key == t.fields[i].key && Represents(h, properties[i].value, t.fields[i].value)
      case Exotic => false
  }

  /** Data is copied unchanged exactly when it is within the limits. */
  lemma CopyIsExactIff(h: Heap, v: Host, t: Value, depth: nat)
    requires Represents(h, v, t)
    ensures ScopeValue(h, v, depth) == t <==> Fits(t, depth)
  {
    CopyFits(h, v, depth);
    if Fits(t, depth) { FittingIsCopied(h, v, t, depth); }
  }

  lemma {:induction false} FittingIsCopied(h: Heap, v: Host, t: Value, depth: nat)
    requires Represents(h, v, t) && Fits(t, depth)
    ensures ScopeValue(h, v, depth) == t
    decreases t
  {
    if depth <= MAX_DEPTH && v.Ref? {
      match h(v.at)
      case HostArray(items) =>
        forall i | 0 <= i < |items|
          ensures ScopeValue(h, items[i], depth + 1) == t.items[i]
        {
          FittingIsCopied(h, items[i], t.items[i], depth + 1);
        }
        assert ScopeItems(h, items, depth + 1) == t.items;
      case PlainObject(properties) =>
        forall i | 0 <= i < |properties|
          ensures ScopeValue(h, properties[i].value, depth + 1) == t.fields[i].value
        {
          FittingIsCopied(h, properties[i].value, t.fields[i].value, depth + 1);
        }
        assert ScopeFields(h, properties, depth + 1) == t.fields;
      case Exotic =>
    }
  }

  /** Copying a copy changes nothing, whatever was copied first and wherever the copy lives. */
  lemma CopyingIsIdempotent(h: Heap, v: Host, h': Heap, v': Host)
    requires Represents(h', v', ScopeValue(h, v, 0))
    ensures ScopeValue(h', v', 0) == ScopeValue(h, v, 0)
  {
    CopyFits(h, v, 0);
    CopyIsExactIff(h', v', ScopeValue(h, v, 0), 0);
  }

  /** Arrays inside arrays, `n` of them, around `undefined`. */
  function Nest(n: nat, ref: nat): Value {
    if n == 0 then Undef else Arr(ref, [Nest(n - 1, ref)])
  }

  /** An array that holds itself is cut where the limit says. */
  lemma {:induction false} CycleIsCut(h: Heap, at: nat, depth: nat)
    requires h(at) == HostArray([Ref(at)])
    ensures ScopeValue(h, Ref(at), depth) == Nest(Left(depth), 0)
    decreases Left(depth)
  {
    if depth <= MAX_DEPTH {
      CycleIsCut(h, at, depth + 1);
      OneItem(h, at, depth);
    }
  }

  lemma OneItem(h: Heap, at: nat, depth: nat)
    requires h(at) == HostArray([Ref(at)]) && depth <= MAX_DEPTH
    ensures ScopeValue(h, Ref(at), depth) == Arr(0, [ScopeValue(h, Ref(at), depth + 1)])
  {
    hide ScopeItems;
    var items := [Ref(at)];
    assert Shortened(items) == items;
    var copies := ScopeItems(h, items, depth + 1);
    assert copies[0] == ScopeValue(h, items[0], depth + 1);
    assert copies == [ScopeValue(h, Ref(at), depth + 1)];
  }
}

/** The comparisons of a gate, as `filterWhere` makes them. */
module ExprGate {
  import opened ExprAst
  import opened ExprValues
  import opened ExprSemantics
  import opened ExprScope

  /** `gateDeepEqual`: below the depth limit nothing is equal, not even to itself. */
  predicate GateEqual(a: Value, b: Value, depth: nat)
    decreases a
  {
    depth <= MAX_DEPTH && (Same(a, b) ||
    match (a, b)
    case (Arr(_, xs), Arr(_, ys)) => |xs| == |ys| && forall i | 0 <= i < |xs| :: GateEqual(xs[i], ys[i], depth + 1)
    case (Obj(_, fs), Obj(_, gs)) =>
      |fs| == |gs| && forall i | 0 <= i < |fs| ::
        FieldOf(gs, fs[i].key).Found? && GateEqual(fs[i].value, FieldOf(gs, fs[i].key).value, depth + 1)
    case _ => false)
  }

  function Max(x: nat, y: nat): nat { if x < y then y else x }

  /** How many levels down two values have to be compared. */
  function Levels(a: Value, b: Value): nat
    decreases a
  {
    if Same(a, b) then 0 else
    match (a, b)
    case (Arr(_, xs), Arr(_, ys)) => if |xs| == |ys| then ItemLevels(xs, ys) else 0
    case (Obj(_, fs), Obj(_, gs)) => FieldLevels(fs, gs)
    case _ => 0
  }

  function ItemLevels(xs: seq<Value>, ys: seq<Value>): nat
    requires |xs| == |ys|
    decreases xs
  {
    if xs == [] then 0 else Max(1 + Levels(xs[0], ys[0]), ItemLevels(xs[1..], ys[1..]))
  }

  function FieldLevels(fs: seq<Field>, gs: seq<Field>): nat
    decreases fs
  {
    if fs == [] then 0 else
    var rest := FieldLevels(fs[1..], gs);
    match FieldOf(gs, fs[0].key)
    case Missing => rest
    case Found(other) => Max(1 + Levels(fs[0].value, other), rest)
  }

  /** A gate says equal exactly when `==` does and no more levels are compared than the limit allows. */
  lemma {:induction false} GateEqualIff(a: Value, b: Value, depth: nat)
    ensures GateEqual(a, b, depth) <==> DeepEqual(a, b).equal && depth + Levels(a, b) <= MAX_DEPTH
    decreases a
  {
    if !Same(a, b) {
      match (a, b)
      case (Arr(_, xs), Arr(_, ys)) => if |xs| == |ys| && depth <= MAX_DEPTH { ItemsGateIff(xs, ys, depth); }
      case (Obj(_, fs), Obj(_, gs)) => if |fs| == |gs| && depth <= MAX_DEPTH { FieldsGateIff(fs, gs, depth); }
      case _ =>
    }
  }

  lemma {:induction false} ItemsGateIff(xs: seq<Value>, ys: seq<Value>, depth: nat)
    requires |xs| == |ys| && depth <= MAX_DEPTH
    ensures (forall i | 0 <= i < |xs| :: GateEqual(xs[i], ys[i], depth + 1))
       <==> ItemsEqual(xs, ys).equal && depth + ItemLevels(xs, ys) <= MAX_DEPTH
    decreases xs
  {
    hide GateEqual, DeepEqual, Levels;
    if xs != [] {
      GateEqualIff(xs[0], ys[0], depth + 1);
      ItemsGateIff(xs[1..], ys[1..], depth);
      ItemsGateCons(xs, ys, depth + 1);
    }
  }

  lemma ItemsGateCons(xs: seq<Value>, ys: seq<Value>, depth: nat)
    requires |xs| == |ys| > 0
    ensures (forall i | 0 <= i < |xs| :: GateEqual(xs[i], ys[i], depth))
       <==> GateEqual(xs[0], ys[0], depth) && forall i | 0 <= i < |xs[1..]| :: GateEqual(xs[1..][i], ys[1..][i], depth)
  {
    hide GateEqual;
    if forall i | 0 <= i < |xs[1..]| :: GateEqual(xs[1..][i], ys[1..][i], depth) {
      forall i | 0 < i < |xs|
        ensures GateEqual(xs[i], ys[i], depth)
      {
        assert GateEqual(xs[1..][i - 1], ys[1..][i - 1], depth);
      }
    }
  }

  ghost predicate FieldMatches(f: Field, gs: seq<Field>, depth: nat) {
    FieldOf(gs, f.key).Found? && GateEqual(f.value, FieldOf(gs, f.key).value, depth)
  }

  lemma {:induction false} FieldsGateIff(fs: seq<Field>, gs: seq<Field>, depth: nat)
    requires depth <= MAX_DEPTH
    ensures (forall i | 0 <= i < |fs| :: FieldMatches(fs[i], gs, depth + 1))
       <==> FieldsEqual(fs, gs).equal && depth + FieldLevels(fs, gs) <= MAX_DEPTH
    decreases fs
  {
    if fs != [] {
      var found := FieldOf(gs, fs[0].key);
      if found.Found? { GateEqualIff(fs[0].value, found.value, depth + 1); }
      FieldsGateIff(fs[1..], gs, depth);
      FieldsGateCons(fs, gs, depth + 1);
      hide GateEqual;
    }
  }

  lemma FieldsGateCons(fs: seq<Field>, gs: seq<Field>, depth: nat)
    requires fs != []
    ensures (forall i | 0 <= i < |fs| :: FieldMatches(fs[i], gs, depth))
       <==> FieldMatches(fs[0], gs, depth) && forall i | 0 <= i < |fs[1..]| :: FieldMatches(fs[1..][i], gs, depth)
  {
    hide FieldMatches;
    if forall i | 0 <= i < |fs[1..]| :: FieldMatches(fs[1..][i], gs, depth) {
      forall i | 0 < i < |fs|
        ensures FieldMatches(fs[i], gs, depth)
      {
        assert FieldMatches(fs[1..][i - 1], gs, depth);
      }
    }
  }

  /**
   * The deepest value a scope can hold, such as the copy of an array that holds itself,
   * equals a copy of its own by `==` and not by a gate.
   */
  lemma DeepestIsNotGateEqual()
    ensures Fits(Nest(MAX_DEPTH + 1, 0), 0)
    ensures DeepEqual(Nest(MAX_DEPTH + 1, 0), Nest(MAX_DEPTH + 1, 1)).equal
    ensures !GateEqual(Nest(MAX_DEPTH + 1, 0), Nest(MAX_DEPTH + 1, 1), 0)
  {
    NestFits(MAX_DEPTH + 1, 0);
    NestLevels(MAX_DEPTH + 1);
    GateEqualIff(Nest(MAX_DEPTH + 1, 0), Nest(MAX_DEPTH + 1, 1), 0);
  }

  lemma {:induction false} NestFits(n: nat, ref: nat)
    requires n <= MAX_DEPTH + 1
    ensures Fits(Nest(n, ref), MAX_DEPTH + 1 - n)
  {
    if n > 0 { NestFits(n - 1, ref); }
  }

  lemma {:induction false} NestLevels(n: nat)
    ensures DeepEqual(Nest(n, 0), Nest(n, 1)).equal && Levels(Nest(n, 0), Nest(n, 1)) == n
  {
    if n > 0 {
      NestLevels(n - 1);
      NestOne(Nest(n - 1, 0), Nest(n - 1, 1));
    }
  }

  lemma NestOne(a: Value, b: Value)
    ensures var xs, ys := Arr(0, [a]), Arr(1, [b]);
      DeepEqual(xs, ys).equal == DeepEqual(a, b).equal && Levels(xs, ys) == 1 + Levels(a, b)
  {
    var xs, ys := [a], [b];
    assert xs[1..] == [] && ys[1..] == [];
    assert ItemsEqual(xs[1..], ys[1..]).equal && ItemLevels(xs[1..], ys[1..]) == 0;
    assert ItemsEqual(xs, ys).equal == DeepEqual(a, b).equal && ItemLevels(xs, ys) == 1 + Levels(a, b);
  }

  // ---------------------------------------------------------------- the operators

  predicate IsEmpty(v: Value) {
    match v
    case Undef => true
    case Null => true
    case Str(s) => s == ""
    case Arr(_, items) => items == []
    case Obj(_, fields) => fields == []
    case _ => false
  }

  predicate Includes(s: string, part: string) {
    exists i | 0 <= i <= |s| :: part <= s[i..]
  }

  /** `gateCompare`, for the operators of the table; `found` tells an absent path from a null. */
  predicate GateCompare(op: string, found: bool, left: Value, right: Value) {
    if op == "exists" then found && left != Null && left != Undef
    else if op == "notExists" then !(found && left != Null && left != Undef)
    else if op == "isEmpty" then !found || IsEmpty(left)
    else if op == "notEmpty" then found && !IsEmpty(left)
    else if op == "eq" then found && GateEqual(left, right, 0)
    else if op == "ne" then found && !GateEqual(left, right, 0)
    else if op == "lt" then found && left.Num? && right.Num? && LessThan(left.n, right.n)
    else if op == "lte" then found && left.Num? && right.Num? && (LessThan(left.n, right.n) || SameNumber(left.n, right.n))
    else if op == "gt" then found && left.Num? && right.Num? && LessThan(right.n, left.n)
    else if op == "gte" then found && left.Num? && right.Num? && (LessThan(right.n, left.n) || SameNumber(left.n, right.n))
    else if op == "contains" then Contains(found, left, right)
    else if op == "notContains" then !Contains(found, left, right)
    else if op == "startsWith" then found && left.Str? && right.Str? && right.s <= left.s
    else if op == "endsWith" then found && left.Str? && right.Str? && |right.s| <= |left.s| && right.s == left.s[|left.s| - |right.s|..]
    else if op == "length" then
      found && (left.Str? || left.Arr?) && right == Num(Fin((if left.Str? then |left.s| else |left.items|) as real))
    else false
  }

  predicate Contains(found: bool, left: Value, right: Value) {
    found && match left
             case Str(s) => right.Str? && Includes(s, right.s)
             case Arr(_, items) => exists i | 0 <= i < |items| :: GateEqual(items[i], right, 0)
             case _ => false
  }

  /** Of two numbers that are numbers, exactly one of `lt`, `eq` and `gt` holds; the others combine them. */
  lemma NumbersCompare(a: Number, b: Number)
    requires a != NaN && b != NaN
    ensures var holds := (op: string) => GateCompare(op, true, Num(a), Num(b));
      && (holds("lt") || holds("eq") || holds("gt"))
      && !(holds("lt") && holds("eq")) && !(holds("lt") && holds("gt")) && !(holds("eq") && holds("gt"))
      && holds("lte") == (holds("lt") || holds("eq")) && holds("gte") == (holds("gt") || holds("eq"))
  {
    assert GateCompare("eq", true, Num(a), Num(b)) == SameNumber(a, b);
  }

  /** The order operators on finite numbers; nothing but two numbers is in any order. */
  lemma OrderGates(x: real, y: real, left: Value, right: Value)
    ensures var a, b := Num(Fin(x)), Num(Fin(y));
      && (GateCompare("lt", true, a, b) <==> 0.0 < y - x) && (GateCompare("gt", true, a, b) <==> 0.0 < x - y)
      && (GateCompare("lte", true, a, b) <==> 0.0 <= y - x) && (GateCompare("gte", true, a, b) <==> 0.0 <= x - y)
    ensures !left.Num? || !right.Num? ==> forall op | op in {"lt", "lte", "gt", "gte"} :: !GateCompare(op, true, left, right)
  {
  }

  /** A path that leads nowhere passes exactly the gates that ask for that. */
  lemma NowherePasses(op: string, left: Value, right: Value)
    ensures GateCompare(op, false, left, right) <==> op in {"notExists", "isEmpty", "notContains"}
  {
  }

  /** What is there, and what of that is empty. */
  lemma EmptyGates(v: Value)
    ensures GateCompare("exists", true, v, Null) <==> v !in {Null, Undef}
    ensures GateCompare("isEmpty", true, v, Null) <==>
      v in {Null, Undef, Str("")} || (v.Arr? && |v.items| == 0) || (v.Obj? && |v.fields| == 0)
    ensures forall right :: GateCompare("exists", true, v, right) == GateCompare("exists", true, v, Null)
    ensures forall right :: GateCompare("isEmpty", true, v, right) == GateCompare("isEmpty", true, v, Null)
  {
  }

  /** The gates on text, as cutting it in pieces. */
  lemma TextGates(left: string, right: string)
    ensures GateCompare("startsWith", true, Str(left), Str(right)) <==> exists rest :: left == right + rest
    ensures GateCompare("endsWith", true, Str(left), Str(right)) <==> exists front :: left == front + right
    ensures GateCompare("contains", true, Str(left), Str(right)) <==> exists front, rest :: left == front + right + rest
    ensures GateCompare("length", true, Str(left), Num(Fin(|left| as real)))
  {
    hide Includes, GateCompare;
    TextGateMeans(left, right);
    StartIff(left, right);
    EndIff(left, right);
    IncludesIff(left, right);
  }

  lemma TextGateMeans(left: string, right: string)
    ensures GateCompare("startsWith", true, Str(left), Str(right)) == (right <= left)
    ensures GateCompare("endsWith", true, Str(left), Str(right)) == (|right| <= |left| && right == left[|left| - |right|..])
    ensures GateCompare("contains", true, Str(left), Str(right)) == Includes(left, right)
    ensures GateCompare("length", true, Str(left), Num(Fin(|left| as real)))
  {
    hide Includes;
  }

  lemma StartIff(left: string, right: string)
    ensures right <= left <==> exists rest :: left == right + rest
  {
    if right <= left { assert left == right + left[|right|..]; }
  }

  lemma EndIff(left: string, right: string)
    ensures (|right| <= |left| && right == left[|left| - |right|..]) <==> exists front :: left == front + right
  {
    if |right| <= |left| && right == left[|left| - |right|..] { assert left == left[..|left| - |right|] + right; }
    if front :| left == front + right { assert left[|left| - |right|..] == right; }
  }

  lemma IncludesIff(left: string, right: string)
    ensures Includes(left, right) <==> exists front, rest :: left == front + right + rest
  {
    if i :| 0 <= i <= |left| && right <= left[i..] { assert left == left[..i] + right + left[i + |right|..]; }
    if front, rest :| left == front + right + rest { assert left[|front|..] == right + rest; }
  }

  /** The gates on arrays; anything else has no elements and no length. */
  lemma ArrayGates(ref: nat, items: seq<Value>, left: Value, right: Value)
    ensures GateCompare("contains", true, Arr(ref, items), right) <==> exists v :: v in items && GateEqual(v, right, 0)
    ensures GateCompare("length", true, Arr(ref, items), right) <==> right == Num(Fin(|items| as real))
    ensures !left.Str? && !left.Arr? ==> !GateCompare("contains", true, left, right) && !GateCompare("length", true, left, right)
    ensures !left.Str? || !right.Str? ==> !GateCompare("startsWith", true, left, right) && !GateCompare("endsWith", true, left, right)
  {
    hide GateCompare, GateEqual;
    ArrayGateMeans(ref, items, right);
    NoTextNoArray(left, right);
    if v :| v in items && GateEqual(v, right, 0) {
      var i :| 0 <= i < |items| && items[i] == v;
    }
  }

  lemma ArrayGateMeans(ref: nat, items: seq<Value>, right: Value)
    ensures GateCompare("contains", true, Arr(ref, items), right) <==> exists i :: 0 <= i < |items| && GateEqual(items[i], right, 0)
    ensures GateCompare("length", true, Arr(ref, items), right) <==> right == Num(Fin(|items| as real))
  {
    hide GateEqual, Includes;
  }

  lemma NoTextNoArray(left: Value, right: Value)
    ensures !left.Str? && !left.Arr? ==> !GateCompare("contains", true, left, right) && !GateCompare("length", true, left, right)
    ensures !left.Str? || !right.Str? ==> !GateCompare("startsWith", true, left, right) && !GateCompare("endsWith", true, left, right)
  {
    hide GateEqual, Includes;
  }

  /** The value a path leads to in an element, for a gate. */
  predicate Passes(op: string, item: Value, path: string, right: Value) {
    var w := PathWalk(item, path);
    GateCompare(op, w.at.Found?, LookupOr(w.at, Undef), right)
  }

  /** `filterWhere` keeps elements that pass, and filtering what it kept changes nothing. */
  lemma {:induction false} FilterIsIdempotent(items: seq<Value>, path: string, op: string, right: Value, env: Env)
    requires env.gate == GateCompare
    ensures var kept := FilterAll(items, path, op, right, env).items;
      && (forall v | v in kept :: v in items && Passes(op, v, path, right))
      && FilterAll(kept, path, op, right, env).items == kept
    decreases |items|
  {
    hide FilterAll, Passes;
    if items == [] {
      FilterNothing(path, op, right, env);
    } else {
      var init, last := items[..|items| - 1], items[|items| - 1];
      FilterIsIdempotent(init, path, op, right, env);
      assert items == init + [last];
      var before := FilterAll(init, path, op, right, env).items;
      FilterLast(init, last, path, op, right, env);
      FilterLast(before, last, path, op, right, env);
      assert before + [] == before;
    }
  }

  lemma FilterNothing(path: string, op: string, right: Value, env: Env)
    ensures FilterAll([], path, op, right, env).items == []
  {
  }

  lemma FilterLast(init: seq<Value>, last: Value, path: string, op: string, right: Value, env: Env)
    requires env.gate == GateCompare
    ensures FilterAll(init + [last], path, op, right, env).items
         == FilterAll(init, path, op, right, env).items + if Passes(op, last, path, right) then [last] else []
  {
    hide PathWalk, GateCompare;
    assert (init + [last])[..|init|] == init;
  }

  const NEGATIONS: map<string, string> := map["exists" := "notExists", "notEmpty" := "isEmpty", "contains" := "notContains"]

  /** An operator and its negation share the elements out between them, path or no path. */
  lemma {:induction false} NegationsPartition(items: seq<Value>, path: string, op: string, right: Value, env: Env)
    requires env.gate == GateCompare && op in NEGATIONS
    ensures multiset(FilterAll(items, path, op, right, env).items)
          + multiset(FilterAll(items, path, NEGATIONS[op], right, env).items) == multiset(items)
    decreases |items|
  {
    hide FilterAll, Passes;
    if items == [] {
      FilterNothing(path, op, right, env);
      FilterNothing(path, NEGATIONS[op], right, env);
    } else {
      var init, last := items[..|items| - 1], items[|items| - 1];
      NegationsPartition(init, path, op, right, env);
      assert items == init + [last];
      OneOfTheTwo(last, path, op, right);
      FilterLast(init, last, path, op, right, env);
      FilterLast(init, last, path, NEGATIONS[op], right, env);
    }
  }

  lemma OneOfTheTwo(item: Value, path: string, op: string, right: Value)
    requires op in NEGATIONS
    ensures Passes(op, item, path, right) != Passes(NEGATIONS[op], item, path, right)
  {
    hide PathWalk, Contains, IsEmpty;
  }

  /** The elements `eq` and `ne` keep between them are those that have the path. */
  lemma {:induction false} EqualAndNotNeedThePath(items: seq<Value>, path: string, right: Value, env: Env)
    requires env.gate == GateCompare
    ensures |FilterAll(items, path, "eq", right, env).items| + |FilterAll(items, path, "ne", right, env).items|
         == HavingPath(items, path)
    decreases |items|
  {
    if items != [] { EqualAndNotNeedThePath(items[..|items| - 1], path, right, env); }
  }

  /** How many elements have the path. */
  function HavingPath(items: seq<Value>, path: string): nat {
    if items == [] then 0 else
    HavingPath(items[..|items| - 1], path) + if PathWalk(items[|items| - 1], path).at.Found? then 1 else 0
  }
}
