/**
 * The grammar of `@enkaku/expr` as a function from tokens to trees, and the
 * printer that spells a tree with no parenthesis it can do without.
 *
 * Levels name the grammar's precedence classes, loosest first: 0 is the ternary,
 * 1..6 the binary chains, 7 the prefix operators, 8 postfix and primary forms.
 */
module ExprGrammar {
  import opened ExprText
  import opened ExprAst

  datatype ParseError =
    | TooManyNodes | TooDeep | UnexpectedToken | Expected(what: Punct) | ExpectedIdent
    | UnknownFunction | BareIdentifier | StringLiteralIndex

  datatype Parsed<+T> = Fail(error: ParseError) | Done(value: T, pos: nat, count: nat)

  /** A token list ending in `EofTok`, and the closed function table's names. */
  datatype Input = Input(ts: seq<Token>, table: set<string>)

  predicate Valid(g: Input, pos: nat) {
    pos < |g.ts| && g.ts[|g.ts| - 1] == EofTok
  }

  predicate IsPunct(t: Token, p: Punct) {
    t == PunctTok(p)
  }

  function OpLevel(op: BinOp): (level: nat)
    ensures 1 <= level <= 6
  {
    match op
    case OrElse => 1
    case AndAlso => 2
    case Eq => 3 case Ne => 3
    case Lt => 4 case Le => 4 case Gt => 4 case Ge => 4
    case Add => 5 case Sub => 5
    case Mul => 6 case Div => 6 case Mod => 6
  }

  function OpPunct(op: BinOp): Punct {
    match op
    case OrElse => OrOr
    case AndAlso => AndAnd
    case Eq => EqEq case Ne => NotEq
    case Lt => Less case Le => LessEq case Gt => Greater case Ge => GreaterEq
    case Add => Plus case Sub => Minus
    case Mul => Star case Div => Slash case Mod => Percent
  }

  datatype MaybeOp = NoOp | SomeOp(op: BinOp)

  /** The binary operator `t` spells, if any. */
  function BinaryOp(t: Token): (m: MaybeOp)
    ensures m.SomeOp? ==> t == PunctTok(OpPunct(m.op))
  {
    if !t.PunctTok? then NoOp else
    match t.p
    case OrOr => SomeOp(OrElse)
    case AndAnd => SomeOp(AndAlso)
    case EqEq => SomeOp(Eq) case NotEq => SomeOp(Ne)
    case Less => SomeOp(Lt) case LessEq => SomeOp(Le) case Greater => SomeOp(Gt) case GreaterEq => SomeOp(Ge)
    case Plus => SomeOp(Add) case Minus => SomeOp(Sub)
    case Star => SomeOp(Mul) case Slash => SomeOp(Div) case Percent => SomeOp(Mod)
    case _ => NoOp
  }

  predicate OpAtLevel(t: Token, level: nat) {
    BinaryOp(t).SomeOp? && OpLevel(BinaryOp(t).op) == level
  }

  // ---------------------------------------------------------------- printing

  function Prec(e: Expr): (level: nat)
    ensures level <= 8
  {
    match e
    case Cond(_, _, _) => 0
    case Bin(op, _, _) => OpLevel(op)
    case Unary(_, _) => 7
    case _ => 8
  }

  function UnopPunct(op: UnOp): Punct {
    match op case Not => Bang case Neg => Minus
  }

  function LiteralToken(v: Literal): Token {
    match v
    case NumLit(n) => NumTok(n)
    case StrLit(s) => StrTok(s)
    case BoolLit(b) => IdentTok(if b then "true" else "false")
    case NullLit => IdentTok("null")
  }

  /** `e` where the grammar asks for `level`: parenthesised exactly when `e` binds looser. */
  function Print(e: Expr, level: nat): (p: seq<Token>)
    ensures |p| > 0
    decreases e, 1
  {
    if Prec(e) < level then [PunctTok(LParen)] + Body(e) + [PunctTok(RParen)] else Body(e)
  }

  function Body(e: Expr): (p: seq<Token>)
    ensures |p| > 0
    decreases e, 0
  {
    match e
    case Lit(v) => [LiteralToken(v)]
    case Root(name) => [RootTok(name)]
    case Member(on, key) => Print(on, 8) + [PunctTok(Dot), IdentTok(key)]
    case Index(on, idx) => Print(on, 8) + [PunctTok(LBracket)] + Print(idx, 0) + [PunctTok(RBracket)]
    case Unary(op, on) => [PunctTok(UnopPunct(op))] + Print(on, 7)
    case Bin(op, l, r) => Print(l, OpLevel(op)) + [PunctTok(OpPunct(op))] + Print(r, OpLevel(op) + 1)
    case Cond(c, a, b) => Print(c, 1) + [PunctTok(Question)] + Print(a, 0) + [PunctTok(Colon)] + Print(b, 0)
    case Call(fn, args) => [IdentTok(fn), PunctTok(LParen)] + PrintArgs(args) + [PunctTok(RParen)]
  }

  function PrintArgs(args: seq<Expr>): (p: seq<Token>)
    ensures args == [] <==> p == []
    decreases args, 0
  {
    if args == [] then []
    else if |args| == 1 then Print(args[0], 0)
    else PrintArgs(args[..|args| - 1]) + [PunctTok(Comma)] + Print(args[|args| - 1], 0)
  }

  /** How many levels deeper than its start the parser goes on `Print(e, level)`. */
  function Need(e: Expr, level: nat): nat
    decreases e, 1
  {
    if Prec(e) < level then 1 + NeedBody(e) else NeedBody(e)
  }

  function NeedBody(e: Expr): nat
    decreases e, 0
  {
    match e
    case Lit(_) => 0
    case Root(_) => 0
    case Member(on, _) => Need(on, 8)
    case Index(on, idx) => Max(Need(on, 8), 1 + Need(idx, 0))
    case Unary(_, on) => 1 + Need(on, 7)
    case Bin(op, l, r) => Max(Need(l, OpLevel(op)), Need(r, OpLevel(op) + 1))
    case Cond(c, a, b) => Max(Need(c, 1), 1 + Max(Need(a, 0), Need(b, 0)))
    case Call(_, args) => NeedArgs(args)
  }

  function NeedArgs(args: seq<Expr>): nat
    decreases args, 0
  {
    if args == [] then 0 else Max(NeedArgs(args[..|args| - 1]), 1 + Need(args[|args| - 1], 0))
  }

  function Max(a: nat, b: nat): nat { if a < b then b else a }

  // ----------------------------------------------------------------- parsing

  /** A parse at `level` from `pos` ended in the tree `e`: what that is worth. */
  ghost predicate Sound(g: Input, e: Expr, level: nat, from: nat, to: nat, before: nat, after: nat, depth: nat) {
    && from + |Print(e, level)| <= to < |g.ts|
    && after == before + Size(e) <= MAX_AST_NODES
    && WellFormed(e, g.table)
    && depth + Need(e, level) <= MAX_DEPTH
  }

  /** A loop that held the tree `l` at `pos` and `count` ended with `e`: what it added. */
  ghost predicate Extends(g: Input, l: Expr, e: Expr, level: nat, level': nat, pos: nat, to: nat, count: nat, after: nat, depth: nat) {
    && pos + |Print(e, level')| <= to + |Print(l, level)| && to < |g.ts|
    && after + Size(l) == count + Size(e) && after <= MAX_AST_NODES
    && WellFormed(e, g.table)
    && depth + Need(e, level') <= MAX_DEPTH
  }

  function Node(e: Expr, pos: nat, count: nat): Parsed<Expr> {
    if count + 1 > MAX_AST_NODES then Fail(TooManyNodes) else Done(e, pos, count + 1)
  }

  /**
   * The parse of the phrase that starts at `pos` at grammar level `level`.
   * `count` is the number of nodes built before it, `depth` its nesting depth.
   */
  function Parse(g: Input, pos: nat, count: nat, depth: nat, level: nat): (r: Parsed<Expr>)
    requires Valid(g, pos) && level <= 8 && depth <= MAX_DEPTH + 1
    requires (level > 0 ==> depth <= MAX_DEPTH) && count <= MAX_AST_NODES
    ensures r.Done? ==> Sound(g, r.value, level, pos, r.pos, count, r.count, depth)
    decreases |g.ts| - pos, 10 - level
  {
    if level == 0 then
      if depth > MAX_DEPTH then Fail(TooDeep) else
      match Parse(g, pos, count, depth, 1)
      case Fail(e) => Fail(e)
      case Done(c, p, n) => TernaryRest(g, p, n, depth, c)
    else if level <= 6 then
      match Parse(g, pos, count, depth, level + 1)
      case Fail(e) => Fail(e)
      case Done(l, p, n) => ChainLoop(g, p, n, depth, level, l)
    else if level == 7 then
      if IsPunct(g.ts[pos], Bang) || IsPunct(g.ts[pos], Minus) then
        if depth + 1 > MAX_DEPTH then Fail(TooDeep) else
        match Parse(g, pos + 1, count, depth + 1, 7)
        case Fail(e) => Fail(e)
        case Done(on, p, n) => Node(Unary(if IsPunct(g.ts[pos], Bang) then Not else Neg, on), p, n)
      else Parse(g, pos, count, depth, 8)
    else
      match Primary(g, pos, count, depth)
      case Fail(e) => Fail(e)
      case Done(e, p, n) => PostfixLoop(g, p, n, depth, e)
  }

  /** After the condition `c`: the rest of a ternary, or nothing. */
  function TernaryRest(g: Input, pos: nat, count: nat, depth: nat, c: Expr): (r: Parsed<Expr>)
    requires Valid(g, pos) && depth <= MAX_DEPTH && count <= MAX_AST_NODES
    requires WellFormed(c, g.table) && depth + Need(c, 1) <= MAX_DEPTH
    ensures r.Done? ==> Extends(g, c, r.value, 1, 0, pos, r.pos, count, r.count, depth)
    decreases |g.ts| - pos, 0
  {
    if IsPunct(g.ts[pos], Question) then
      match Parse(g, pos + 1, count, depth + 1, 0)
      case Fail(e) => Fail(e)
      case Done(a, p, n) =>
        if !IsPunct(g.ts[p], Colon) then Fail(Expected(Colon)) else
        match Parse(g, p + 1, n, depth + 1, 0)
        case Fail(e) => Fail(e)
        case Done(b, p', n') => Node(Cond(c, a, b), p', n')
    else Done(c, pos, count)
  }

  /** A left-associative chain of `level` operators after the operand `l`. */
  function ChainLoop(g: Input, pos: nat, count: nat, depth: nat, level: nat, l: Expr): (r: Parsed<Expr>)
    requires Valid(g, pos) && depth <= MAX_DEPTH && 1 <= level <= 6 && count <= MAX_AST_NODES
    requires WellFormed(l, g.table) && depth + Need(l, level) <= MAX_DEPTH
    ensures r.Done? ==> Extends(g, l, r.value, level, level, pos, r.pos, count, r.count, depth)
    decreases |g.ts| - pos, 0
  {
    if OpAtLevel(g.ts[pos], level) then
      match Parse(g, pos + 1, count, depth, level + 1)
      case Fail(e) => Fail(e)
      case Done(r, p, n) =>
        match Node(Bin(BinaryOp(g.ts[pos]).op, l, r), p, n)
        case Fail(e) => Fail(e)
        case Done(e, p', n') =>
          assert |Body(e)| == |Print(l, level)| + 1 + |Print(r, level + 1)|;
          ChainLoop(g, p', n', depth, level, e)
    else Done(l, pos, count)
  }

  /** Member and index suffixes after `on`. */
  function PostfixLoop(g: Input, pos: nat, count: nat, depth: nat, on: Expr): (r: Parsed<Expr>)
    requires Valid(g, pos) && depth <= MAX_DEPTH && count <= MAX_AST_NODES
    requires WellFormed(on, g.table) && depth + Need(on, 8) <= MAX_DEPTH
    ensures r.Done? ==> Extends(g, on, r.value, 8, 8, pos, r.pos, count, r.count, depth)
    decreases |g.ts| - pos, 0
  {
    if IsPunct(g.ts[pos], Dot) then
      if !g.ts[pos + 1].IdentTok? then Fail(ExpectedIdent) else
      match Node(Member(on, g.ts[pos + 1].name), pos + 2, count)
      case Fail(e) => Fail(e)
      case Done(e, p, n) =>
        assert |Body(e)| == |Print(on, 8)| + 2;
        PostfixLoop(g, p, n, depth, e)
    else if IsPunct(g.ts[pos], LBracket) then
      match IndexOf(g, pos + 1, count, depth, on)
      case Fail(e) => Fail(e)
      case Done(e, p, n) => PostfixLoop(g, p, n, depth, e)
    else Done(on, pos, count)
  }

  /** What follows `on` and an opening bracket. */
  function IndexOf(g: Input, pos: nat, count: nat, depth: nat, on: Expr): (r: Parsed<Expr>)
    requires 0 < pos && Valid(g, pos) && depth <= MAX_DEPTH && count <= MAX_AST_NODES
    requires WellFormed(on, g.table) && depth + Need(on, 8) <= MAX_DEPTH
    ensures r.Done? ==> pos < r.pos && Extends(g, on, r.value, 8, 8, pos - 1, r.pos, count, r.count, depth)
    decreases |g.ts| - pos, 11
  {
    match Parse(g, pos, count, depth + 1, 0)
    case Fail(e) => Fail(e)
    case Done(idx, p, n) =>
      if IsStringLiteral(idx) then Fail(StringLiteralIndex) else
      if !IsPunct(g.ts[p], RBracket) then Fail(Expected(RBracket)) else
      assert |Body(Index(on, idx))| == |Print(on, 8)| + |Print(idx, 0)| + 2;
      Node(Index(on, idx), p + 1, n)
  }

  function Primary(g: Input, pos: nat, count: nat, depth: nat): (r: Parsed<Expr>)
    requires Valid(g, pos) && depth <= MAX_DEPTH && count <= MAX_AST_NODES
    ensures r.Done? ==> Sound(g, r.value, 8, pos, r.pos, count, r.count, depth)
    decreases |g.ts| - pos, 1
  {
    match g.ts[pos]
    case NumTok(n) => Node(Lit(NumLit(n)), pos + 1, count)
    case StrTok(s) => Node(Lit(StrLit(s)), pos + 1, count)
    case RootTok(name) => Node(Root(name), pos + 1, count)
    case IdentTok(name) =>
      if IsKeyword(name) then Node(Lit(KeywordLiteral(name)), pos + 1, count)
      else if IsPunct(g.ts[pos + 1], LParen) then CallOf(g, name, pos + 2, count, depth)
      else Fail(BareIdentifier)
    case PunctTok(p) => if p == LParen then Parenthesised(g, pos + 1, count, depth) else Fail(UnexpectedToken)
    case EofTok => Fail(UnexpectedToken)
  }

  /** What follows a function's name and its opening parenthesis. */
  function CallOf(g: Input, name: Ident, pos: nat, count: nat, depth: nat): (r: Parsed<Expr>)
    requires 2 <= pos && Valid(g, pos) && depth <= MAX_DEPTH && count <= MAX_AST_NODES && !IsKeyword(name)
    ensures r.Done? ==> Sound(g, r.value, 8, pos - 2, r.pos, count, r.count, depth)
    decreases |g.ts| - pos, 21
  {
    if name !in g.table then Fail(UnknownFunction) else
    match Arguments(g, pos, count, depth)
    case Fail(e) => Fail(e)
    case Done(args, p, n) =>
      if !IsPunct(g.ts[p], RParen) then Fail(Expected(RParen)) else Node(Call(name, args), p + 1, n)
  }

  /** What follows an opening parenthesis. */
  function Parenthesised(g: Input, pos: nat, count: nat, depth: nat): (r: Parsed<Expr>)
    requires 0 < pos && Valid(g, pos) && depth <= MAX_DEPTH && count <= MAX_AST_NODES
    ensures r.Done? ==> Sound(g, r.value, 8, pos - 1, r.pos, count, r.count, depth)
    decreases |g.ts| - pos, 11
  {
    match Parse(g, pos, count, depth + 1, 0)
    case Fail(e) => Fail(e)
    case Done(e, p, n) => if !IsPunct(g.ts[p], RParen) then Fail(Expected(RParen)) else Done(e, p + 1, n)
  }

  /** As `Extends`, for an argument list that held `held` and ended as `args`. */
  ghost predicate ExtendsArgs(g: Input, held: seq<Expr>, args: seq<Expr>, pos: nat, to: nat, count: nat, after: nat, depth: nat) {
    && pos + |PrintArgs(args)| <= to + |PrintArgs(held)| && to < |g.ts|
    && after + SizeAll(held) == count + SizeAll(args) && after <= MAX_AST_NODES
    && (forall i | 0 <= i < |args| :: WellFormed(args[i], g.table))
    && depth + NeedArgs(args) <= MAX_DEPTH
  }

  /** The arguments between a call's parentheses. */
  function Arguments(g: Input, pos: nat, count: nat, depth: nat): (r: Parsed<seq<Expr>>)
    requires Valid(g, pos) && depth <= MAX_DEPTH && count <= MAX_AST_NODES
    ensures r.Done? ==> ExtendsArgs(g, [], r.value, pos, r.pos, count, r.count, depth)
    decreases |g.ts| - pos, 20
  {
    if IsPunct(g.ts[pos], RParen) then Done([], pos, count) else
    match Parse(g, pos, count, depth + 1, 0)
    case Fail(e) => Fail(e)
    case Done(e, p, n) => ArgLoop(g, p, n, depth, [e])
  }

  function ArgLoop(g: Input, pos: nat, count: nat, depth: nat, acc: seq<Expr>): (r: Parsed<seq<Expr>>)
    requires Valid(g, pos) && depth <= MAX_DEPTH && acc != [] && count <= MAX_AST_NODES
    requires forall i | 0 <= i < |acc| :: WellFormed(acc[i], g.table)
    requires depth + NeedArgs(acc) <= MAX_DEPTH
    ensures r.Done? ==> ExtendsArgs(g, acc, r.value, pos, r.pos, count, r.count, depth)
    decreases |g.ts| - pos, 0
  {
    if !IsPunct(g.ts[pos], Comma) then Done(acc, pos, count) else
    match Parse(g, pos + 1, count, depth + 1, 0)
    case Fail(e) => Fail(e)
    case Done(e, p, n) =>
      assert (acc + [e])[..|acc|] == acc;
      ArgLoop(g, p, n, depth, acc + [e])
  }

  /** `parseProgram`: one expression and nothing after it. */
  function Program(g: Input): (r: Parsed<Expr>)
    requires Valid(g, 0)
    ensures r.Done? ==> Sound(g, r.value, 0, 0, r.pos, 0, r.count, 0) && r.count == Size(r.value)
    ensures r.Done? ==> g.ts[r.pos] == EofTok
  {
    match Parse(g, 0, 0, 0, 0)
    case Fail(e) => Fail(e)
    case Done(e, p, n) => if g.ts[p] != EofTok then Fail(UnexpectedToken) else Done(e, p, n)
  }
}
