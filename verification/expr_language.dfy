/**
 * The language of `@enkaku/expr` as a grammar of token ranges, written out in the
 * tokens themselves: which ranges spell which trees. The parser accepts this
 * language, no less and no more, and reads every spelling as its tree.
 */
module ExprLanguage {
  import opened ExprText
  import opened ExprAst
  import opened ExprGrammar

  // -------------------------------------------------------------- the grammar

  /** The six classes of binary operators, loosest first; 0 for any other token. */
  function Class(t: Token): (c: nat)
    ensures c <= 6
  {
    match t
    case PunctTok(p) =>
      (match p
       case OrOr => 1
       case AndAnd => 2
       case EqEq => 3 case NotEq => 3
       case Less => 4 case LessEq => 4 case Greater => 4 case GreaterEq => 4
       case Plus => 5 case Minus => 5
       case Star => 6 case Slash => 6 case Percent => 6
       case _ => 0)
    case _ => 0
  }

  /** The operator the token names. */
  function Operator(t: Token): BinOp
    requires Class(t) > 0
  {
    match t.p
    case OrOr => OrElse
    case AndAnd => AndAlso
    case EqEq => Eq case NotEq => Ne
    case Less => Lt case LessEq => Le case Greater => Gt case GreaterEq => Ge
    case Plus => Add case Minus => Sub
    case Star => Mul case Slash => Div case Percent => Mod
  }

  /** The trees that are one token. */
  predicate OneToken(t: Token, e: Expr) {
    match t
    case NumTok(n) => e == Lit(NumLit(n))
    case StrTok(s) => e == Lit(StrLit(s))
    case RootTok(root) => e == Root(root)
    case IdentTok(name) =>
      || (name == "true" && e == Lit(BoolLit(true)))
      || (name == "false" && e == Lit(BoolLit(false)))
      || (name == "null" && e == Lit(NullLit))
    case _ => false
  }

  /**
   * The tokens from `pos` up to `end` spell `e` where the grammar asks for `level`, starting
   * `depth` levels deep: 0 asks for anything, 1 to 6 for operators of that class or tighter,
   * 7 for prefix forms, 8 for postfix forms. Anything in parentheses will do anywhere.
   */
  ghost predicate Spelled(g: Input, e: Expr, level: nat, pos: nat, end: nat, depth: nat)
    decreases end - pos, 2
  {
    && pos < end < |g.ts| && depth <= MAX_DEPTH
    && (InParens(g, e, pos, end, depth) || Bare(g, e, level, pos, end, depth))
  }

  ghost predicate InParens(g: Input, e: Expr, pos: nat, end: nat, depth: nat)
    requires pos < end < |g.ts|
    decreases end - pos, 1
  {
    && pos + 2 < end && g.ts[pos] == PunctTok(LParen) && g.ts[end - 1] == PunctTok(RParen)
    && Spelled(g, e, 0, pos + 1, end - 1, depth + 1)
  }

  ghost predicate Bare(g: Input, e: Expr, level: nat, pos: nat, end: nat, depth: nat)
    requires pos < end < |g.ts|
    decreases end - pos, 1
  {
    match e
    case Lit(_) => end == pos + 1 && OneToken(g.ts[pos], e)
    case Root(_) => end == pos + 1 && OneToken(g.ts[pos], e)
    case Member(on, key) =>
      && pos + 2 < end && g.ts[end - 2] == PunctTok(Dot) && g.ts[end - 1] == IdentTok(key)
      && Spelled(g, on, 8, pos, end - 2, depth)
    case Index(_, _) => exists q: nat :: IndexAt(g, e, pos, q, end, depth)
    case Unary(op, on) =>
      level <= 7 && g.ts[pos] == PunctTok(if op == Not then Bang else Minus) && Spelled(g, on, 7, pos + 1, end, depth + 1)
    case Bin(_, _, _) => exists q: nat :: BinAt(g, e, level, pos, q, end, depth)
    case Cond(_, _, _) => level == 0 && exists q: nat, r: nat :: CondAt(g, e, pos, q, r, end, depth)
    case Call(fn, args) =>
      && fn in g.table && !IsKeyword(fn)
      && pos + 2 < end && g.ts[pos] == IdentTok(fn) && g.ts[pos + 1] == PunctTok(LParen) && g.ts[end - 1] == PunctTok(RParen)
      && ArgsSpelled(g, args, pos + 2, end - 1, depth)
  }

  /** A postfix form, an opening bracket at `q`, and an index that is no string literal. */
  ghost predicate IndexAt(g: Input, e: Expr, pos: nat, q: nat, end: nat, depth: nat)
    requires e.Index? && pos < end < |g.ts|
    decreases end - pos, 0
  {
    && pos < q && q + 1 < end && g.ts[q] == PunctTok(LBracket) && g.ts[end - 1] == PunctTok(RBracket)
    && !IsStringLiteral(e.idx)
    && Spelled(g, e.on, 8, pos, q, depth) && Spelled(g, e.idx, 0, q + 1, end - 1, depth + 1)
  }

  /** An operator at `q`; to its left its class is allowed, to its right only tighter ones. */
  ghost predicate BinAt(g: Input, e: Expr, level: nat, pos: nat, q: nat, end: nat, depth: nat)
    requires e.Bin? && pos < end < |g.ts|
    decreases end - pos, 0
  {
    && pos < q && q + 1 < end && Class(g.ts[q]) > 0 && level <= Class(g.ts[q]) && e.op == Operator(g.ts[q])
    && Spelled(g, e.l, Class(g.ts[q]), pos, q, depth) && Spelled(g, e.r, Class(g.ts[q]) + 1, q + 1, end, depth)
  }

  /** A condition without a bare ternary, and the two branches. */
  ghost predicate CondAt(g: Input, e: Expr, pos: nat, q: nat, r: nat, end: nat, depth: nat)
    requires e.Cond? && pos < end < |g.ts|
    decreases end - pos, 0
  {
    && pos < q && q + 1 < r && r + 1 < end && g.ts[q] == PunctTok(Question) && g.ts[r] == PunctTok(Colon)
    && Spelled(g, e.c, 1, pos, q, depth)
    && Spelled(g, e.a, 0, q + 1, r, depth + 1) && Spelled(g, e.b, 0, r + 1, end, depth + 1)
  }

  /** Arguments with commas between them, or none. */
  ghost predicate ArgsSpelled(g: Input, args: seq<Expr>, pos: nat, end: nat, depth: nat)
    decreases end - pos, 3
  {
    if args == [] then pos == end < |g.ts|
    else if |args| == 1 then Spelled(g, args[0], 0, pos, end, depth + 1)
    else exists q: nat :: MoreArgs(g, args, pos, q, end, depth)
  }

  ghost predicate MoreArgs(g: Input, args: seq<Expr>, pos: nat, q: nat, end: nat, depth: nat)
    requires |args| > 1
    decreases end - pos, 0
  {
    && pos < q && q + 1 < end < |g.ts| && g.ts[q] == PunctTok(Comma)
    && ArgsSpelled(g, args[..|args| - 1], pos, q, depth) && Spelled(g, args[|args| - 1], 0, q + 1, end, depth + 1)
  }

  /** What a tighter level allows, a looser one does. */
  lemma Loosened(g: Input, e: Expr, level: nat, looser: nat, pos: nat, end: nat, depth: nat)
    requires looser <= level && Spelled(g, e, level, pos, end, depth)
    ensures Spelled(g, e, looser, pos, end, depth)
  {
    hide InParens, IndexAt, CondAt, ArgsSpelled;
    Unfolded(g, e, level, pos, end, depth);
    if e.Bin? && !InParens(g, e, pos, end, depth) {
      assert Bare(g, e, level, pos, end, depth);
      var q: nat :| BinAt(g, e, level, pos, q, end, depth);
      assert BinAt(g, e, looser, pos, q, end, depth);
    }
  }

  lemma ClassIs(t: Token)
    ensures (BinaryOp(t).SomeOp? <==> Class(t) > 0)
    ensures Class(t) > 0 ==> BinaryOp(t).op == Operator(t) && OpLevel(Operator(t)) == Class(t)
    ensures forall level | 1 <= level :: OpAtLevel(t, level) <==> Class(t) == level
  {
  }

  /** `t` cannot continue a phrase of `level` or tighter. */
  predicate Stops(t: Token, level: nat) {
    && t != PunctTok(Dot) && t != PunctTok(LBracket)
    && (Class(t) > 0 ==> Class(t) < level)
    && (level == 0 ==> t != PunctTok(Question))
  }

  lemma StopsBelow(t: Token, level: nat, tighter: nat)
    requires Stops(t, level) && level <= tighter
    ensures Stops(t, tighter)
  {
  }

  /** What a spelled tree keeps to, and what reading it needs. */
  lemma {:induction false} SpelledTree(g: Input, e: Expr, level: nat, pos: nat, end: nat, depth: nat)
    requires level <= 8 && Spelled(g, e, level, pos, end, depth)
    ensures WellFormed(e, g.table) && depth + Need(e, level) <= MAX_DEPTH
    decreases end - pos, 1
  {
    hide InParens, IndexAt, BinAt, CondAt, ArgsSpelled, Spelled, WellFormed, Need, NeedBody;
    Unfolded(g, e, level, pos, end, depth);
    if InParens(g, e, pos, end, depth) {
      ParensTree(g, e, level, pos, end, depth);
    } else {
      match e
      case Lit(_) => LeafTree(g, e, level);
      case Root(_) => LeafTree(g, e, level);
      case Member(on, _) => SpelledTree(g, on, 8, pos, end - 2, depth); MemberTree(g, e, level);
      case Index(on, idx) =>
        var q: nat :| IndexAt(g, e, pos, q, end, depth);
        IndexTree(g, e, level, pos, q, end, depth);
      case Unary(_, on) => SpelledTree(g, on, 7, pos + 1, end, depth + 1); UnaryTree(g, e, level);
      case Bin(_, l, r) =>
        var q: nat :| BinAt(g, e, level, pos, q, end, depth);
        BinTree(g, e, level, pos, q, end, depth);
      case Cond(_, _, _) =>
        var q: nat, r: nat :| CondAt(g, e, pos, q, r, end, depth);
        CondTree(g, e, pos, q, r, end, depth);
      case Call(_, args) => ArgsTree(g, args, pos + 2, end - 1, depth); CallTree(g, e, level);
    }
  }

  lemma Unfolded(g: Input, e: Expr, level: nat, pos: nat, end: nat, depth: nat)
    requires Spelled(g, e, level, pos, end, depth)
    ensures pos < end < |g.ts| && depth <= MAX_DEPTH
    ensures InParens(g, e, pos, end, depth) || Bare(g, e, level, pos, end, depth)
  {
  }

  lemma LeafTree(g: Input, e: Expr, level: nat)
    requires (e.Lit? || e.Root?) && level <= 8
    ensures WellFormed(e, g.table) && Need(e, level) == 0
  {
  }

  lemma MemberTree(g: Input, e: Expr, level: nat)
    requires e.Member? && level <= 8 && WellFormed(e.on, g.table)
    ensures WellFormed(e, g.table) && Need(e, level) == Need(e.on, 8)
  {
    assert NeedBody(e) == Need(e.on, 8);
  }

  lemma UnaryTree(g: Input, e: Expr, level: nat)
    requires e.Unary? && level <= 7 && WellFormed(e.on, g.table)
    ensures WellFormed(e, g.table) && Need(e, level) == 1 + Need(e.on, 7)
  {
    assert NeedBody(e) == 1 + Need(e.on, 7);
  }

  lemma CallTree(g: Input, e: Expr, level: nat)
    requires e.Call? && level <= 8 && e.fn in g.table && !IsKeyword(e.fn)
    requires forall i | 0 <= i < |e.args| :: WellFormed(e.args[i], g.table)
    ensures WellFormed(e, g.table) && Need(e, level) == NeedArgs(e.args)
  {
    assert NeedBody(e) == NeedArgs(e.args);
  }

  lemma {:induction false} ParensTree(g: Input, e: Expr, level: nat, pos: nat, end: nat, depth: nat)
    requires level <= 8 && pos < end < |g.ts| && InParens(g, e, pos, end, depth)
    ensures WellFormed(e, g.table) && depth + Need(e, level) <= MAX_DEPTH
    decreases end - pos, 0
  {
    hide WellFormed, NeedBody, Spelled;
    SpelledTree(g, e, 0, pos + 1, end - 1, depth + 1);
  }

  lemma {:induction false} IndexTree(g: Input, e: Expr, level: nat, pos: nat, q: nat, end: nat, depth: nat)
    requires level <= 8 && e.Index? && pos < end < |g.ts| && IndexAt(g, e, pos, q, end, depth)
    ensures WellFormed(e, g.table) && depth + Need(e, level) <= MAX_DEPTH
    decreases end - pos, 0
  {
    hide Spelled, Need;
    SpelledTree(g, e.on, 8, pos, q, depth);
    SpelledTree(g, e.idx, 0, q + 1, end - 1, depth + 1);
    assert Need(e, level) == Max(Need(e.on, 8), 1 + Need(e.idx, 0)) by { IndexNeed(e, level); }
  }

  lemma IndexNeed(e: Expr, level: nat)
    requires e.Index? && level <= 8
    ensures Need(e, level) == Max(Need(e.on, 8), 1 + Need(e.idx, 0))
  {
    assert NeedBody(e) == Max(Need(e.on, 8), 1 + Need(e.idx, 0));
  }

  lemma {:induction false} BinTree(g: Input, e: Expr, level: nat, pos: nat, q: nat, end: nat, depth: nat)
    requires level <= 8 && e.Bin? && pos < end < |g.ts| && BinAt(g, e, level, pos, q, end, depth)
    ensures WellFormed(e, g.table) && depth + Need(e, level) <= MAX_DEPTH
    decreases end - pos, 0
  {
    hide Spelled, Need, Class, Operator, OpLevel;
    ClassIs(g.ts[q]);
    SpelledTree(g, e.l, Class(g.ts[q]), pos, q, depth);
    SpelledTree(g, e.r, Class(g.ts[q]) + 1, q + 1, end, depth);
    BinNeed(e, level);
  }

  lemma BinNeed(e: Expr, level: nat)
    requires e.Bin? && level <= OpLevel(e.op)
    ensures Need(e, level) == Max(Need(e.l, OpLevel(e.op)), Need(e.r, OpLevel(e.op) + 1))
  {
    assert NeedBody(e) == Max(Need(e.l, OpLevel(e.op)), Need(e.r, OpLevel(e.op) + 1));
  }

  lemma {:induction false} CondTree(g: Input, e: Expr, pos: nat, q: nat, r: nat, end: nat, depth: nat)
    requires e.Cond? && pos < end < |g.ts| && CondAt(g, e, pos, q, r, end, depth)
    ensures WellFormed(e, g.table) && depth + Need(e, 0) <= MAX_DEPTH
    decreases end - pos, 0
  {
    hide Spelled, Need;
    SpelledTree(g, e.c, 1, pos, q, depth);
    SpelledTree(g, e.a, 0, q + 1, r, depth + 1);
    SpelledTree(g, e.b, 0, r + 1, end, depth + 1);
    CondNeed(e);
  }

  lemma CondNeed(e: Expr)
    requires e.Cond?
    ensures Need(e, 0) == Max(Need(e.c, 1), 1 + Max(Need(e.a, 0), Need(e.b, 0)))
  {
    NeedOfBody(e);
    hide Need;
  }

  lemma NeedOfBody(e: Expr)
    ensures Need(e, 0) == NeedBody(e)
  {
    hide NeedBody;
  }

  lemma {:induction false} ArgsTree(g: Input, args: seq<Expr>, pos: nat, end: nat, depth: nat)
    requires ArgsSpelled(g, args, pos, end, depth) && depth <= MAX_DEPTH
    ensures forall i | 0 <= i < |args| :: WellFormed(args[i], g.table)
    ensures depth + NeedArgs(args) <= MAX_DEPTH
    decreases end - pos, 2
  {
    hide Spelled, WellFormed, Need;
    if |args| == 1 {
      SpelledTree(g, args[0], 0, pos, end, depth + 1);
      assert args[..0] == [] && NeedArgs(args) == Max(NeedArgs([]), 1 + Need(args[0], 0));
    } else if args != [] {
      var init, last := args[..|args| - 1], args[|args| - 1];
      var q: nat :| MoreArgs(g, args, pos, q, end, depth);
      ArgsTree(g, init, pos, q, depth);
      SpelledTree(g, last, 0, q + 1, end, depth + 1);
      assert NeedArgs(args) == Max(NeedArgs(init), 1 + Need(last, 0));
      assert forall i | 0 <= i < |init| :: args[i] == init[i];
    }
  }

  // ------------------------------------------- whatever is read, is spelled so

  /** A parse at `level` read a spelling of its tree. */
  lemma {:induction false} ReadIsSpelled(g: Input, pos: nat, count: nat, depth: nat, level: nat)
    requires Valid(g, pos) && level <= 8 && depth <= MAX_DEPTH + 1
    requires (level > 0 ==> depth <= MAX_DEPTH) && count <= MAX_AST_NODES
    ensures var r := Parse(g, pos, count, depth, level); r.Done? ==> Spelled(g, r.value, level, pos, r.pos, depth)
    decreases |g.ts| - pos, 10 - level, 1
  {
    hide Spelled, WellFormed, Need, Print, Size, ChainLoop, PostfixLoop, TernaryRest, Primary;
    var r := Parse(g, pos, count, depth, level);
    if level == 0 && depth <= MAX_DEPTH {
      ReadIsSpelled(g, pos, count, depth, 1);
      var c := Parse(g, pos, count, depth, 1);
      if c.Done? { TernaryIsSpelled(g, pos, c.pos, c.count, depth, c.value); }
    } else if 1 <= level <= 6 {
      ReadIsSpelled(g, pos, count, depth, level + 1);
      var l := Parse(g, pos, count, depth, level + 1);
      if l.Done? {
        Loosened(g, l.value, level + 1, level, pos, l.pos, depth);
        SpelledTree(g, l.value, level, pos, l.pos, depth);
        ChainIsSpelled(g, pos, l.pos, l.count, depth, level, l.value);
      }
    } else if level == 7 {
      UnaryIsSpelled(g, pos, count, depth);
    } else if level == 8 {
      PrimaryIsSpelled(g, pos, count, depth);
      var e := Primary(g, pos, count, depth);
      if e.Done? { PostfixIsSpelled(g, pos, e.pos, e.count, depth, e.value); }
    }
  }

  lemma {:induction false} UnaryIsSpelled(g: Input, pos: nat, count: nat, depth: nat)
    requires Valid(g, pos) && depth <= MAX_DEPTH && count <= MAX_AST_NODES
    ensures var r := Parse(g, pos, count, depth, 7); r.Done? ==> Spelled(g, r.value, 7, pos, r.pos, depth)
    decreases |g.ts| - pos, 3, 0
  {
    hide Spelled, WellFormed, Need, Print, Size, ChainLoop, PostfixLoop, TernaryRest, Primary;
    var r := Parse(g, pos, count, depth, 7);
    if IsPunct(g.ts[pos], Bang) || IsPunct(g.ts[pos], Minus) {
      if depth + 1 <= MAX_DEPTH {
        ReadIsSpelled(g, pos + 1, count, depth + 1, 7);
        if r.Done? { UnarySpelled(g, r.value, pos, r.pos, depth); }
      }
    } else {
      ReadIsSpelled(g, pos, count, depth, 8);
      if r.Done? { Loosened(g, r.value, 8, 7, pos, r.pos, depth); }
    }
  }

  lemma UnarySpelled(g: Input, e: Expr, pos: nat, end: nat, depth: nat)
    requires e.Unary? && pos + 1 < end < |g.ts| && g.ts[pos] == PunctTok(if e.uop == Not then Bang else Minus)
    requires depth + 1 <= MAX_DEPTH && Spelled(g, e.on, 7, pos + 1, end, depth + 1)
    ensures Spelled(g, e, 7, pos, end, depth)
  {
  }

  /** `c` from `from`, then the rest of a ternary if there is one. */
  lemma {:induction false} TernaryIsSpelled(g: Input, from: nat, pos: nat, count: nat, depth: nat, c: Expr)
    requires Valid(g, pos) && depth <= MAX_DEPTH && count <= MAX_AST_NODES
    requires WellFormed(c, g.table) && depth + Need(c, 1) <= MAX_DEPTH
    requires from < pos && Spelled(g, c, 1, from, pos, depth)
    ensures var r := TernaryRest(g, pos, count, depth, c); r.Done? ==> Spelled(g, r.value, 0, from, r.pos, depth)
    decreases |g.ts| - pos, 0
  {
    hide Spelled, WellFormed, Need, Print, Size, Parse;
    var r := TernaryRest(g, pos, count, depth, c);
    if IsPunct(g.ts[pos], Question) {
      ReadIsSpelled(g, pos + 1, count, depth + 1, 0);
      var a := Parse(g, pos + 1, count, depth + 1, 0);
      if a.Done? && IsPunct(g.ts[a.pos], Colon) {
        ReadIsSpelled(g, a.pos + 1, a.count, depth + 1, 0);
        if r.Done? { CondSpelled(g, r.value, from, pos, a.pos, r.pos, depth); }
      }
    } else {
      Loosened(g, c, 1, 0, from, pos, depth);
    }
  }

  lemma CondSpelled(g: Input, e: Expr, pos: nat, q: nat, r: nat, end: nat, depth: nat)
    requires e.Cond? && pos < end < |g.ts| && depth <= MAX_DEPTH && CondAt(g, e, pos, q, r, end, depth)
    ensures Spelled(g, e, 0, pos, end, depth)
  {
    hide CondAt;
  }

  lemma {:induction false} ChainIsSpelled(g: Input, from: nat, pos: nat, count: nat, depth: nat, level: nat, l: Expr)
    requires Valid(g, pos) && depth <= MAX_DEPTH && 1 <= level <= 6 && count <= MAX_AST_NODES
    requires WellFormed(l, g.table) && depth + Need(l, level) <= MAX_DEPTH
    requires from < pos && Spelled(g, l, level, from, pos, depth)
    ensures var r := ChainLoop(g, pos, count, depth, level, l); r.Done? ==> Spelled(g, r.value, level, from, r.pos, depth)
    decreases |g.ts| - pos, 0
  {
    hide Spelled, WellFormed, Need, NeedBody, Print, Body, Size, Parse, Class, Operator, BinaryOp, OpLevel;
    ClassIs(g.ts[pos]);
    if OpAtLevel(g.ts[pos], level) {
      ReadIsSpelled(g, pos + 1, count, depth, level + 1);
      var r := Parse(g, pos + 1, count, depth, level + 1);
      if r.Done? && r.count < MAX_AST_NODES {
        var e := Bin(BinaryOp(g.ts[pos]).op, l, r.value);
        BinSpelled(g, e, level, from, pos, r.pos, depth);
        SpelledTree(g, e, level, from, r.pos, depth);
        ChainIsSpelled(g, from, r.pos, r.count + 1, depth, level, e);
      }
    }
  }

  lemma BinSpelled(g: Input, e: Expr, level: nat, pos: nat, q: nat, end: nat, depth: nat)
    requires e.Bin? && pos < end < |g.ts| && depth <= MAX_DEPTH && BinAt(g, e, level, pos, q, end, depth)
    ensures Spelled(g, e, level, pos, end, depth)
  {
    hide BinAt;
  }

  lemma {:induction false} PostfixIsSpelled(g: Input, from: nat, pos: nat, count: nat, depth: nat, on: Expr)
    requires Valid(g, pos) && depth <= MAX_DEPTH && count <= MAX_AST_NODES
    requires WellFormed(on, g.table) && depth + Need(on, 8) <= MAX_DEPTH
    requires from < pos && Spelled(g, on, 8, from, pos, depth)
    ensures var r := PostfixLoop(g, pos, count, depth, on); r.Done? ==> Spelled(g, r.value, 8, from, r.pos, depth)
    decreases |g.ts| - pos, 1
  {
    hide Spelled, WellFormed, Need, NeedBody, Print, Body, Size, Parse, IndexOf;
    if IsPunct(g.ts[pos], Dot) {
      if g.ts[pos + 1].IdentTok? && count < MAX_AST_NODES {
        var e := Member(on, g.ts[pos + 1].name);
        MemberSpelled(g, e, from, pos + 2, depth);
        SpelledTree(g, e, 8, from, pos + 2, depth);
        PostfixIsSpelled(g, from, pos + 2, count + 1, depth, e);
      }
    } else if IsPunct(g.ts[pos], LBracket) {
      IndexIsSpelled(g, from, pos, count, depth, on);
      var e := IndexOf(g, pos + 1, count, depth, on);
      if e.Done? { PostfixIsSpelled(g, from, e.pos, e.count, depth, e.value); }
    }
  }

  lemma MemberSpelled(g: Input, e: Expr, pos: nat, end: nat, depth: nat)
    requires e.Member? && pos + 2 < end < |g.ts| && depth <= MAX_DEPTH
    requires g.ts[end - 2] == PunctTok(Dot) && g.ts[end - 1] == IdentTok(e.key) && Spelled(g, e.on, 8, pos, end - 2, depth)
    ensures Spelled(g, e, 8, pos, end, depth)
  {
  }

  lemma {:induction false} IndexIsSpelled(g: Input, from: nat, pos: nat, count: nat, depth: nat, on: Expr)
    requires Valid(g, pos) && IsPunct(g.ts[pos], LBracket) && depth <= MAX_DEPTH && count <= MAX_AST_NODES
    requires WellFormed(on, g.table) && depth + Need(on, 8) <= MAX_DEPTH
    requires from < pos && Spelled(g, on, 8, from, pos, depth)
    ensures var r := IndexOf(g, pos + 1, count, depth, on); r.Done? ==> Spelled(g, r.value, 8, from, r.pos, depth)
    decreases |g.ts| - pos, 0
  {
    hide Spelled, WellFormed, Need, NeedBody, Print, Body, Size, Parse;
    ReadIsSpelled(g, pos + 1, count, depth + 1, 0);
    var r := IndexOf(g, pos + 1, count, depth, on);
    if r.Done? { IndexSpelled(g, r.value, from, pos, r.pos, depth); }
  }

  lemma IndexSpelled(g: Input, e: Expr, pos: nat, q: nat, end: nat, depth: nat)
    requires e.Index? && pos < end < |g.ts| && depth <= MAX_DEPTH && IndexAt(g, e, pos, q, end, depth)
    ensures Spelled(g, e, 8, pos, end, depth)
  {
    hide IndexAt;
  }

  lemma {:induction false} PrimaryIsSpelled(g: Input, pos: nat, count: nat, depth: nat)
    requires Valid(g, pos) && depth <= MAX_DEPTH && count <= MAX_AST_NODES
    ensures var r := Primary(g, pos, count, depth); r.Done? ==> Spelled(g, r.value, 8, pos, r.pos, depth)
    decreases |g.ts| - pos, 1
  {
    hide Spelled, WellFormed, Need, NeedBody, Print, Body, Size, Parse, CallOf, Parenthesised;
    var r := Primary(g, pos, count, depth);
    if g.ts[pos].IdentTok? && !IsKeyword(g.ts[pos].name) {
      if IsPunct(g.ts[pos + 1], LParen) { CallIsSpelled(g, g.ts[pos].name, pos, count, depth); }
    } else if IsPunct(g.ts[pos], LParen) {
      ParensAreSpelled(g, pos, count, depth);
    } else if r.Done? {
      LeafSpelled(g, r.value, pos, depth);
    }
  }

  lemma LeafSpelled(g: Input, e: Expr, pos: nat, depth: nat)
    requires pos + 1 < |g.ts| && depth <= MAX_DEPTH && (e.Lit? || e.Root?) && OneToken(g.ts[pos], e)
    ensures Spelled(g, e, 8, pos, pos + 1, depth)
  {
  }

  lemma {:induction false} ParensAreSpelled(g: Input, pos: nat, count: nat, depth: nat)
    requires Valid(g, pos) && IsPunct(g.ts[pos], LParen) && depth <= MAX_DEPTH && count <= MAX_AST_NODES
    ensures var r := Parenthesised(g, pos + 1, count, depth); r.Done? ==> Spelled(g, r.value, 8, pos, r.pos, depth)
    decreases |g.ts| - pos, 0
  {
    hide Spelled, WellFormed, Need, NeedBody, Print, Body, Size, Parse;
    ReadIsSpelled(g, pos + 1, count, depth + 1, 0);
    var r := Parenthesised(g, pos + 1, count, depth);
    if r.Done? {
      Unfolded(g, r.value, 0, pos + 1, r.pos - 1, depth + 1);
      ParensSpelled(g, r.value, pos, r.pos, depth);
    }
  }

  lemma ParensSpelled(g: Input, e: Expr, pos: nat, end: nat, depth: nat)
    requires pos < end < |g.ts| && depth <= MAX_DEPTH && InParens(g, e, pos, end, depth)
    ensures Spelled(g, e, 8, pos, end, depth)
  {
    hide InParens, Bare;
  }

  lemma {:induction false} CallIsSpelled(g: Input, fn: Ident, pos: nat, count: nat, depth: nat)
    requires Valid(g, pos) && Valid(g, pos + 2) && depth <= MAX_DEPTH && count <= MAX_AST_NODES
    requires g.ts[pos] == IdentTok(fn) && !IsKeyword(fn) && IsPunct(g.ts[pos + 1], LParen)
    ensures var r := CallOf(g, fn, pos + 2, count, depth); r.Done? ==> Spelled(g, r.value, 8, pos, r.pos, depth)
    decreases |g.ts| - pos, 0
  {
    hide Spelled, WellFormed, Need, NeedBody, Print, Body, Size, SizeAll, Parse, Arguments, ArgsSpelled;
    ArgumentsAreSpelled(g, pos + 2, count, depth);
    var r := CallOf(g, fn, pos + 2, count, depth);
    if r.Done? { CallSpelled(g, r.value, pos, r.pos, depth); }
  }

  lemma CallSpelled(g: Input, e: Expr, pos: nat, end: nat, depth: nat)
    requires e.Call? && pos + 2 < end < |g.ts| && depth <= MAX_DEPTH && e.fn in g.table && !IsKeyword(e.fn)
    requires g.ts[pos] == IdentTok(e.fn) && g.ts[pos + 1] == PunctTok(LParen) && g.ts[end - 1] == PunctTok(RParen)
    requires ArgsSpelled(g, e.args, pos + 2, end - 1, depth)
    ensures Spelled(g, e, 8, pos, end, depth)
  {
    hide ArgsSpelled;
  }

  lemma {:induction false} ArgumentsAreSpelled(g: Input, pos: nat, count: nat, depth: nat)
    requires Valid(g, pos) && depth <= MAX_DEPTH && count <= MAX_AST_NODES
    ensures var r := Arguments(g, pos, count, depth); r.Done? ==> pos <= r.pos && ArgsSpelled(g, r.value, pos, r.pos, depth)
    decreases |g.ts| - pos, 20
  {
    hide Spelled, WellFormed, Need, NeedBody, Print, Body, Size, Parse, ArgLoop;
    if !IsPunct(g.ts[pos], RParen) {
      ReadIsSpelled(g, pos, count, depth + 1, 0);
      var e := Parse(g, pos, count, depth + 1, 0);
      if e.Done? { ArgLoopIsSpelled(g, pos, e.pos, e.count, depth, [e.value]); }
    }
  }

  lemma {:induction false} ArgLoopIsSpelled(g: Input, from: nat, pos: nat, count: nat, depth: nat, acc: seq<Expr>)
    requires Valid(g, pos) && depth <= MAX_DEPTH && acc != [] && count <= MAX_AST_NODES
    requires forall i | 0 <= i < |acc| :: WellFormed(acc[i], g.table)
    requires depth + NeedArgs(acc) <= MAX_DEPTH
    requires from < pos && ArgsSpelled(g, acc, from, pos, depth)
    ensures var r := ArgLoop(g, pos, count, depth, acc); r.Done? ==> from <= r.pos && ArgsSpelled(g, r.value, from, r.pos, depth)
    decreases |g.ts| - pos, 0
  {
    hide Spelled, WellFormed, Need, NeedBody, NeedArgs, Print, Body, PrintArgs, Size, SizeAll, Parse, ArgsSpelled;
    if IsPunct(g.ts[pos], Comma) {
      ReadIsSpelled(g, pos + 1, count, depth + 1, 0);
      var e := Parse(g, pos + 1, count, depth + 1, 0);
      if e.Done? {
        var args := acc + [e.value];
        assert args[..|acc|] == acc;
        MoreArgsSpelled(g, args, from, pos, e.pos, depth);
        ArgsTree(g, args, from, e.pos, depth);
        ArgLoopIsSpelled(g, from, e.pos, e.count, depth, args);
      }
    }
  }

  lemma MoreArgsSpelled(g: Input, args: seq<Expr>, pos: nat, q: nat, end: nat, depth: nat)
    requires |args| > 1 && MoreArgs(g, args, pos, q, end, depth)
    ensures ArgsSpelled(g, args, pos, end, depth)
  {
    hide MoreArgs;
  }

  // ----------------------------------------- whatever is spelled so, is read so

  /** Everything reading a spelled phrase takes for granted. */
  ghost predicate Phrase(g: Input, e: Expr, level: nat, pos: nat, end: nat, count: nat, depth: nat) {
    Valid(g, pos) && level <= 8 && Spelled(g, e, level, pos, end, depth) && count + Size(e) <= MAX_AST_NODES
  }

  /** A spelled phrase that the next token does not continue is read back as its tree. */
  lemma {:induction false} SpelledIsRead(g: Input, e: Expr, level: nat, pos: nat, end: nat, count: nat, depth: nat)
    requires Phrase(g, e, level, pos, end, count, depth) && Stops(g.ts[end], level)
    ensures Parse(g, pos, count, depth, level) == Done(e, end, count + Size(e))
    decreases end - pos, 10 - level, 2
  {
    hide Spelled, InParens, Bare, CondAt, BinAt, Need, NeedBody, WellFormed, Parse, ChainLoop, PostfixLoop, Stops, Size;
    Unfolded(g, e, level, pos, end, depth);
    SpelledTree(g, e, level, pos, end, depth);
    if level == 0 {
      if !InParens(g, e, pos, end, depth) && e.Cond? {
        CondIsRead(g, e, pos, end, count, depth);
      } else {
        NoTernary(g, e, pos, end, depth);
        SpelledTree(g, e, 1, pos, end, depth);
        StopsBelow(g.ts[end], 0, 1);
        SpelledIsRead(g, e, 1, pos, end, count, depth);
        PlainStep(g, e, pos, end, count, depth);
      }
    } else if level <= 6 {
      StopsBelow(g.ts[end], level, level + 1);
      ChainIsRead(g, e, level, pos, end, count, depth);
      ChainEnds(g, end, count + Size(e), depth, level, e);
    } else if level == 7 {
      UnaryIsRead(g, e, pos, end, count, depth);
    } else {
      PostfixIsRead(g, e, pos, end, count, depth);
      PostfixEnds(g, end, count + Size(e), depth, e);
    }
  }

  lemma NoTernary(g: Input, e: Expr, pos: nat, end: nat, depth: nat)
    requires Spelled(g, e, 0, pos, end, depth) && (InParens(g, e, pos, end, depth) || !e.Cond?)
    ensures Spelled(g, e, 1, pos, end, depth)
  {
    hide InParens, IndexAt, CondAt, ArgsSpelled;
    Unfolded(g, e, 0, pos, end, depth);
    if e.Bin? && !InParens(g, e, pos, end, depth) {
      assert Bare(g, e, 0, pos, end, depth);
      var q: nat :| BinAt(g, e, 0, pos, q, end, depth);
      assert BinAt(g, e, 1, pos, q, end, depth);
    }
  }

  lemma PlainStep(g: Input, e: Expr, pos: nat, end: nat, count: nat, depth: nat)
    requires Valid(g, pos) && Valid(g, end) && depth <= MAX_DEPTH && count + Size(e) <= MAX_AST_NODES
    requires WellFormed(e, g.table) && depth + Need(e, 1) <= MAX_DEPTH && Stops(g.ts[end], 0)
    requires Parse(g, pos, count, depth, 1) == Done(e, end, count + Size(e))
    ensures Parse(g, pos, count, depth, 0) == Done(e, end, count + Size(e))
  {
    hide Print, Body, Need, NeedBody, WellFormed, ChainLoop, Primary, PostfixLoop, Size;
  }

  lemma ChainEnds(g: Input, pos: nat, count: nat, depth: nat, level: nat, e: Expr)
    requires Valid(g, pos) && depth <= MAX_DEPTH && 1 <= level <= 6 && count <= MAX_AST_NODES
    requires WellFormed(e, g.table) && depth + Need(e, level) <= MAX_DEPTH && Stops(g.ts[pos], level)
    ensures ChainLoop(g, pos, count, depth, level, e) == Done(e, pos, count)
  {
    hide Print, Body, Need, NeedBody, WellFormed, Parse, Size, Class, BinaryOp, OpLevel;
    ClassIs(g.ts[pos]);
  }

  lemma PostfixEnds(g: Input, pos: nat, count: nat, depth: nat, e: Expr)
    requires Valid(g, pos) && depth <= MAX_DEPTH && count <= MAX_AST_NODES
    requires WellFormed(e, g.table) && depth + Need(e, 8) <= MAX_DEPTH && Stops(g.ts[pos], 8)
    ensures PostfixLoop(g, pos, count, depth, e) == Done(e, pos, count)
  {
    hide Print, Body, Need, NeedBody, WellFormed, Parse, Size;
  }

  lemma {:induction false} CondIsRead(g: Input, e: Expr, pos: nat, end: nat, count: nat, depth: nat)
    requires Phrase(g, e, 0, pos, end, count, depth) && Stops(g.ts[end], 0)
    requires e.Cond? && pos < end && !InParens(g, e, pos, end, depth)
    ensures Parse(g, pos, count, depth, 0) == Done(e, end, count + Size(e))
    decreases end - pos, 10, 0
  {
    hide Spelled, InParens, Need, NeedBody, WellFormed, Parse, TernaryRest, Stops, Class;
    Unfolded(g, e, 0, pos, end, depth);
    var q: nat, r: nat :| CondAt(g, e, pos, q, r, end, depth);
    SpelledTree(g, e.c, 1, pos, q, depth);
    ColonStops(g.ts[q], g.ts[r]);
    SpelledIsRead(g, e.c, 1, pos, q, count, depth);
    Unfolded(g, e.a, 0, q + 1, r, depth + 1);
    SpelledIsRead(g, e.a, 0, q + 1, r, count + Size(e.c), depth + 1);
    SpelledIsRead(g, e.b, 0, r + 1, end, count + Size(e.c) + Size(e.a), depth + 1);
    TernaryStep(g, e, q, r, end, count + Size(e.c), depth);
    CondStep(g, e, pos, q, end, count, depth);
  }

  lemma ColonStops(question: Token, colon: Token)
    ensures question == PunctTok(Question) ==> Stops(question, 1)
    ensures colon in {PunctTok(Colon), PunctTok(Comma), PunctTok(RParen), PunctTok(RBracket)} ==> Stops(colon, 0)
  {
  }

  lemma TernaryStep(g: Input, e: Expr, qa: nat, qb: nat, end: nat, count: nat, depth: nat)
    requires e.Cond? && Valid(g, qa) && qa < qb < end < |g.ts| && depth < MAX_DEPTH
    requires WellFormed(e.c, g.table) && depth + Need(e.c, 1) <= MAX_DEPTH
    requires count + Size(e.a) + Size(e.b) + 1 <= MAX_AST_NODES
    requires IsPunct(g.ts[qa], Question) && IsPunct(g.ts[qb], Colon)
    requires Parse(g, qa + 1, count, depth + 1, 0) == Done(e.a, qb, count + Size(e.a))
    requires Parse(g, qb + 1, count + Size(e.a), depth + 1, 0) == Done(e.b, end, count + Size(e.a) + Size(e.b))
    ensures TernaryRest(g, qa, count, depth, e.c) == Done(e, end, count + Size(e.a) + Size(e.b) + 1)
  {
    hide Print, Body, Need, NeedBody, WellFormed, Parse, Size;
  }

  lemma CondStep(g: Input, e: Expr, pos: nat, qa: nat, end: nat, count: nat, depth: nat)
    requires e.Cond? && Valid(g, pos) && pos < qa < end < |g.ts| && depth < MAX_DEPTH && count + Size(e) <= MAX_AST_NODES
    requires Parse(g, pos, count, depth, 1) == Done(e.c, qa, count + Size(e.c))
    requires WellFormed(e.c, g.table) && depth + Need(e.c, 1) <= MAX_DEPTH
    requires TernaryRest(g, qa, count + Size(e.c), depth, e.c) == Done(e, end, count + Size(e))
    ensures Parse(g, pos, count, depth, 0) == Done(e, end, count + Size(e))
  {
    hide Print, Body, Need, NeedBody, WellFormed, TernaryRest;
  }

  /** A spelled operand or chain leaves the chain loop holding exactly it. */
  lemma {:induction false} ChainIsRead(g: Input, e: Expr, level: nat, pos: nat, end: nat, count: nat, depth: nat)
    requires 1 <= level <= 6 && Phrase(g, e, level, pos, end, count, depth) && Stops(g.ts[end], level + 1)
    requires WellFormed(e, g.table) && depth + Need(e, level) <= MAX_DEPTH
    ensures Parse(g, pos, count, depth, level) == ChainLoop(g, end, count + Size(e), depth, level, e)
    decreases end - pos, 10 - level, 1
  {
    hide Spelled, InParens, Bare, BinAt, Need, NeedBody, WellFormed, Parse, ChainLoop, Stops, Class, Size;
    if q: nat :| OperatorAt(g, e, level, pos, q, end, depth) {
      BinIsRead(g, e, level, pos, q, end, count, depth);
    } else {
      NoOperator(g, e, level, pos, end, depth);
      SpelledTree(g, e, level + 1, pos, end, depth);
      SpelledIsRead(g, e, level + 1, pos, end, count, depth);
      OperandStep(g, e, level, pos, end, count, depth);
    }
  }

  /** The phrase is a chain of exactly this level, its last operator at `q`. */
  ghost predicate OperatorAt(g: Input, e: Expr, level: nat, pos: nat, q: nat, end: nat, depth: nat) {
    e.Bin? && pos < q < end < |g.ts| && BinAt(g, e, level, pos, q, end, depth) && Class(g.ts[q]) == level
  }

  lemma NoOperator(g: Input, e: Expr, level: nat, pos: nat, end: nat, depth: nat)
    requires 1 <= level <= 6 && Spelled(g, e, level, pos, end, depth)
    requires forall q: nat :: !OperatorAt(g, e, level, pos, q, end, depth)
    ensures Spelled(g, e, level + 1, pos, end, depth)
  {
    hide InParens, IndexAt, CondAt, ArgsSpelled;
    Unfolded(g, e, level, pos, end, depth);
    if e.Bin? && !InParens(g, e, pos, end, depth) {
      assert Bare(g, e, level, pos, end, depth);
      var q: nat :| BinAt(g, e, level, pos, q, end, depth);
      assert !OperatorAt(g, e, level, pos, q, end, depth);
      assert BinAt(g, e, level + 1, pos, q, end, depth);
    }
  }

  lemma OperandStep(g: Input, e: Expr, level: nat, pos: nat, end: nat, count: nat, depth: nat)
    requires Valid(g, pos) && Valid(g, end) && 1 <= level <= 6 && depth <= MAX_DEPTH && count + Size(e) <= MAX_AST_NODES
    requires WellFormed(e, g.table) && depth + Need(e, level) <= MAX_DEPTH
    requires Parse(g, pos, count, depth, level + 1) == Done(e, end, count + Size(e))
    ensures Parse(g, pos, count, depth, level) == ChainLoop(g, end, count + Size(e), depth, level, e)
  {
    hide Print, Body, Need, NeedBody, WellFormed, ChainLoop, Primary, PostfixLoop, Size;
  }

  lemma {:induction false} BinIsRead(g: Input, e: Expr, level: nat, pos: nat, q: nat, end: nat, count: nat, depth: nat)
    requires 1 <= level <= 6 && Phrase(g, e, level, pos, end, count, depth) && Stops(g.ts[end], level + 1)
    requires WellFormed(e, g.table) && depth + Need(e, level) <= MAX_DEPTH
    requires OperatorAt(g, e, level, pos, q, end, depth)
    ensures Parse(g, pos, count, depth, level) == ChainLoop(g, end, count + Size(e), depth, level, e)
    decreases end - pos, 10 - level, 0
  {
    hide Spelled, Need, NeedBody, WellFormed, Parse, ChainLoop, Stops, Class, Operator;
    Unfolded(g, e, level, pos, end, depth);
    SpelledTree(g, e.l, level, pos, q, depth);
    OperatorStops(g.ts[q]);
    ChainIsRead(g, e.l, level, pos, q, count, depth);
    SpelledIsRead(g, e.r, level + 1, q + 1, end, count + Size(e.l), depth);
    ChainStep(g, e, level, q, end, count + Size(e.l), depth);
  }

  lemma OperatorStops(t: Token)
    requires Class(t) > 0
    ensures Stops(t, Class(t) + 1)
  {
  }

  lemma ChainStep(g: Input, e: Expr, level: nat, q: nat, end: nat, count: nat, depth: nat)
    requires e.Bin? && 1 <= level <= 6 && Valid(g, q) && Valid(g, q + 1) && Valid(g, end) && depth <= MAX_DEPTH
    requires WellFormed(e, g.table) && depth + Need(e, level) <= MAX_DEPTH
    requires WellFormed(e.l, g.table) && depth + Need(e.l, level) <= MAX_DEPTH
    requires Class(g.ts[q]) == level && e.op == Operator(g.ts[q]) && count + Size(e.r) + 1 <= MAX_AST_NODES
    requires Parse(g, q + 1, count, depth, level + 1) == Done(e.r, end, count + Size(e.r))
    ensures ChainLoop(g, q, count, depth, level, e.l) == ChainLoop(g, end, count + Size(e.r) + 1, depth, level, e)
  {
    hide Print, Body, Need, NeedBody, WellFormed, Parse, Size, Class, Operator, BinaryOp, OpLevel;
    ClassIs(g.ts[q]);
  }

  lemma {:induction false} UnaryIsRead(g: Input, e: Expr, pos: nat, end: nat, count: nat, depth: nat)
    requires Phrase(g, e, 7, pos, end, count, depth) && Stops(g.ts[end], 7)
    ensures Parse(g, pos, count, depth, 7) == Done(e, end, count + Size(e))
    decreases end - pos, 3, 0
  {
    hide Spelled, InParens, Need, NeedBody, WellFormed, Parse, Stops, Class, ArgsSpelled, IndexAt, BinAt, CondAt;
    Unfolded(g, e, 7, pos, end, depth);
    if e.Unary? && !InParens(g, e, pos, end, depth) {
      SpelledTree(g, e, 7, pos, end, depth);
      SpelledTree(g, e.on, 7, pos + 1, end, depth + 1);
      Unfolded(g, e.on, 7, pos + 1, end, depth + 1);
      SpelledIsRead(g, e.on, 7, pos + 1, end, count, depth + 1);
      UnaryStep(g, e, pos, end, count, depth);
    } else {
      NoPrefix(g, e, pos, end, depth);
      StopsBelow(g.ts[end], 7, 8);
      SpelledIsRead(g, e, 8, pos, end, count, depth);
      NoPrefixStep(g, pos, count, depth);
    }
  }

  /** A postfix form starts with no prefix operator. */
  lemma {:induction false} PostfixStart(g: Input, e: Expr, pos: nat, end: nat, depth: nat)
    requires Spelled(g, e, 8, pos, end, depth)
    ensures pos < |g.ts| && !IsPunct(g.ts[pos], Bang) && !IsPunct(g.ts[pos], Minus) && !IsPunct(g.ts[pos], RParen)
    decreases end - pos
  {
    hide Spelled, ArgsSpelled, BinAt, CondAt;
    Unfolded(g, e, 8, pos, end, depth);
    if !InParens(g, e, pos, end, depth) {
      if e.Member? { PostfixStart(g, e.on, pos, end - 2, depth); }
      if e.Index? {
        var q: nat :| IndexAt(g, e, pos, q, end, depth);
        PostfixStart(g, e.on, pos, q, depth);
      }
      if e.Bin? {
        var q: nat :| BinAt(g, e, 8, pos, q, end, depth);
        assert BinAt(g, e, 8, pos, q, end, depth) ==> 8 <= Class(g.ts[q]) by { BinClass(g, e, 8, pos, q, end, depth); }
      }
    }
  }

  lemma BinClass(g: Input, e: Expr, level: nat, pos: nat, q: nat, end: nat, depth: nat)
    requires e.Bin? && pos < end < |g.ts| && BinAt(g, e, level, pos, q, end, depth)
    ensures pos < q < end && level <= Class(g.ts[q]) <= 6
  {
  }

  lemma NoPrefix(g: Input, e: Expr, pos: nat, end: nat, depth: nat)
    requires Spelled(g, e, 7, pos, end, depth) && (InParens(g, e, pos, end, depth) || !e.Unary?)
    ensures Spelled(g, e, 8, pos, end, depth) && !IsPunct(g.ts[pos], Bang) && !IsPunct(g.ts[pos], Minus)
  {
    hide InParens, IndexAt, CondAt, ArgsSpelled, BinAt;
    Unfolded(g, e, 7, pos, end, depth);
    if e.Bin? && !InParens(g, e, pos, end, depth) {
      assert Bare(g, e, 7, pos, end, depth);
      var q: nat :| BinAt(g, e, 7, pos, q, end, depth);
      BinClass(g, e, 7, pos, q, end, depth);
    }
    assert Spelled(g, e, 8, pos, end, depth);
    PostfixStart(g, e, pos, end, depth);
  }

  lemma UnaryStep(g: Input, e: Expr, pos: nat, end: nat, count: nat, depth: nat)
    requires e.Unary? && Valid(g, pos) && Valid(g, pos + 1) && Valid(g, end) && depth + 1 <= MAX_DEPTH
    requires WellFormed(e, g.table) && count + Size(e) <= MAX_AST_NODES
    requires g.ts[pos] == PunctTok(if e.uop == Not then Bang else Minus)
    requires Parse(g, pos + 1, count, depth + 1, 7) == Done(e.on, end, count + Size(e.on))
    ensures Parse(g, pos, count, depth, 7) == Done(e, end, count + Size(e))
  {
    hide Print, Body, Need, NeedBody, WellFormed, ChainLoop, Primary, PostfixLoop;
  }

  lemma NoPrefixStep(g: Input, pos: nat, count: nat, depth: nat)
    requires Valid(g, pos) && depth <= MAX_DEPTH && count <= MAX_AST_NODES
    requires !IsPunct(g.ts[pos], Bang) && !IsPunct(g.ts[pos], Minus)
    ensures Parse(g, pos, count, depth, 7) == Parse(g, pos, count, depth, 8)
  {
    hide Print, Body, Need, NeedBody, WellFormed, ChainLoop, Primary, PostfixLoop;
  }

  /** A spelled postfix phrase leaves the postfix loop holding exactly it, whatever follows. */
  lemma {:induction false} PostfixIsRead(g: Input, e: Expr, pos: nat, end: nat, count: nat, depth: nat)
    requires Phrase(g, e, 8, pos, end, count, depth)
    ensures WellFormed(e, g.table) && depth + Need(e, 8) <= MAX_DEPTH && pos < end < |g.ts|
    ensures Parse(g, pos, count, depth, 8) == PostfixLoop(g, end, count + Size(e), depth, e)
    decreases end - pos, 2, 1
  {
    hide Spelled, InParens, IndexAt, Parse, PostfixLoop, Primary, Need, NeedBody, WellFormed, Size, ArgsSpelled;
    SpelledTree(g, e, 8, pos, end, depth);
    Unfolded(g, e, 8, pos, end, depth);
    PostfixForms(g, e, pos, end, depth);
    if InParens(g, e, pos, end, depth) {
      ParensAreRead(g, e, pos, end, count, depth);
    } else {
      match e
      case Lit(_) => LeafStep(g, e, pos, count, depth);
      case Root(_) => LeafStep(g, e, pos, count, depth);
      case Member(_, _) => MemberIsRead(g, e, pos, end, count, depth);
      case Index(_, _) => IndexIsRead(g, e, pos, end, count, depth);
      case Call(_, _) => CallIsRead(g, e, pos, end, count, depth);
    }
  }

  lemma PostfixForms(g: Input, e: Expr, pos: nat, end: nat, depth: nat)
    requires Spelled(g, e, 8, pos, end, depth)
    ensures InParens(g, e, pos, end, depth) || (!e.Unary? && !e.Bin? && !e.Cond?)
    ensures e.Index? && !InParens(g, e, pos, end, depth) ==> exists q: nat :: IndexAt(g, e, pos, q, end, depth)
  {
    hide InParens, IndexAt, CondAt, ArgsSpelled, BinAt;
    Unfolded(g, e, 8, pos, end, depth);
    if e.Bin? && !InParens(g, e, pos, end, depth) {
      assert Bare(g, e, 8, pos, end, depth);
      var q: nat :| BinAt(g, e, 8, pos, q, end, depth);
      BinClass(g, e, 8, pos, q, end, depth);
    }
  }

  lemma {:induction false} ParensAreRead(g: Input, e: Expr, pos: nat, end: nat, count: nat, depth: nat)
    requires Phrase(g, e, 8, pos, end, count, depth) && pos < end < |g.ts| && InParens(g, e, pos, end, depth)
    requires WellFormed(e, g.table) && depth + Need(e, 8) <= MAX_DEPTH && depth <= MAX_DEPTH
    ensures Parse(g, pos, count, depth, 8) == PostfixLoop(g, end, count + Size(e), depth, e)
    decreases end - pos, 2, 0
  {
    hide Spelled, Parse, PostfixLoop, Primary, Need, NeedBody, WellFormed, Size, Stops;
    ColonStops(g.ts[pos], g.ts[end - 1]);
    Unfolded(g, e, 0, pos + 1, end - 1, depth + 1);
    SpelledIsRead(g, e, 0, pos + 1, end - 1, count, depth + 1);
    ParenStep(g, pos, count, depth);
    PrimaryTurn(g, pos, count, depth);
  }

  lemma ParenStep(g: Input, pos: nat, count: nat, depth: nat)
    requires Valid(g, pos) && Valid(g, pos + 1) && depth < MAX_DEPTH && count <= MAX_AST_NODES && IsPunct(g.ts[pos], LParen)
    requires Parse(g, pos + 1, count, depth + 1, 0).Done?
    requires var Done(e, p, n) := Parse(g, pos + 1, count, depth + 1, 0); IsPunct(g.ts[p], RParen)
    ensures var Done(e, p, n) := Parse(g, pos + 1, count, depth + 1, 0);
      Primary(g, pos, count, depth) == Done(e, p + 1, n)
  {
    hide Print, Body, Need, NeedBody, WellFormed, Size, Parse;
  }

  lemma PrimaryTurn(g: Input, pos: nat, count: nat, depth: nat)
    requires Valid(g, pos) && depth <= MAX_DEPTH && count <= MAX_AST_NODES
    requires Primary(g, pos, count, depth).Done?
    ensures var Done(e, p, n) := Primary(g, pos, count, depth);
      Parse(g, pos, count, depth, 8) == PostfixLoop(g, p, n, depth, e)
  {
    hide Print, Body, Need, NeedBody, WellFormed, Size, Primary, PostfixLoop;
  }

  lemma LeafStep(g: Input, e: Expr, pos: nat, count: nat, depth: nat)
    requires Valid(g, pos) && Valid(g, pos + 1) && depth <= MAX_DEPTH && count + Size(e) <= MAX_AST_NODES
    requires (e.Lit? || e.Root?) && OneToken(g.ts[pos], e)
    requires WellFormed(e, g.table) && depth + Need(e, 8) <= MAX_DEPTH
    ensures Parse(g, pos, count, depth, 8) == PostfixLoop(g, pos + 1, count + Size(e), depth, e)
  {
    hide PostfixLoop;
    assert Primary(g, pos, count, depth) == Done(e, pos + 1, count + 1);
  }

  lemma {:induction false} MemberIsRead(g: Input, e: Expr, pos: nat, end: nat, count: nat, depth: nat)
    requires e.Member? && Phrase(g, e, 8, pos, end, count, depth) && pos < end && !InParens(g, e, pos, end, depth)
    requires WellFormed(e, g.table) && depth + Need(e, 8) <= MAX_DEPTH
    ensures Parse(g, pos, count, depth, 8) == PostfixLoop(g, end, count + Size(e), depth, e)
    decreases end - pos, 2, 0
  {
    hide Spelled, InParens, Parse, PostfixLoop, Primary, Need, NeedBody, WellFormed;
    Unfolded(g, e, 8, pos, end, depth);
    PostfixIsRead(g, e.on, pos, end - 2, count, depth);
    MemberStep(g, e, end - 2, count + Size(e.on), depth);
  }

  lemma MemberStep(g: Input, e: Expr, q: nat, count: nat, depth: nat)
    requires e.Member? && Valid(g, q + 2) && depth <= MAX_DEPTH && count + 1 <= MAX_AST_NODES
    requires WellFormed(e, g.table) && depth + Need(e, 8) <= MAX_DEPTH
    requires WellFormed(e.on, g.table) && depth + Need(e.on, 8) <= MAX_DEPTH
    requires IsPunct(g.ts[q], Dot) && g.ts[q + 1] == IdentTok(e.key)
    ensures PostfixLoop(g, q, count, depth, e.on) == PostfixLoop(g, q + 2, count + 1, depth, e)
  {
    hide Print, Body, Need, NeedBody, WellFormed, Parse, Size;
  }

  lemma {:induction false} IndexIsRead(g: Input, e: Expr, pos: nat, end: nat, count: nat, depth: nat)
    requires e.Index? && Phrase(g, e, 8, pos, end, count, depth) && pos < end && !InParens(g, e, pos, end, depth)
    requires WellFormed(e, g.table) && depth + Need(e, 8) <= MAX_DEPTH
    ensures Parse(g, pos, count, depth, 8) == PostfixLoop(g, end, count + Size(e), depth, e)
    decreases end - pos, 2, 0
  {
    hide Spelled, InParens, Bare, Parse, PostfixLoop, Need, NeedBody, WellFormed, Stops, IndexOf;
    Unfolded(g, e, 8, pos, end, depth);
    PostfixForms(g, e, pos, end, depth);
    var q: nat :| IndexAt(g, e, pos, q, end, depth);
    PostfixIsRead(g, e.on, pos, q, count, depth);
    ColonStops(g.ts[q], g.ts[end - 1]);
    Unfolded(g, e.idx, 0, q + 1, end - 1, depth + 1);
    SpelledIsRead(g, e.idx, 0, q + 1, end - 1, count + Size(e.on), depth + 1);
    IndexRead(g, q + 1, count + Size(e.on), depth, e.on);
    IndexTurn(g, q, count + Size(e.on), depth, e.on);
  }

  lemma IndexRead(g: Input, pos: nat, count: nat, depth: nat, on: Expr)
    requires 0 < pos && Valid(g, pos) && depth <= MAX_DEPTH && count <= MAX_AST_NODES
    requires WellFormed(on, g.table) && depth + Need(on, 8) <= MAX_DEPTH
    requires Parse(g, pos, count, depth + 1, 0).Done?
    requires var Done(idx, p, n) := Parse(g, pos, count, depth + 1, 0);
      !IsStringLiteral(idx) && n < MAX_AST_NODES && IsPunct(g.ts[p], RBracket)
    ensures var Done(idx, p, n) := Parse(g, pos, count, depth + 1, 0);
      IndexOf(g, pos, count, depth, on) == Done(Index(on, idx), p + 1, n + 1)
  {
    hide Print, Body, Need, NeedBody, Parse, WellFormed, Size;
  }

  lemma IndexTurn(g: Input, q: nat, count: nat, depth: nat, on: Expr)
    requires Valid(g, q) && Valid(g, q + 1) && depth <= MAX_DEPTH && count <= MAX_AST_NODES
    requires WellFormed(on, g.table) && depth + Need(on, 8) <= MAX_DEPTH && IsPunct(g.ts[q], LBracket)
    requires IndexOf(g, q + 1, count, depth, on).Done?
    ensures var Done(e, p, n) := IndexOf(g, q + 1, count, depth, on);
      PostfixLoop(g, q, count, depth, on) == PostfixLoop(g, p, n, depth, e)
  {
    hide Print, Body, Need, NeedBody, Parse, WellFormed, Size, IndexOf;
  }

  lemma {:induction false} CallIsRead(g: Input, e: Expr, pos: nat, end: nat, count: nat, depth: nat)
    requires e.Call? && Phrase(g, e, 8, pos, end, count, depth) && pos < end && !InParens(g, e, pos, end, depth)
    requires WellFormed(e, g.table) && depth + Need(e, 8) <= MAX_DEPTH
    ensures Parse(g, pos, count, depth, 8) == PostfixLoop(g, end, count + Size(e), depth, e)
    decreases end - pos, 2, 0
  {
    hide Spelled, InParens, Parse, PostfixLoop, Primary, Need, NeedBody, WellFormed, ArgsSpelled, CallOf, Arguments;
    Unfolded(g, e, 8, pos, end, depth);
    ArgsAreRead(g, e.args, pos + 2, end - 1, count, depth);
    CallRead(g, e.fn, pos + 2, count, depth);
    CallTurn(g, e.fn, pos, count, depth, CallOf(g, e.fn, pos + 2, count, depth));
    PrimaryTurn(g, pos, count, depth);
  }

  lemma CallRead(g: Input, fn: Ident, pos: nat, count: nat, depth: nat)
    requires 2 <= pos && Valid(g, pos) && depth <= MAX_DEPTH && count <= MAX_AST_NODES
    requires fn in g.table && !IsKeyword(fn) && Arguments(g, pos, count, depth).Done?
    requires var Done(args, p, n) := Arguments(g, pos, count, depth); IsPunct(g.ts[p], RParen) && n < MAX_AST_NODES
    ensures var Done(args, p, n) := Arguments(g, pos, count, depth);
      CallOf(g, fn, pos, count, depth) == Done(Call(fn, args), p + 1, n + 1)
  {
    hide Print, Body, Need, NeedBody, Parse, WellFormed, Size, Arguments;
  }

  lemma CallTurn(g: Input, fn: Ident, pos: nat, count: nat, depth: nat, r: Parsed<Expr>)
    requires Valid(g, pos) && Valid(g, pos + 2) && depth <= MAX_DEPTH && count <= MAX_AST_NODES && !IsKeyword(fn)
    requires g.ts[pos] == IdentTok(fn) && IsPunct(g.ts[pos + 1], LParen)
    requires CallOf(g, fn, pos + 2, count, depth) == r
    ensures Primary(g, pos, count, depth) == r
  {
    hide Print, Body, Need, NeedBody, WellFormed, Size, CallOf, Parse;
  }

  lemma {:induction false} ArgsAreRead(g: Input, args: seq<Expr>, pos: nat, end: nat, count: nat, depth: nat)
    requires Valid(g, pos) && ArgsSpelled(g, args, pos, end, depth) && depth <= MAX_DEPTH
    requires count + SizeAll(args) <= MAX_AST_NODES && end < |g.ts| && IsPunct(g.ts[end], RParen)
    ensures Arguments(g, pos, count, depth) == Done(args, end, count + SizeAll(args))
    decreases end - pos, 10, 4
  {
    hide Spelled, Parse, ArgLoop, Need, NeedBody, NeedArgs, WellFormed, Size;
    if args != [] {
      ArgListIsRead(g, args, pos, end, count, depth);
      ArgLoopEnds(g, end, count + SizeAll(args), depth, args);
    }
  }

  lemma ArgLoopEnds(g: Input, pos: nat, count: nat, depth: nat, acc: seq<Expr>)
    requires Valid(g, pos) && depth <= MAX_DEPTH && acc != [] && count <= MAX_AST_NODES && IsPunct(g.ts[pos], RParen)
    requires forall i | 0 <= i < |acc| :: WellFormed(acc[i], g.table)
    requires depth + NeedArgs(acc) <= MAX_DEPTH
    ensures ArgLoop(g, pos, count, depth, acc) == Done(acc, pos, count)
  {
    hide Parse, Need, NeedArgs, WellFormed, PrintArgs, SizeAll;
  }

  /** A spelled argument list leaves the argument loop holding exactly it. */
  lemma {:induction false} ArgListIsRead(g: Input, args: seq<Expr>, pos: nat, end: nat, count: nat, depth: nat)
    requires args != [] && Valid(g, pos) && ArgsSpelled(g, args, pos, end, depth) && depth <= MAX_DEPTH
    requires count + SizeAll(args) <= MAX_AST_NODES && end < |g.ts| && (IsPunct(g.ts[end], Comma) || IsPunct(g.ts[end], RParen))
    ensures forall i | 0 <= i < |args| :: WellFormed(args[i], g.table)
    ensures depth + NeedArgs(args) <= MAX_DEPTH
    ensures Arguments(g, pos, count, depth) == ArgLoop(g, end, count + SizeAll(args), depth, args)
    decreases end - pos, 10, 3
  {
    hide Spelled, Parse, ArgLoop, Need, NeedBody, NeedArgs, WellFormed, Size, Stops, Arguments;
    ArgsTree(g, args, pos, end, depth);
    ColonStops(g.ts[end], g.ts[end]);
    if |args| == 1 {
      assert args == [args[0]] && SizeAll(args) == Size(args[0]) by { OneSize(args); }
      SpelledIsRead(g, args[0], 0, pos, end, count, depth + 1);
      PhraseStart(g, args[0], 0, pos, end, depth + 1);
      FirstArgStep(g, args[0], pos, end, count, depth);
    } else {
      var init, last := args[..|args| - 1], args[|args| - 1];
      var q: nat :| MoreArgs(g, args, pos, q, end, depth);
      ArgListIsRead(g, init, pos, q, count, depth);
      SpelledIsRead(g, last, 0, q + 1, end, count + SizeAll(init), depth + 1);
      assert init + [last] == args;
      ArgStep(g, args, q, end, count + SizeAll(init), depth);
    }
  }

  lemma OneSize(args: seq<Expr>)
    requires |args| == 1
    ensures args == [args[0]] && SizeAll(args) == Size(args[0])
  {
    assert args[..0] == [];
  }

  /** No phrase starts with a closing parenthesis. */
  lemma {:induction false} PhraseStart(g: Input, e: Expr, level: nat, pos: nat, end: nat, depth: nat)
    requires Spelled(g, e, level, pos, end, depth)
    ensures pos < |g.ts| && !IsPunct(g.ts[pos], RParen)
    decreases end - pos
  {
    hide Spelled, ArgsSpelled, Class, Operator;
    Unfolded(g, e, level, pos, end, depth);
    if !InParens(g, e, pos, end, depth) {
      match e
      case Member(on, _) => PhraseStart(g, on, 8, pos, end - 2, depth);
      case Index(on, _) => var q: nat :| IndexAt(g, e, pos, q, end, depth); PhraseStart(g, on, 8, pos, q, depth);
      case Bin(_, l, _) => var q: nat :| BinAt(g, e, level, pos, q, end, depth); PhraseStart(g, l, Class(g.ts[q]), pos, q, depth);
      case Cond(c, _, _) => var q: nat, r: nat :| CondAt(g, e, pos, q, r, end, depth); PhraseStart(g, c, 1, pos, q, depth);
      case _ =>
    }
  }

  lemma FirstArgStep(g: Input, e: Expr, pos: nat, end: nat, count: nat, depth: nat)
    requires Valid(g, pos) && Valid(g, end) && depth <= MAX_DEPTH && count + Size(e) <= MAX_AST_NODES && !IsPunct(g.ts[pos], RParen)
    requires WellFormed(e, g.table) && depth + NeedArgs([e]) <= MAX_DEPTH
    requires Parse(g, pos, count, depth + 1, 0) == Done(e, end, count + Size(e))
    ensures Arguments(g, pos, count, depth) == ArgLoop(g, end, count + Size(e), depth, [e])
  {
    hide Print, PrintArgs, Body, Need, NeedBody, NeedArgs, WellFormed, Parse, ArgLoop, Size, SizeAll;
  }

  lemma ArgStep(g: Input, args: seq<Expr>, q: nat, end: nat, count: nat, depth: nat)
    requires |args| > 1 && Valid(g, q) && Valid(g, q + 1) && Valid(g, end) && depth <= MAX_DEPTH && IsPunct(g.ts[q], Comma)
    requires forall i | 0 <= i < |args| :: WellFormed(args[i], g.table)
    requires depth + NeedArgs(args) <= MAX_DEPTH && depth + NeedArgs(args[..|args| - 1]) <= MAX_DEPTH
    requires count + Size(args[|args| - 1]) <= MAX_AST_NODES
    requires Parse(g, q + 1, count, depth + 1, 0) == Done(args[|args| - 1], end, count + Size(args[|args| - 1]))
    ensures ArgLoop(g, q, count, depth, args[..|args| - 1]) == ArgLoop(g, end, count + Size(args[|args| - 1]), depth, args)
  {
    hide Print, PrintArgs, Body, Need, NeedBody, NeedArgs, WellFormed, Parse, Size, SizeAll;
    assert args[..|args| - 1] + [args[|args| - 1]] == args;
  }

  // ------------------------------------------------------------ main results

  /** The parser accepts the language, no less and no more, and reads every spelling as its tree. */
  lemma ProgramIff(g: Input, e: Expr, end: nat, count: nat)
    requires Valid(g, 0)
    ensures Program(g) == Done(e, end, count)
      <==> Spelled(g, e, 0, 0, end, 0) && g.ts[end] == EofTok && count == Size(e) <= MAX_AST_NODES
  {
    hide Spelled, Parse;
    ReadIsSpelled(g, 0, 0, 0, 0);
    if Spelled(g, e, 0, 0, end, 0) {
      Unfolded(g, e, 0, 0, end, 0);
      if g.ts[end] == EofTok && count == Size(e) <= MAX_AST_NODES { SpelledIsRead(g, e, 0, 0, end, 0, 0); }
    }
  }
}
