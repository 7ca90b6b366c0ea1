/**
 * Printing is a right inverse of parsing: what `Print` spells parses back to the
 * same tree, with the same node count, whenever some token list parsed to it.
 */
module ExprRoundTrip {
  import opened ExprAst
  import opened ExprGrammar
  import opened ExprLanguage

  /** `p` stands in `g.ts` at `pos`, with a token after it. */
  predicate At(g: Input, pos: nat, p: seq<Token>) {
    pos + |p| < |g.ts| && g.ts[pos..pos + |p|] == p
  }

  /** The hypotheses under which `Print(e, level)` at `pos` is read back. */
  ghost predicate Fits(g: Input, e: Expr, level: nat, pos: nat, count: nat, depth: nat) {
    && Valid(g, pos)
    && At(g, pos, Print(e, level))
    && WellFormed(e, g.table)
    && count + Size(e) <= MAX_AST_NODES
    && depth + Need(e, level) <= MAX_DEPTH
  }

  function End(e: Expr, level: nat, pos: nat): nat {
    pos + |Print(e, level)|
  }

  lemma AtParts(g: Input, pos: nat, a: seq<Token>, b: seq<Token>)
    requires At(g, pos, a + b)
    ensures pos + |a| <= pos + |a + b| < |g.ts|
    ensures g.ts[pos..pos + |a|] == a
    ensures At(g, pos + |a|, b)
    ensures b != [] ==> At(g, pos, a) && g.ts[pos + |a|] == b[0]
  {
    var s := g.ts[pos..pos + |a + b|];
    assert s[..|a|] == g.ts[pos..pos + |a|];
    assert s[|a|..] == g.ts[pos + |a|..pos + |a| + |b|];
    assert (a + b)[..|a|] == a && (a + b)[|a|..] == b;
    if b != [] {
      assert g.ts[pos + |a|] == g.ts[pos + |a|..pos + |a| + |b|][0];
    }
  }

  /** A phrase, a token and a phrase. */
  lemma AtInfix(g: Input, pos: nat, a: seq<Token>, t: Token, b: seq<Token>)
    requires At(g, pos, a + [t] + b)
    ensures pos + |a| + 1 + |b| == pos + |a + [t] + b| < |g.ts|
    ensures At(g, pos, a) && g.ts[pos + |a|] == t && At(g, pos + |a| + 1, b)
  {
    assert a + [t] + b == a + ([t] + b);
    AtParts(g, pos, a, [t] + b);
    AtParts(g, pos + |a|, [t], b);
  }

  // The parts of a printed phrase stand where the grammar looks for them.

  lemma UnaryFits(g: Input, e: Expr, pos: nat, count: nat, depth: nat)
    requires e.Unary? && Fits(g, e, 7, pos, count, depth)
    ensures g.ts[pos] == PunctTok(UnopPunct(e.uop))
    ensures Fits(g, e.on, 7, pos + 1, count, depth + 1) && End(e.on, 7, pos + 1) == End(e, 7, pos)
  {
    var op, on := [PunctTok(UnopPunct(e.uop))], Print(e.on, 7);
    assert Print(e, 7) == Body(e) == op + on;
    assert Need(e, 7) == NeedBody(e) == 1 + Need(e.on, 7);
    hide Print, Body, Need, NeedBody, At;
    AtParts(g, pos, op, on);
    assert g.ts[pos] == g.ts[pos..pos + 1][0];
  }

  lemma CondFits(g: Input, e: Expr, pos: nat, count: nat, depth: nat)
    requires e.Cond? && Fits(g, e, 0, pos, count, depth)
    ensures Fits(g, e.c, 1, pos, count, depth)
    ensures var qa := End(e.c, 1, pos);
      && qa + 1 < |g.ts| && IsPunct(g.ts[qa], Question)
      && Fits(g, e.a, 0, qa + 1, count + Size(e.c), depth + 1)
    ensures var qb := End(e.a, 0, End(e.c, 1, pos) + 1);
      && qb + 1 < |g.ts| && IsPunct(g.ts[qb], Colon)
      && Fits(g, e.b, 0, qb + 1, count + Size(e.c) + Size(e.a), depth + 1)
      && End(e.b, 0, qb + 1) == End(e, 0, pos)
  {
    hide Print, Body, Need, NeedBody, At, WellFormed, Size;
    var pc, pa, pb := Print(e.c, 1), Print(e.a, 0), Print(e.b, 0);
    CondParts(e, g.table);
    AtInfix(g, pos, pc + [PunctTok(Question)] + pa, PunctTok(Colon), pb);
    AtInfix(g, pos, pc, PunctTok(Question), pa);
  }

  lemma CondParts(e: Expr, table: set<string>)
    requires e.Cond? && WellFormed(e, table)
    ensures Print(e, 0) == Print(e.c, 1) + [PunctTok(Question)] + Print(e.a, 0) + [PunctTok(Colon)] + Print(e.b, 0)
    ensures Need(e, 0) == Max(Need(e.c, 1), 1 + Max(Need(e.a, 0), Need(e.b, 0)))
    ensures WellFormed(e.c, table) && WellFormed(e.a, table) && WellFormed(e.b, table)
    ensures Size(e) == 1 + Size(e.c) + Size(e.a) + Size(e.b)
  {
    assert Print(e, 0) == Body(e);
  }

  lemma BinFits(g: Input, e: Expr, pos: nat, count: nat, depth: nat)
    requires e.Bin? && Fits(g, e, OpLevel(e.op), pos, count, depth)
    ensures Fits(g, e.l, OpLevel(e.op), pos, count, depth)
    ensures var q := End(e.l, OpLevel(e.op), pos);
      && q + 1 < |g.ts| && IsPunct(g.ts[q], OpPunct(e.op))
      && Fits(g, e.r, OpLevel(e.op) + 1, q + 1, count + Size(e.l), depth)
      && End(e.r, OpLevel(e.op) + 1, q + 1) == End(e, OpLevel(e.op), pos)
  {
    var Bin(op, l, r) := e;
    var level := OpLevel(op);
    var pl, pr := Print(l, level), Print(r, level + 1);
    assert Print(e, level) == Body(e) == pl + [PunctTok(OpPunct(op))] + pr;
    assert Need(e, level) == NeedBody(e) == Max(Need(l, level), Need(r, level + 1));
    hide Print, Body, Need, NeedBody, At;
    AtInfix(g, pos, pl, PunctTok(OpPunct(op)), pr);
  }

  lemma LeafFits(g: Input, e: Expr, pos: nat, count: nat, depth: nat)
    requires (e.Lit? || e.Root?) && Fits(g, e, 8, pos, count, depth)
    ensures End(e, 8, pos) == pos + 1 && Valid(g, pos + 1)
    ensures g.ts[pos] == if e.Lit? then LiteralToken(e.v) else RootTok(e.name)
  {
    assert Body(e) == if e.Lit? then [LiteralToken(e.v)] else [RootTok(e.name)];
    assert g.ts[pos] == g.ts[pos..pos + 1][0];
  }

  lemma MemberFits(g: Input, e: Expr, pos: nat, count: nat, depth: nat)
    requires e.Member? && Fits(g, e, 8, pos, count, depth)
    ensures Fits(g, e.on, 8, pos, count, depth)
    ensures var q := End(e.on, 8, pos);
      q + 2 == End(e, 8, pos) && Valid(g, q + 2) && IsPunct(g.ts[q], Dot) && g.ts[q + 1] == IdentTok(e.key)
  {
    assert NeedBody(e) == Need(e.on, 8);
    assert Body(e) == Print(e.on, 8) + [PunctTok(Dot), IdentTok(e.key)];
    AtParts(g, pos, Print(e.on, 8), [PunctTok(Dot), IdentTok(e.key)]);
    var q := End(e.on, 8, pos);
    assert g.ts[q + 1] == g.ts[q..q + 2][1];
  }

  lemma IndexFits(g: Input, e: Expr, pos: nat, count: nat, depth: nat)
    requires e.Index? && Fits(g, e, 8, pos, count, depth)
    ensures Fits(g, e.on, 8, pos, count, depth)
    ensures var q := End(e.on, 8, pos);
      && q + 1 < |g.ts| && IsPunct(g.ts[q], LBracket)
      && Fits(g, e.idx, 0, q + 1, count + Size(e.on), depth + 1)
      && var q' := End(e.idx, 0, q + 1);
      q' + 1 == End(e, 8, pos) < |g.ts| && IsPunct(g.ts[q'], RBracket)
  {
    hide Print, Body, Need, NeedBody, WellFormed, At, Size;
    IndexParts(e, g.table);
    var po, pi := Print(e.on, 8), Print(e.idx, 0);
    AtParts(g, pos, po + [PunctTok(LBracket)] + pi, [PunctTok(RBracket)]);
    AtInfix(g, pos, po, PunctTok(LBracket), pi);
    AtIsInside(g, pos, Print(e, 8));
  }

  lemma AtIsInside(g: Input, pos: nat, p: seq<Token>)
    requires At(g, pos, p)
    ensures pos + |p| < |g.ts|
  {
  }

  lemma IndexParts(e: Expr, table: set<string>)
    requires e.Index? && WellFormed(e, table)
    ensures Print(e, 8) == Print(e.on, 8) + [PunctTok(LBracket)] + Print(e.idx, 0) + [PunctTok(RBracket)]
    ensures Need(e, 8) == Max(Need(e.on, 8), 1 + Need(e.idx, 0))
    ensures WellFormed(e.on, table) && WellFormed(e.idx, table) && !IsStringLiteral(e.idx)
    ensures Size(e) == 1 + Size(e.on) + Size(e.idx)
  {
    assert Print(e, 8) == Body(e);
  }

  /** As `Fits`, for an argument list. */
  ghost predicate ArgsFit(g: Input, args: seq<Expr>, pos: nat, count: nat, depth: nat) {
    && Valid(g, pos)
    && At(g, pos, PrintArgs(args))
    && (forall i | 0 <= i < |args| :: WellFormed(args[i], g.table))
    && count + SizeAll(args) <= MAX_AST_NODES
    && depth + NeedArgs(args) <= MAX_DEPTH
  }

  lemma CallFits(g: Input, e: Expr, pos: nat, count: nat, depth: nat)
    requires e.Call? && Fits(g, e, 8, pos, count, depth)
    ensures pos + 2 < |g.ts| && g.ts[pos] == IdentTok(e.fn) && IsPunct(g.ts[pos + 1], LParen)
    ensures ArgsFit(g, e.args, pos + 2, count, depth)
    ensures var q := pos + 2 + |PrintArgs(e.args)|; IsPunct(g.ts[q], RParen) && q + 1 == End(e, 8, pos)
  {
    var Call(fn, args) := e;
    var head := [IdentTok(fn), PunctTok(LParen)];
    hide Print, Body, PrintArgs, Need, NeedBody, NeedArgs, WellFormed, At, Size, SizeAll;
    CallParts(e, g.table);
    AtIsInside(g, pos, Print(e, 8));
    AtParts(g, pos, head, PrintArgs(args) + [PunctTok(RParen)]);
    assert g.ts[pos] == g.ts[pos..pos + 2][0] && g.ts[pos + 1] == g.ts[pos..pos + 2][1];
    AtParts(g, pos + 2, PrintArgs(args), [PunctTok(RParen)]);
  }

  lemma CallParts(e: Expr, table: set<string>)
    requires e.Call? && WellFormed(e, table)
    ensures Print(e, 8) == [IdentTok(e.fn), PunctTok(LParen)] + (PrintArgs(e.args) + [PunctTok(RParen)])
    ensures Need(e, 8) == NeedArgs(e.args) && Size(e) == 1 + SizeAll(e.args)
    ensures e.fn in table && !IsKeyword(e.fn) && forall i | 0 <= i < |e.args| :: WellFormed(e.args[i], table)
  {
    assert Print(e, 8) == Body(e);
  }

  lemma LastArgFits(g: Input, args: seq<Expr>, pos: nat, count: nat, depth: nat)
    requires |args| > 1 && ArgsFit(g, args, pos, count, depth)
    ensures var init, last := args[..|args| - 1], args[|args| - 1];
      && ArgsFit(g, init, pos, count, depth)
      && var q := pos + |PrintArgs(init)|;
      && q + 1 < |g.ts| && IsPunct(g.ts[q], Comma)
      && Fits(g, last, 0, q + 1, count + SizeAll(init), depth + 1)
      && End(last, 0, q + 1) == pos + |PrintArgs(args)|
  {
    var init, last := args[..|args| - 1], args[|args| - 1];
    var pi, pl := PrintArgs(init), Print(last, 0);
    assert PrintArgs(args) == pi + [PunctTok(Comma)] + pl;
    assert NeedArgs(args) == Max(NeedArgs(init), 1 + Need(last, 0));
    AtInfix(g, pos, pi, PunctTok(Comma), pl);
  }

  /** Where no parentheses are printed, the level does not matter. */
  lemma BareFits(g: Input, e: Expr, level: nat, other: nat, pos: nat, count: nat, depth: nat)
    requires level <= Prec(e) && other <= Prec(e) && Fits(g, e, level, pos, count, depth)
    ensures Fits(g, e, other, pos, count, depth) && End(e, other, pos) == End(e, level, pos)
  {
    assert Print(e, level) == Print(e, other) && Need(e, level) == Need(e, other);
  }

  lemma ParenFits(g: Input, e: Expr, level: nat, pos: nat, count: nat, depth: nat)
    requires Prec(e) < level && Fits(g, e, level, pos, count, depth)
    ensures IsPunct(g.ts[pos], LParen) && Fits(g, e, 0, pos + 1, count, depth + 1)
    ensures var q := End(e, 0, pos + 1); q + 1 == End(e, level, pos) < |g.ts| && IsPunct(g.ts[q], RParen)
  {
    hide Print, Body, Need, NeedBody, WellFormed, Size;
    var inner := Print(e, 0);
    ParenParts(e, level);
    AtIsInside(g, pos, Print(e, level));
    AtParts(g, pos, [PunctTok(LParen)], inner + [PunctTok(RParen)]);
    AtParts(g, pos + 1, inner, [PunctTok(RParen)]);
  }

  lemma ParenParts(e: Expr, level: nat)
    requires Prec(e) < level
    ensures Print(e, level) == [PunctTok(LParen)] + (Print(e, 0) + [PunctTok(RParen)])
    ensures Need(e, level) == 1 + Need(e, 0)
  {
  }

  /** A printed phrase is a spelling. */
  lemma {:induction false} PrintIsSpelled(g: Input, e: Expr, level: nat, pos: nat, count: nat, depth: nat)
    requires level <= 8 && Fits(g, e, level, pos, count, depth)
    ensures Spelled(g, e, level, pos, End(e, level, pos), depth)
    decreases e, 2, if Prec(e) < level then 1 else 0
  {
    hide Print, Body, Need, NeedBody, WellFormed, Size, Spelled, At;
    if Prec(e) < level {
      ParenFits(g, e, level, pos, count, depth);
      PrintIsSpelled(g, e, 0, pos + 1, count, depth + 1);
      ParensSpelled(g, e, pos, End(e, level, pos), depth);
      Loosened(g, e, 8, level, pos, End(e, level, pos), depth);
    } else {
      BareFits(g, e, level, Prec(e), pos, count, depth);
      BareIsSpelled(g, e, pos, count, depth);
      Loosened(g, e, Prec(e), level, pos, End(e, level, pos), depth);
    }
  }

  lemma {:induction false} BareIsSpelled(g: Input, e: Expr, pos: nat, count: nat, depth: nat)
    requires Fits(g, e, Prec(e), pos, count, depth)
    ensures Spelled(g, e, Prec(e), pos, End(e, Prec(e), pos), depth)
    decreases e, 1
  {
    hide Print, Body, Need, NeedBody, WellFormed, Size, Spelled, At, ArgsSpelled, OneToken, Fits;
    match e
    case Lit(_) => LeafIsSpelled(g, e, pos, count, depth);
    case Root(_) => LeafIsSpelled(g, e, pos, count, depth);
    case Member(on, _) =>
      MemberFits(g, e, pos, count, depth);
      PrintIsSpelled(g, on, 8, pos, count, depth);
      FitsDepth(g, e, 8, pos, count, depth);
      MemberSpelled(g, e, pos, End(e, 8, pos), depth);
    case Index(_, _) => IndexPrintIsSpelled(g, e, pos, count, depth);
    case Unary(_, on) =>
      UnaryFits(g, e, pos, count, depth);
      PrintIsSpelled(g, on, 7, pos + 1, count, depth + 1);
      FitsDepth(g, on, 7, pos + 1, count, depth + 1);
      UnarySpelled(g, e, pos, End(e, 7, pos), depth);
    case Bin(_, _, _) => BinPrintIsSpelled(g, e, pos, count, depth);
    case Cond(_, _, _) => CondPrintIsSpelled(g, e, pos, count, depth);
    case Call(_, args) =>
      CallFits(g, e, pos, count, depth);
      ArgsPrintSpelled(g, args, pos + 2, count, depth);
      FitsDepth(g, e, 8, pos, count, depth);
      CallNames(g, e, pos, count, depth);
      CallSpelled(g, e, pos, End(e, 8, pos), depth);
  }

  lemma FitsDepth(g: Input, e: Expr, level: nat, pos: nat, count: nat, depth: nat)
    requires Fits(g, e, level, pos, count, depth)
    ensures depth <= MAX_DEPTH && pos < End(e, level, pos) < |g.ts|
  {
  }

  lemma CallNames(g: Input, e: Expr, pos: nat, count: nat, depth: nat)
    requires e.Call? && Fits(g, e, 8, pos, count, depth)
    ensures e.fn in g.table && !IsKeyword(e.fn)
  {
  }

  lemma LeafIsSpelled(g: Input, e: Expr, pos: nat, count: nat, depth: nat)
    requires (e.Lit? || e.Root?) && Fits(g, e, 8, pos, count, depth)
    ensures Spelled(g, e, 8, pos, End(e, 8, pos), depth)
  {
    hide Spelled;
    LeafFits(g, e, pos, count, depth);
    LeafSpelled(g, e, pos, depth);
  }

  lemma {:induction false} IndexPrintIsSpelled(g: Input, e: Expr, pos: nat, count: nat, depth: nat)
    requires e.Index? && Fits(g, e, 8, pos, count, depth)
    ensures Spelled(g, e, 8, pos, End(e, 8, pos), depth)
    decreases e, 0
  {
    hide Print, Body, Need, NeedBody, WellFormed, Size, Spelled, At, Fits;
    IndexFits(g, e, pos, count, depth);
    FitsDepth(g, e, 8, pos, count, depth);
    var q := End(e.on, 8, pos);
    PrintIsSpelled(g, e.on, 8, pos, count, depth);
    PrintIsSpelled(g, e.idx, 0, q + 1, count + Size(e.on), depth + 1);
    FitsDepth(g, e.on, 8, pos, count, depth);
    FitsDepth(g, e.idx, 0, q + 1, count + Size(e.on), depth + 1);
    NoTextIndex(g, e, pos, count, depth);
    IndexSpelled(g, e, pos, q, End(e, 8, pos), depth);
  }

  lemma NoTextIndex(g: Input, e: Expr, pos: nat, count: nat, depth: nat)
    requires e.Index? && Fits(g, e, 8, pos, count, depth)
    ensures !IsStringLiteral(e.idx)
  {
  }

  lemma {:induction false} BinPrintIsSpelled(g: Input, e: Expr, pos: nat, count: nat, depth: nat)
    requires e.Bin? && Fits(g, e, OpLevel(e.op), pos, count, depth)
    ensures Spelled(g, e, OpLevel(e.op), pos, End(e, OpLevel(e.op), pos), depth)
    decreases e, 0
  {
    hide Print, Body, Need, NeedBody, WellFormed, Size, Spelled, At, Fits, OpLevel, Class, Operator;
    var level := OpLevel(e.op);
    BinFits(g, e, pos, count, depth);
    FitsDepth(g, e, level, pos, count, depth);
    var q := End(e.l, level, pos);
    OpPunctClass(e.op);
    PrintIsSpelled(g, e.l, level, pos, count, depth);
    PrintIsSpelled(g, e.r, level + 1, q + 1, count + Size(e.l), depth);
    FitsDepth(g, e.l, level, pos, count, depth);
    FitsDepth(g, e.r, level + 1, q + 1, count + Size(e.l), depth);
    BinSpelled(g, e, level, pos, q, End(e, level, pos), depth);
  }

  lemma OpPunctClass(op: BinOp)
    ensures Class(PunctTok(OpPunct(op))) == OpLevel(op) > 0 && Operator(PunctTok(OpPunct(op))) == op
  {
  }

  lemma {:induction false} CondPrintIsSpelled(g: Input, e: Expr, pos: nat, count: nat, depth: nat)
    requires e.Cond? && Fits(g, e, 0, pos, count, depth)
    ensures Spelled(g, e, 0, pos, End(e, 0, pos), depth)
    decreases e, 0
  {
    hide Print, Body, Need, NeedBody, WellFormed, Size, Spelled, At, Fits;
    CondFits(g, e, pos, count, depth);
    FitsDepth(g, e, 0, pos, count, depth);
    var q := End(e.c, 1, pos);
    var r := End(e.a, 0, q + 1);
    PrintIsSpelled(g, e.c, 1, pos, count, depth);
    PrintIsSpelled(g, e.a, 0, q + 1, count + Size(e.c), depth + 1);
    PrintIsSpelled(g, e.b, 0, r + 1, count + Size(e.c) + Size(e.a), depth + 1);
    FitsDepth(g, e.c, 1, pos, count, depth);
    FitsDepth(g, e.a, 0, q + 1, count + Size(e.c), depth + 1);
    FitsDepth(g, e.b, 0, r + 1, count + Size(e.c) + Size(e.a), depth + 1);
    CondSpelled(g, e, pos, q, r, End(e, 0, pos), depth);
  }

  lemma {:induction false} ArgsPrintSpelled(g: Input, args: seq<Expr>, pos: nat, count: nat, depth: nat)
    requires ArgsFit(g, args, pos, count, depth)
    ensures ArgsSpelled(g, args, pos, pos + |PrintArgs(args)|, depth)
    decreases args, 3
  {
    hide Print, PrintArgs, Body, Need, NeedBody, NeedArgs, WellFormed, Size, Spelled, At, Fits;
    if args == [] {
      NoArgs(g, pos, count, depth);
    } else if |args| == 1 {
      OneArgFits(g, args, pos, count, depth);
      PrintIsSpelled(g, args[0], 0, pos, count, depth + 1);
    } else {
      var init, last := args[..|args| - 1], args[|args| - 1];
      LastArgFits(g, args, pos, count, depth);
      var q := pos + |PrintArgs(init)|;
      ArgsPrintSpelled(g, init, pos, count, depth);
      PrintIsSpelled(g, last, 0, q + 1, count + SizeAll(init), depth + 1);
      FitsDepth(g, last, 0, q + 1, count + SizeAll(init), depth + 1);
      ArgsForward(g, init, pos, q, depth);
      MoreArgsSpelled(g, args, pos, q, pos + |PrintArgs(args)|, depth);
    }
  }

  lemma NoArgs(g: Input, pos: nat, count: nat, depth: nat)
    requires ArgsFit(g, [], pos, count, depth)
    ensures ArgsSpelled(g, [], pos, pos + |PrintArgs([])|, depth)
  {
  }

  lemma OneArgFits(g: Input, args: seq<Expr>, pos: nat, count: nat, depth: nat)
    requires |args| == 1 && ArgsFit(g, args, pos, count, depth)
    ensures Fits(g, args[0], 0, pos, count, depth + 1) && End(args[0], 0, pos) == pos + |PrintArgs(args)|
  {
    assert args[..0] == [] && NeedArgs(args) == Max(NeedArgs([]), 1 + Need(args[0], 0));
  }

  /** Arguments take room. */
  lemma ArgsForward(g: Input, args: seq<Expr>, pos: nat, end: nat, depth: nat)
    requires args != [] && ArgsSpelled(g, args, pos, end, depth)
    ensures pos < end
  {
    if |args| == 1 { Unfolded(g, args[0], 0, pos, end, depth + 1); }
  }

  /** The parse of a printed phrase that the next token does not continue. */
  lemma ParsePrinted(g: Input, e: Expr, level: nat, pos: nat, count: nat, depth: nat)
    requires level <= 8 && Fits(g, e, level, pos, count, depth)
    requires Stops(g.ts[End(e, level, pos)], level)
    ensures Parse(g, pos, count, depth, level) == Done(e, End(e, level, pos), count + Size(e))
  {
    hide Spelled, Parse, WellFormed, Need, NeedBody, Print, Body, Size, Stops;
    PrintIsSpelled(g, e, level, pos, count, depth);
    SpelledIsRead(g, e, level, pos, End(e, level, pos), count, depth);
  }

  // ------------------------------------------------------------ main results

  function Spelling(e: Expr): seq<Token> {
    Print(e, 0) + [EofTok]
  }

  /** A tree within the limits is what its own spelling parses to. */
  lemma SpellingParses(e: Expr, table: set<string>)
    requires WellFormed(e, table) && Size(e) <= MAX_AST_NODES && Need(e, 0) <= MAX_DEPTH
    ensures Program(Input(Spelling(e), table)) == Done(e, |Print(e, 0)|, Size(e))
  {
    var g := Input(Spelling(e), table);
    assert g.ts[0..|Print(e, 0)|] == Print(e, 0);
    ParsePrinted(g, e, 0, 0, 0, 0);
  }

  /**
   * Whatever the parser accepts, it accepts again in its canonical spelling: the
   * same tree, the same node count, no limit newly exceeded. No accepted spelling
   * of the tree is shorter.
   */
  lemma ReparseIsIdentity(g: Input)
    requires Valid(g, 0) && Program(g).Done?
    ensures var e := Program(g).value;
      && Program(Input(Spelling(e), g.table)).Done?
      && Program(Input(Spelling(e), g.table)).value == e
      && Program(Input(Spelling(e), g.table)).count == Program(g).count
      && |Spelling(e)| <= |g.ts|
  {
    SpellingParses(Program(g).value, g.table);
  }

  /** The limits of the parser are exactly limits of the tree, not of how it is written. */
  lemma AcceptedTrees(e: Expr, table: set<string>)
    ensures (exists ts: seq<Token> ::
        Valid(Input(ts, table), 0) && Program(Input(ts, table)).Done? && Program(Input(ts, table)).value == e)
      <==> (WellFormed(e, table) && Size(e) <= MAX_AST_NODES && Need(e, 0) <= MAX_DEPTH)
  {
    if WellFormed(e, table) && Size(e) <= MAX_AST_NODES && Need(e, 0) <= MAX_DEPTH {
      SpellingParses(e, table);
      assert Valid(Input(Spelling(e), table), 0);
    }
  }

  /** Two trees with one spelling are one tree. */
  lemma SpellingInjective(e: Expr, f: Expr, table: set<string>)
    requires WellFormed(e, table) && Size(e) <= MAX_AST_NODES && Need(e, 0) <= MAX_DEPTH
    requires WellFormed(f, table) && Size(f) <= MAX_AST_NODES && Need(f, 0) <= MAX_DEPTH
    requires Print(e, 0) == Print(f, 0)
    ensures e == f
  {
    SpellingParses(e, table);
    SpellingParses(f, table);
  }
}
