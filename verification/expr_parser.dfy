/** The recursive-descent parser object, proved to compute the grammar of `ExprGrammar`. */
module ExprParser {
  import opened ExprAst
  import opened ExprGrammar

  datatype Outcome<+T> = Parsed(value: T) | Refused(error: ParseError)

  lemma NeedOfIndex(on: Expr, idx: Expr)
    ensures Need(Index(on, idx), 8) == Max(Need(on, 8), 1 + Need(idx, 0))
  {
    assert NeedBody(Index(on, idx)) == Max(Need(on, 8), 1 + Need(idx, 0));
  }

  lemma NeedOfBin(op: BinOp, l: Expr, r: Expr)
    ensures var level := OpLevel(op); Need(Bin(op, l, r), level) == Max(Need(l, level), Need(r, level + 1))
  {
    assert NeedBody(Bin(op, l, r)) == Max(Need(l, OpLevel(op)), Need(r, OpLevel(op) + 1));
  }

  class Parser {
    const tokens: seq<Token>
    const functionNames: set<string>
    var pos: nat
    var nodeCount: nat

    constructor (tokens: seq<Token>, functionNames: set<string>)
      ensures this.tokens == tokens && this.functionNames == functionNames
      ensures pos == 0 && nodeCount == 0
    {
      this.tokens, this.functionNames := tokens, functionNames;
      pos, nodeCount := 0, 0;
    }

    /** What the parser reads: its tokens and the names of the closed function table. */
    function Reads(): Input {
      Input(tokens, functionNames)
    }

    ghost predicate Ready(depth: nat)
      reads this`pos, this`nodeCount
    {
      ExprGrammar.Valid(Reads(), pos) && nodeCount <= MAX_AST_NODES && depth <= MAX_DEPTH
    }

    /** The outcome `r`, and where the parser now stands, are those of `spec`. */
    ghost predicate Agrees<T(!new)>(spec: ExprGrammar.Parsed<T>, r: Outcome<T>)
      reads this`pos, this`nodeCount
    {
      match spec
      case Fail(e) => r == Refused(e)
      case Done(v, p, n) => r == Parsed(v) && pos == p && nodeCount == n
    }

    method MakeNode(e: Expr) returns (r: Outcome<Expr>)
      modifies this`nodeCount
      ensures Agrees(ExprGrammar.Node(e, pos, old(nodeCount)), r)
    {
      nodeCount := nodeCount + 1;
      if nodeCount > MAX_AST_NODES { return Refused(TooManyNodes); }
      return Parsed(e);
    }

    method ParseProgram() returns (r: Outcome<Expr>)
      requires Ready(0) && pos == 0 && nodeCount == 0
      modifies this
      ensures Agrees(Program(Reads()), r)
    {
      r := ParseExpr(0);
      if r.Parsed? && tokens[pos] != EofTok { r := Refused(UnexpectedToken); }
    }

    method ParseExpr(depth: nat) returns (r: Outcome<Expr>)
      requires ExprGrammar.Valid(Reads(), pos) && nodeCount <= MAX_AST_NODES && depth <= MAX_DEPTH + 1
      modifies this
      ensures Agrees(Parse(Reads(), old(pos), old(nodeCount), depth, 0), r)
      decreases |tokens| - pos, 10
    {
      if depth > MAX_DEPTH { return Refused(TooDeep); }
      r := ParseTernary(depth);
    }

    method ParseTernary(depth: nat) returns (r: Outcome<Expr>)
      requires Ready(depth)
      modifies this
      ensures Agrees(Parse(Reads(), old(pos), old(nodeCount), depth, 0), r)
      decreases |tokens| - pos, 9
    {
      hide Print, Body, Size, Need, NeedBody, WellFormed;
      var c := ParseBinaryChain(depth, 1);
      if c.Refused? || tokens[pos] != PunctTok(Question) { return c; }
      pos := pos + 1;
      var a := ParseExpr(depth + 1);
      if a.Refused? { return a; }
      if tokens[pos] != PunctTok(Colon) { return Refused(Expected(Colon)); }
      pos := pos + 1;
      var b := ParseExpr(depth + 1);
      if b.Refused? { return b; }
      r := MakeNode(Cond(c.value, a.value, b.value));
    }

    /** The operand of a chain of `level`: the next tighter chain, or a prefix form. */
    method ParseOperand(depth: nat, level: nat) returns (r: Outcome<Expr>)
      requires Ready(depth) && 1 <= level <= 6
      modifies this
      ensures Agrees(Parse(Reads(), old(pos), old(nodeCount), depth, level + 1), r)
      decreases |tokens| - pos, 9 - level, 0
    {
      if level < 6 {
        r := ParseBinaryChain(depth, level + 1);
      } else {
        r := ParseUnary(depth);
      }
    }

    method ParseBinaryChain(depth: nat, level: nat) returns (r: Outcome<Expr>)
      requires Ready(depth) && 1 <= level <= 6
      modifies this
      ensures Agrees(Parse(Reads(), old(pos), old(nodeCount), depth, level), r)
      decreases |tokens| - pos, 9 - level, 1
    {
      var first := ParseOperand(depth, level);
      if first.Refused? { return first; }
      var l := first.value;
      while OpAtLevel(tokens[pos], level)
        invariant Ready(depth) && old(pos) < pos
        invariant WellFormed(l, functionNames) && depth + Need(l, level) <= MAX_DEPTH
        invariant Parse(Reads(), old(pos), old(nodeCount), depth, level)
               == ChainLoop(Reads(), pos, nodeCount, depth, level, l)
        decreases |tokens| - pos
      {
        hide Parse, ChainLoop, Need, WellFormed;
        var turn := ParseChainTurn(depth, level, l);
        if turn.Refused? { return turn; }
        l := turn.value;
      }
      return Parsed(l);
    }

    /** One operator and its right operand, in the chain that holds `l`. */
    method ParseChainTurn(depth: nat, level: nat, l: Expr) returns (r: Outcome<Expr>)
      requires Ready(depth) && 1 <= level <= 6 && OpAtLevel(tokens[pos], level)
      requires WellFormed(l, functionNames) && depth + Need(l, level) <= MAX_DEPTH
      modifies this
      ensures Chained(ChainLoop(Reads(), old(pos), old(nodeCount), depth, level, l), old(pos), depth, level, r)
      decreases |tokens| - pos, 9 - level, 1
    {
      hide Print, Body, Size, Need, NeedBody;
      var op := BinaryOp(tokens[pos]).op;
      pos := pos + 1;
      var operand := ParseOperand(depth, level);
      if operand.Refused? { return operand; }
      NeedOfBin(op, l, operand.value);
      r := MakeNode(Bin(op, l, operand.value));
    }

    /** A turn was read, or refused: either way the chain loop went one turn. */
    ghost predicate Chained(before: ExprGrammar.Parsed<Expr>, from: nat, depth: nat, level: nat, r: Outcome<Expr>)
      requires 1 <= level <= 6
      reads this`pos, this`nodeCount
    {
      match r
      case Refused(e) => before == Fail(e)
      case Parsed(e) =>
        && Ready(depth) && from < pos
        && WellFormed(e, functionNames) && depth + Need(e, level) <= MAX_DEPTH
        && before == ChainLoop(Reads(), pos, nodeCount, depth, level, e)
    }

    method ParseUnary(depth: nat) returns (r: Outcome<Expr>)
      requires Ready(depth)
      modifies this
      ensures Agrees(Parse(Reads(), old(pos), old(nodeCount), depth, 7), r)
      decreases |tokens| - pos, 2
    {
      var t := tokens[pos];
      if t == PunctTok(Bang) || t == PunctTok(Minus) {
        pos := pos + 1;
        if depth + 1 > MAX_DEPTH { return Refused(TooDeep); }
        r := ParseUnary(depth + 1);
        if r.Parsed? { r := MakeNode(Unary(if t == PunctTok(Bang) then Not else Neg, r.value)); }
      } else {
        r := ParsePostfix(depth);
      }
    }

    method ParsePostfix(depth: nat) returns (r: Outcome<Expr>)
      requires Ready(depth)
      modifies this
      ensures Agrees(Parse(Reads(), old(pos), old(nodeCount), depth, 8), r)
      decreases |tokens| - pos, 1
    {
      hide Print, Body, Size;
      r := ParsePrimary(depth);
      if r.Refused? { return; }
      while tokens[pos] == PunctTok(Dot) || tokens[pos] == PunctTok(LBracket)
        invariant r.Parsed? && Ready(depth) && old(pos) < pos
        invariant WellFormed(r.value, functionNames) && depth + Need(r.value, 8) <= MAX_DEPTH
        invariant Parse(Reads(), old(pos), old(nodeCount), depth, 8)
               == PostfixLoop(Reads(), pos, nodeCount, depth, r.value)
        decreases |tokens| - pos
      {
        if tokens[pos] == PunctTok(Dot) {
          r := ParseMemberSuffix(depth, r.value);
        } else {
          r := ParseIndexSuffix(depth, r.value);
        }
        if r.Refused? { return; }
      }
    }

    /** A suffix of `on` was read, or refused: either way the postfix loop went one turn. */
    ghost predicate Suffixed(before: ExprGrammar.Parsed<Expr>, from: nat, depth: nat, r: Outcome<Expr>)
      reads this`pos, this`nodeCount
    {
      match r
      case Refused(e) => before == Fail(e)
      case Parsed(e) =>
        && Ready(depth) && from < pos
        && WellFormed(e, functionNames) && depth + Need(e, 8) <= MAX_DEPTH
        && before == PostfixLoop(Reads(), pos, nodeCount, depth, e)
    }

    method ParseMemberSuffix(depth: nat, on: Expr) returns (r: Outcome<Expr>)
      requires Ready(depth) && tokens[pos] == PunctTok(Dot)
      requires WellFormed(on, functionNames) && depth + Need(on, 8) <= MAX_DEPTH
      modifies this
      ensures Suffixed(PostfixLoop(Reads(), old(pos), old(nodeCount), depth, on), old(pos), depth, r)
    {
      hide Print, Body, Size;
      if !tokens[pos + 1].IdentTok? { return Refused(ExpectedIdent); }
      var key := tokens[pos + 1].name;
      pos := pos + 2;
      assert NeedBody(Member(on, key)) == Need(on, 8);
      r := MakeNode(Member(on, key));
    }

    method ParseIndexSuffix(depth: nat, on: Expr) returns (r: Outcome<Expr>)
      requires Ready(depth) && tokens[pos] == PunctTok(LBracket)
      requires WellFormed(on, functionNames) && depth + Need(on, 8) <= MAX_DEPTH
      modifies this
      ensures Suffixed(PostfixLoop(Reads(), old(pos), old(nodeCount), depth, on), old(pos), depth, r)
      decreases |tokens| - pos, 0
    {
      hide Print, Body, Size, Need, NeedBody, Parse;
      pos := pos + 1;
      var idx := ParseExpr(depth + 1);
      if idx.Refused? { return idx; }
      if IsStringLiteral(idx.value) { return Refused(StringLiteralIndex); }
      if tokens[pos] != PunctTok(RBracket) { return Refused(Expected(RBracket)); }
      pos := pos + 1;
      NeedOfIndex(on, idx.value);
      r := MakeNode(Index(on, idx.value));
    }

    method ParsePrimary(depth: nat) returns (r: Outcome<Expr>)
      requires Ready(depth)
      modifies this
      ensures Agrees(Primary(Reads(), old(pos), old(nodeCount), depth), r)
      decreases |tokens| - pos, 0
    {
      match tokens[pos]
      case NumTok(n) => pos := pos + 1; r := MakeNode(Lit(NumLit(n)));
      case StrTok(s) => pos := pos + 1; r := MakeNode(Lit(StrLit(s)));
      case RootTok(name) => pos := pos + 1; r := MakeNode(Root(name));
      case IdentTok(name) =>
        if IsKeyword(name) {
          pos := pos + 1;
          r := MakeNode(Lit(KeywordLiteral(name)));
        } else if tokens[pos + 1] == PunctTok(LParen) {
          if name !in functionNames { return Refused(UnknownFunction); }
          pos := pos + 2;
          var args := ParseArguments(depth);
          if args.Refused? { return Refused(args.error); }
          if tokens[pos] != PunctTok(RParen) { return Refused(Expected(RParen)); }
          pos := pos + 1;
          r := MakeNode(Call(name, args.value));
        } else {
          return Refused(BareIdentifier);
        }
      case PunctTok(p) =>
        if p != LParen { return Refused(UnexpectedToken); }
        pos := pos + 1;
        r := ParseExpr(depth + 1);
        if r.Refused? { return; }
        if tokens[pos] != PunctTok(RParen) { return Refused(Expected(RParen)); }
        pos := pos + 1;
      case EofTok => return Refused(UnexpectedToken);
    }

    /** The arguments of a call, up to its closing parenthesis. */
    method ParseArguments(depth: nat) returns (r: Outcome<seq<Expr>>)
      requires Ready(depth)
      modifies this
      ensures Agrees(Arguments(Reads(), old(pos), old(nodeCount), depth), r)
      decreases |tokens| - pos, 20
    {
      hide Print, Body, PrintArgs, Size;
      if tokens[pos] == PunctTok(RParen) { return Parsed([]); }
      var first := ParseExpr(depth + 1);
      if first.Refused? { return Refused(first.error); }
      var args := [first.value];
      while tokens[pos] == PunctTok(Comma)
        invariant Ready(depth) && old(pos) < pos && args != []
        invariant forall i | 0 <= i < |args| :: WellFormed(args[i], functionNames)
        invariant depth + NeedArgs(args) <= MAX_DEPTH
        invariant Arguments(Reads(), old(pos), old(nodeCount), depth)
               == ArgLoop(Reads(), pos, nodeCount, depth, args)
        decreases |tokens| - pos
      {
        hide Arguments, ArgLoop, NeedArgs;
        var turn := ParseArgumentTurn(depth, args);
        if turn.Refused? { return turn; }
        args := turn.value;
      }
      return Parsed(args);
    }

    /** A comma and the argument behind it, in the list that holds `args`. */
    method ParseArgumentTurn(depth: nat, args: seq<Expr>) returns (r: Outcome<seq<Expr>>)
      requires Ready(depth) && tokens[pos] == PunctTok(Comma) && args != []
      requires forall i | 0 <= i < |args| :: WellFormed(args[i], functionNames)
      requires depth + NeedArgs(args) <= MAX_DEPTH
      modifies this
      ensures Listed(ArgLoop(Reads(), old(pos), old(nodeCount), depth, args), old(pos), depth, r)
      decreases |tokens| - pos, 20
    {
      hide Print, Body, PrintArgs, Size, Need, WellFormed, Parse;
      pos := pos + 1;
      var next := ParseExpr(depth + 1);
      if next.Refused? { return Refused(next.error); }
      r := Parsed(args + [next.value]);
      assert (args + [next.value])[..|args|] == args;
    }

    /** A turn was read, or refused: either way the argument loop went one turn. */
    ghost predicate Listed(before: ExprGrammar.Parsed<seq<Expr>>, from: nat, depth: nat, r: Outcome<seq<Expr>>)
      reads this`pos, this`nodeCount
    {
      match r
      case Refused(e) => before == Fail(e)
      case Parsed(args) =>
        && Ready(depth) && from < pos && args != []
        && (forall i | 0 <= i < |args| :: WellFormed(args[i], functionNames)) && depth + NeedArgs(args) <= MAX_DEPTH
        && before == ArgLoop(Reads(), pos, nodeCount, depth, args)
    }
  }
}
