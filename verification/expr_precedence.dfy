/** Precedence and association: what becomes of operands with binary operators between them. */
module ExprPrecedence {
  import opened ExprAst
  import opened ExprGrammar
  import opened ExprLanguage

  predicate Operators(ops: seq<Token>) {
    forall i | 0 <= i < |ops| :: Class(ops[i]) > 0
  }

  /** `k` is the rightmost operator of the loosest class there is. */
  predicate RightmostLoosest(ops: seq<Token>, k: nat) {
    && k < |ops|
    && (forall i | 0 <= i < |ops| :: Class(ops[k]) <= Class(ops[i]))
    && (forall i | k < i < |ops| :: Class(ops[k]) < Class(ops[i]))
  }

  function Loosest(ops: seq<Token>): (k: nat)
    requires ops != []
    ensures RightmostLoosest(ops, k)
  {
    var n := |ops| - 1;
    if n == 0 then 0 else
    var k := Loosest(ops[..n]);
    assert forall i | 0 <= i < n :: ops[i] == ops[..n][i];
    if Class(ops[n]) <= Class(ops[k]) then n else k
  }

  /** Operands joined by operators as one tree: split at the rightmost operator of the loosest class. */
  function Tree(es: seq<Expr>, ops: seq<Token>): Expr
    requires |es| == |ops| + 1 && Operators(ops)
    decreases |ops|
  {
    if ops == [] then es[0] else
    var k := Loosest(ops);
    Bin(Operator(ops[k]), Tree(es[..k + 1], ops[..k]), Tree(es[k + 1..], ops[k + 1..]))
  }

  /** The split is where the definition says, and nowhere else. */
  lemma RootIsLoosest(es: seq<Expr>, ops: seq<Token>, k: nat)
    requires |es| == |ops| + 1 && Operators(ops) && RightmostLoosest(ops, k)
    ensures Tree(es, ops) == Bin(Operator(ops[k]), Tree(es[..k + 1], ops[..k]), Tree(es[k + 1..], ops[k + 1..]))
  {
    var j := Loosest(ops);
    assert j == k;
  }

  /** `a f b g c`: the tighter operator holds the middle operand, the left one if they are of one class. */
  lemma ThreeOperands(a: Expr, b: Expr, c: Expr, f: Token, g: Token)
    requires Class(f) > 0 && Class(g) > 0
    ensures Tree([a, b, c], [f, g]) ==
      if Class(f) < Class(g) then Bin(Operator(f), a, Bin(Operator(g), b, c))
      else Bin(Operator(g), Bin(Operator(f), a, b), c)
  {
    hide Class, Operator;
    var es, ops := [a, b, c], [f, g];
    if Class(f) < Class(g) {
      RootIsLoosest(es, ops, 0);
      assert es[..1] == [a] && ops[..0] == [] && es[1..] == [b, c] && ops[1..] == [g];
      TwoOperands(b, c, g);
    } else {
      RootIsLoosest(es, ops, 1);
      assert es[..2] == [a, b] && ops[..1] == [f] && es[2..] == [c] && ops[2..] == [];
      TwoOperands(a, b, f);
    }
  }

  lemma TwoOperands(a: Expr, b: Expr, f: Token)
    requires Class(f) > 0
    ensures Tree([a, b], [f]) == Bin(Operator(f), a, b)
  {
    hide Class, Operator;
    RootIsLoosest([a, b], [f], 0);
    assert [a, b][..1] == [a] && [f][..0] == [] && [a, b][1..] == [b] && [f][1..] == [];
  }

  /** The tokens from `pos` to `end` are the operands `es`, prefix forms or tighter, with the operators `ops` between them. */
  ghost predicate Joined(g: Input, es: seq<Expr>, ops: seq<Token>, pos: nat, end: nat, depth: nat)
    decreases |ops|
  {
    && |es| == |ops| + 1
    && if ops == [] then Spelled(g, es[0], 7, pos, end, depth) else exists q: nat :: JoinedAt(g, es, ops, pos, q, end, depth)
  }

  ghost predicate JoinedAt(g: Input, es: seq<Expr>, ops: seq<Token>, pos: nat, q: nat, end: nat, depth: nat)
    requires |es| == |ops| + 1 && ops != []
    decreases |ops|, 0
  {
    && pos < q && q + 1 < end < |g.ts| && g.ts[q] == ops[0] && Class(ops[0]) > 0
    && Spelled(g, es[0], 7, pos, q, depth) && Joined(g, es[1..], ops[1..], q + 1, end, depth)
  }

  lemma {:induction false} JoinedOperators(g: Input, es: seq<Expr>, ops: seq<Token>, pos: nat, end: nat, depth: nat)
    requires Joined(g, es, ops, pos, end, depth)
    ensures Operators(ops) && pos < end < |g.ts| && depth <= MAX_DEPTH
    decreases |ops|
  {
    hide Spelled, Class;
    if ops == [] {
      Unfolded(g, es[0], 7, pos, end, depth);
    } else {
      var q: nat :| JoinedAt(g, es, ops, pos, q, end, depth);
      Unfolded(g, es[0], 7, pos, q, depth);
      JoinedOperators(g, es[1..], ops[1..], q + 1, end, depth);
      assert forall i | 0 < i < |ops| :: ops[i] == ops[1..][i - 1];
    }
  }

  /** Joined operands can be cut at any operator. */
  lemma {:induction false} CutAt(g: Input, es: seq<Expr>, ops: seq<Token>, pos: nat, end: nat, depth: nat, k: nat) returns (q: nat)
    requires Joined(g, es, ops, pos, end, depth) && k < |ops|
    ensures pos < q && q + 1 < end < |g.ts| && g.ts[q] == ops[k]
    ensures Joined(g, es[..k + 1], ops[..k], pos, q, depth) && Joined(g, es[k + 1..], ops[k + 1..], q + 1, end, depth)
    decreases |ops|
  {
    hide Spelled, Class;
    q :| JoinedAt(g, es, ops, pos, q, end, depth);
    if k == 0 {
      assert es[..1] == [es[0]] && ops[..0] == [];
    } else {
      var p := q;
      q := CutAt(g, es[1..], ops[1..], p + 1, end, depth, k - 1);
      assert es[1..][..k] == es[..k + 1][1..] && ops[1..][..k - 1] == ops[..k][1..];
      assert es[1..][k..] == es[k + 1..] && ops[1..][k..] == ops[k + 1..];
      assert JoinedAt(g, es[..k + 1], ops[..k], pos, p, q, depth);
    }
  }

  /** Two runs of operands with an operator between them are one run. */
  lemma {:induction false} Rejoined(g: Input, es: seq<Expr>, ops: seq<Token>, pos: nat, q: nat, fs: seq<Expr>, os: seq<Token>, end: nat, depth: nat)
    requires Joined(g, es, ops, pos, q, depth) && q + 1 < end < |g.ts| && Class(g.ts[q]) > 0 && Joined(g, fs, os, q + 1, end, depth)
    ensures Joined(g, es + fs, ops + [g.ts[q]] + os, pos, end, depth)
    decreases |ops|
  {
    hide Spelled, Class;
    JoinedOperators(g, es, ops, pos, q, depth);
    var all, between := es + fs, ops + [g.ts[q]] + os;
    if ops == [] {
      assert es == [es[0]] && all[1..] == fs && between[1..] == os;
      assert JoinedAt(g, all, between, pos, q, end, depth);
    } else {
      var p: nat :| JoinedAt(g, es, ops, pos, p, q, depth);
      Rejoined(g, es[1..], ops[1..], p + 1, q, fs, os, end, depth);
      assert all[1..] == es[1..] + fs && between[1..] == ops[1..] + [g.ts[q]] + os;
      assert JoinedAt(g, all, between, pos, p, end, depth);
    }
  }

  /** The tree of joined operands is spelled by them, at any level that lets all the operators in. */
  lemma {:induction false} TreeIsSpelled(g: Input, es: seq<Expr>, ops: seq<Token>, pos: nat, end: nat, depth: nat, level: nat)
    requires Joined(g, es, ops, pos, end, depth) && level <= 7 && forall i | 0 <= i < |ops| :: level <= Class(ops[i])
    ensures Operators(ops) && Spelled(g, Tree(es, ops), level, pos, end, depth)
    decreases |ops|
  {
    hide Spelled, Class, Operator, Tree, Joined;
    JoinedOperators(g, es, ops, pos, end, depth);
    Lengths(g, es, ops, pos, end, depth);
    if ops == [] {
      OneOperand(g, es, pos, end, depth);
      Loosened(g, es[0], 7, level, pos, end, depth);
    } else {
      var k := Loosest(ops);
      var q := CutAt(g, es, ops, pos, end, depth, k);
      ClassAtMostSix(ops[k]);
      TreeIsSpelled(g, es[..k + 1], ops[..k], pos, q, depth, Class(ops[k]));
      TreeIsSpelled(g, es[k + 1..], ops[k + 1..], q + 1, end, depth, Class(ops[k]) + 1);
      RootIsLoosest(es, ops, k);
      SplitSpelled(g, Tree(es, ops), level, pos, q, end, depth);
    }
  }

  lemma OneOperand(g: Input, es: seq<Expr>, pos: nat, end: nat, depth: nat)
    requires Joined(g, es, [], pos, end, depth)
    ensures |es| == 1 && Spelled(g, es[0], 7, pos, end, depth) && Tree(es, []) == es[0]
  {
  }

  lemma SplitSpelled(g: Input, e: Expr, level: nat, pos: nat, q: nat, end: nat, depth: nat)
    requires e.Bin? && pos < q && q + 1 < end < |g.ts| && depth <= MAX_DEPTH
    requires Class(g.ts[q]) > 0 && level <= Class(g.ts[q]) && e.op == Operator(g.ts[q])
    requires Spelled(g, e.l, Class(g.ts[q]), pos, q, depth) && Spelled(g, e.r, Class(g.ts[q]) + 1, q + 1, end, depth)
    ensures Spelled(g, e, level, pos, end, depth)
  {
    hide Spelled, Class, Operator;
    BinSpelled(g, e, level, pos, q, end, depth);
  }

  lemma ClassAtMostSix(t: Token)
    ensures Class(t) <= 6
  {
  }

  /** `e` is the tree of the operands `es` and operators `ops` that the tokens join, no operator looser than `level`. */
  ghost predicate Splits(g: Input, e: Expr, level: nat, pos: nat, end: nat, depth: nat, es: seq<Expr>, ops: seq<Token>) {
    && Joined(g, es, ops, pos, end, depth) && Operators(ops) && e == Tree(es, ops)
    && forall i | 0 <= i < |ops| :: level <= Class(ops[i])
  }

  /** Every phrase without a bare ternary is joined operands, and their tree. */
  lemma {:induction false} PhraseIsJoined(g: Input, e: Expr, level: nat, pos: nat, end: nat, depth: nat)
    returns (es: seq<Expr>, ops: seq<Token>)
    requires 1 <= level <= 7 && Spelled(g, e, level, pos, end, depth)
    ensures Splits(g, e, level, pos, end, depth, es, ops)
    decreases end - pos
  {
    hide Spelled, Class, Operator, InParens, Bare, BinAt, Splits;
    Unfolded(g, e, level, pos, end, depth);
    if q: nat :| e.Bin? && BinAt(g, e, level, pos, q, end, depth) {
      BinUnfolds(g, e, level, pos, q, end, depth);
      var c := Class(g.ts[q]);
      var es1, ops1 := PhraseIsJoined(g, e.l, c, pos, q, depth);
      var es2, ops2 := PhraseIsJoined(g, e.r, c + 1, q + 1, end, depth);
      es, ops := es1 + es2, ops1 + [g.ts[q]] + ops2;
      BothSplit(g, e, level, pos, q, end, depth, es1, ops1, es2, ops2);
    } else {
      es, ops := [e], [];
      NoSplit(g, e, level, pos, end, depth);
    }
  }

  lemma BinUnfolds(g: Input, e: Expr, level: nat, pos: nat, q: nat, end: nat, depth: nat)
    requires e.Bin? && pos < end < |g.ts| && BinAt(g, e, level, pos, q, end, depth)
    ensures pos < q && q + 1 < end && 0 < Class(g.ts[q]) <= 6 && level <= Class(g.ts[q]) && e.op == Operator(g.ts[q])
    ensures Spelled(g, e.l, Class(g.ts[q]), pos, q, depth) && Spelled(g, e.r, Class(g.ts[q]) + 1, q + 1, end, depth)
  {
    hide Spelled;
  }

  /** Both sides split, so does the whole, and its root is the operator between them. */
  lemma BothSplit(g: Input, e: Expr, level: nat, pos: nat, q: nat, end: nat, depth: nat,
                  es1: seq<Expr>, ops1: seq<Token>, es2: seq<Expr>, ops2: seq<Token>)
    requires e.Bin? && q + 1 < end < |g.ts| && Class(g.ts[q]) > 0 && level <= Class(g.ts[q]) && e.op == Operator(g.ts[q])
    requires Splits(g, e.l, Class(g.ts[q]), pos, q, depth, es1, ops1)
    requires Splits(g, e.r, Class(g.ts[q]) + 1, q + 1, end, depth, es2, ops2)
    ensures Splits(g, e, level, pos, end, depth, es1 + es2, ops1 + [g.ts[q]] + ops2)
  {
    hide Joined, Class, Operator, Tree;
    var es, ops := es1 + es2, ops1 + [g.ts[q]] + ops2;
    Lengths(g, es1, ops1, pos, q, depth);
    Lengths(g, es2, ops2, q + 1, end, depth);
    Rejoined(g, es1, ops1, pos, q, es2, ops2, end, depth);
    JoinedOperators(g, es, ops, pos, end, depth);
    assert es[..|ops1| + 1] == es1 && ops[..|ops1|] == ops1 && es[|ops1| + 1..] == es2 && ops[|ops1| + 1..] == ops2;
    RootIsLoosest(es, ops, |ops1|);
  }

  lemma Lengths(g: Input, es: seq<Expr>, ops: seq<Token>, pos: nat, end: nat, depth: nat)
    requires Joined(g, es, ops, pos, end, depth)
    ensures |es| == |ops| + 1
  {
  }

  lemma NoSplit(g: Input, e: Expr, level: nat, pos: nat, end: nat, depth: nat)
    requires 1 <= level <= 7 && Spelled(g, e, level, pos, end, depth) && pos < end < |g.ts|
    requires e.Bin? ==> forall q: nat :: !BinAt(g, e, level, pos, q, end, depth)
    ensures Splits(g, e, level, pos, end, depth, [e], [])
  {
    hide InParens, IndexAt, CondAt, ArgsSpelled, BinAt;
    Unfolded(g, e, level, pos, end, depth);
    assert Spelled(g, e, 7, pos, end, depth);
  }

  /** The parser reads joined operands as their tree, wherever they stand, if the next token does not continue them. */
  lemma JoinedIsRead(g: Input, es: seq<Expr>, ops: seq<Token>, pos: nat, end: nat, count: nat, depth: nat)
    requires Valid(g, pos) && Joined(g, es, ops, pos, end, depth) && Operators(ops)
    requires count + Size(Tree(es, ops)) <= MAX_AST_NODES && end < |g.ts| && Stops(g.ts[end], 1)
    ensures depth <= MAX_DEPTH && Parse(g, pos, count, depth, 1) == Done(Tree(es, ops), end, count + Size(Tree(es, ops)))
  {
    hide Spelled, Class, Tree, Size, Parse;
    JoinedOperators(g, es, ops, pos, end, depth);
    TreeIsSpelled(g, es, ops, pos, end, depth, 1);
    SpelledIsRead(g, Tree(es, ops), 1, pos, end, count, depth);
  }

  /**
   * A program without a bare ternary is read as the tree of its operands: split at the
   * rightmost operator of the loosest class, and each part again.
   */
  lemma PrecedenceIff(g: Input, e: Expr, end: nat)
    requires Valid(g, 0)
    ensures Program(g) == Done(e, end, Size(e)) && Spelled(g, e, 1, 0, end, 0)
      <==> end < |g.ts| && g.ts[end] == EofTok && Size(e) <= MAX_AST_NODES
           && exists es, ops :: Splits(g, e, 1, 0, end, 0, es, ops)
  {
    hide Spelled, Class, Tree, Program, Joined;
    ProgramIff(g, e, end, Size(e));
    if Spelled(g, e, 1, 0, end, 0) {
      Unfolded(g, e, 1, 0, end, 0);
      Loosened(g, e, 1, 0, 0, end, 0);
      var es, ops := PhraseIsJoined(g, e, 1, 0, end, 0);
    }
    if es, ops :| Splits(g, e, 1, 0, end, 0, es, ops) {
      TreeIsSpelled(g, es, ops, 0, end, 0, 1);
      Loosened(g, e, 1, 0, 0, end, 0);
    }
  }
}
