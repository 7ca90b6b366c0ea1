/** The characters identifiers and numerals are made of. */
module ExprText {
  predicate IsDigit(c: char) { '0' <= c <= '9' }

  predicate IsIdentStart(c: char) { 'a' <= c <= 'z' || 'A' <= c <= 'Z' || c == '_' }

  predicate IsIdentPart(c: char) { IsIdentStart(c) || IsDigit(c) }

  predicate IsBlank(c: char) { c == ' ' || c == '\t' || c == '\n' || c == '\r' }

  predicate AllDigits(s: string) { forall i | 0 <= i < |s| :: IsDigit(s[i]) }

  predicate AllIdentParts(s: string) { forall i | 0 <= i < |s| :: IsIdentPart(s[i]) }

  predicate IsIdent(s: string) { s != "" && IsIdentStart(s[0]) && AllIdentParts(s) }

  /** Digits, and optionally a point with digits after it. */
  predicate IsNumeral(s: string) {
    (s != "" && AllDigits(s)) || exists k | 0 < k < |s| - 1 :: IsNumeralSplitAt(s, k)
  }

  predicate IsNumeralSplitAt(s: string, k: int) {
    0 < k < |s| - 1 && AllDigits(s[..k]) && s[k] == '.' && AllDigits(s[k + 1..])
  }

  type Ident = s: string | IsIdent(s) witness "a"

  type Numeral = s: string | IsNumeral(s) witness "0"
}

/** The closed syntax tree of `@enkaku/expr`, its tokens and its limits. */
module ExprAst {
  import opened ExprText

  const MAX_AST_NODES: nat := 200
  const MAX_DEPTH: nat := 20

  datatype RootName = RootParams | RootNodes | RootInput | RootRun | RootNow | RootRandom | RootDevice

  datatype BinOp =
    | Add | Sub | Mul | Div | Mod
    | Eq | Ne | Lt | Le | Gt | Ge
    | AndAlso | OrElse

  datatype UnOp = Not | Neg

  /** A numeric literal keeps its numeral; the evaluator turns it into a number. */
  datatype Literal = NumLit(numeral: Numeral) | StrLit(text: string) | BoolLit(b: bool) | NullLit

  datatype Expr =
    | Lit(v: Literal)
    | Root(name: RootName)
    | Member(on: Expr, key: Ident)
    | Index(on: Expr, idx: Expr)
    | Unary(uop: UnOp, on: Expr)
    | Bin(op: BinOp, l: Expr, r: Expr)
    | Cond(c: Expr, a: Expr, b: Expr)
    | Call(fn: Ident, args: seq<Expr>)

  datatype Punct =
    | AndAnd | OrOr | EqEq | NotEq | LessEq | GreaterEq
    | Plus | Minus | Star | Slash | Percent | Bang | Less | Greater
    | Question | Colon | Dot | LParen | RParen | LBracket | RBracket | Comma

  datatype Token =
    | NumTok(numeral: Numeral)
    | StrTok(text: string)
    | IdentTok(name: Ident)
    | RootTok(root: RootName)
    | PunctTok(p: Punct)
    | EofTok

  /** The number of AST nodes of `e`; what the parser's `nodeCount` counts. */
  function Size(e: Expr): (n: nat)
    ensures n >= 1
  {
    match e
    case Lit(_) => 1
    case Root(_) => 1
    case Member(on, _) => Size(on) + 1
    case Index(on, idx) => Size(on) + Size(idx) + 1
    case Unary(_, on) => Size(on) + 1
    case Bin(_, l, r) => Size(l) + Size(r) + 1
    case Cond(c, a, b) => Size(c) + Size(a) + Size(b) + 1
    case Call(_, args) => SizeAll(args) + 1
  }

  function SizeAll(es: seq<Expr>): (n: nat)
    ensures n >= |es|
  {
    if es == [] then 0 else SizeAll(es[..|es| - 1]) + Size(es[|es| - 1])
  }

  predicate IsKeyword(s: string) {
    s == "true" || s == "false" || s == "null"
  }

  /** The keyword's literal. */
  function KeywordLiteral(s: string): Literal
    requires IsKeyword(s)
  {
    if s == "true" then BoolLit(true) else if s == "false" then BoolLit(false) else NullLit
  }

  /** What the parser promises of every tree: no string-literal index, every call names a table function. */
  predicate WellFormed(e: Expr, table: set<string>) {
    match e
    case Lit(_) => true
    case Root(_) => true
    case Member(on, _) => WellFormed(on, table)
    case Index(on, idx) => WellFormed(on, table) && WellFormed(idx, table) && !IsStringLiteral(idx)
    case Unary(_, on) => WellFormed(on, table)
    case Bin(_, l, r) => WellFormed(l, table) && WellFormed(r, table)
    case Cond(c, a, b) => WellFormed(c, table) && WellFormed(a, table) && WellFormed(b, table)
    case Call(fn, args) =>
      fn in table && !IsKeyword(fn) && forall i | 0 <= i < |args| :: WellFormed(args[i], table)
  }

  predicate IsStringLiteral(e: Expr) {
    e.Lit? && e.v.StrLit?
  }
}
