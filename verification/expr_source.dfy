/** `parse`: text to tree. The tokeniser loop, the whole function, and its round trip. */
module ExprSource {
  import opened ExprText
  import opened ExprAst
  import opened ExprLexing
  import ExprGrammar
  import ExprParser
  import ExprRoundTrip

  const MAX_SOURCE_BYTES: nat := 2_000

  datatype ParseResult =
    | Tree(e: Expr)
    | TooLong
    | NotLexed(lexError: LexError)
    | NotParsed(parseError: ExprGrammar.ParseError)

  function CharBytes(c: char): nat {
    var n := c as int;
    if n < 0x80 then 1 else if n < 0x800 then 2 else if n < 0x10000 then 3 else 4
  }

  /** The length of `s` in UTF-8. */
  function Utf8Length(s: string): nat {
    if s == "" then 0 else Utf8Length(s[..|s| - 1]) + CharBytes(s[|s| - 1])
  }

  /** How many code points fit in `k` bytes: 7 bits in one, and 5 `k` + 1 in more. */
  function Capacity(k: nat): int {
    if k == 1 then 0x80 else if k == 2 then 0x800 else if k == 3 then 0x1_0000 else if k == 4 then 0x20_0000 else 0
  }

  /** A character takes the fewest bytes that hold it, and a text the sum of its characters'. */
  lemma Utf8IsShortest(c: char, a: string, b: string)
    ensures 1 <= CharBytes(c) <= 4 && (c as int) < Capacity(CharBytes(c))
    ensures CharBytes(c) > 1 ==> (c as int) >= Capacity(CharBytes(c) - 1)
    ensures Utf8Length([c]) == CharBytes(c) && Utf8Length(a + b) == Utf8Length(a) + Utf8Length(b)
  {
    assert [c][..0] == "";
    Utf8Adds(a, b);
  }

  lemma {:induction false} Utf8Adds(a: string, b: string)
    ensures Utf8Length(a + b) == Utf8Length(a) + Utf8Length(b)
    decreases |b|
  {
    hide CharBytes;
    if b == "" {
      assert a + b == a;
    } else {
      assert (a + b)[..|a + b| - 1] == a + b[..|b| - 1];
      Utf8Adds(a, b[..|b| - 1]);
    }
  }

  method ByteLength(s: string) returns (n: nat)
    ensures n == Utf8Length(s)
  {
    n := 0;
    for i := 0 to |s|
      invariant n == Utf8Length(s[..i])
    {
      assert s[..i + 1][..i] == s[..i];
      n := n + CharBytes(s[i]);
    }
    assert s[..|s|] == s;
  }

  /** Advance `j` over the characters that satisfy `p`. */
  method Skip(s: string, from: nat, p: char -> bool) returns (j: nat)
    requires from <= |s|
    ensures from <= j <= |s| && j - from == Span(p, s[from..])
  {
    j := from;
    while j < |s| && p(s[j])
      invariant from <= j <= |s|
      invariant Span(p, s[from..]) == (j - from) + Span(p, s[j..])
    {
      assert s[j..][1..] == s[j + 1..];
      j := j + 1;
    }
  }

  /** The string literal whose opening quote is at `start`. */
  method ReadString(s: string, start: nat) returns (r: Scanned)
    requires start < |s|
    ensures r == ScanString(s[start], s[start + 1..])
  {
    var quote, j, out := s[start], start + 1, "";
    hide ScanString, Unescape;
    while j < |s|
      invariant start + 1 <= j <= |s|
      invariant ScanString(quote, s[start + 1..]) == After(out, j - start - 1, ScanString(quote, s[j..]))
      decreases |s| - j
    {
      ScanTurn(quote, s, j);
      var c := s[j];
      if c == quote {
        return Scanned(out, j - start);
      }
      if c == '\\' {
        if j + 1 == |s| || !Unescape(s[j + 1]).0 { return ScanFail(UnknownEscape); }
        AfterAfter(out, j - start - 1, [Unescape(s[j + 1]).1], 2, ScanString(quote, s[j + 2..]));
        out := out + [Unescape(s[j + 1]).1];
        j := j + 2;
      } else {
        AfterAfter(out, j - start - 1, [c], 1, ScanString(quote, s[j + 1..]));
        out := out + [c];
        j := j + 1;
      }
    }
    ScanNothing(quote, s);
    return ScanFail(UnterminatedString);
  }

  lemma ScanTurn(quote: char, s: string, j: nat)
    requires j < |s|
    ensures var c, r := s[j], ScanString(quote, s[j..]);
      if c == quote then r == Scanned("", 1)
      else if c != '\\' then r == After([c], 1, ScanString(quote, s[j + 1..]))
      else if j + 1 == |s| || !Unescape(s[j + 1]).0 then r == ScanFail(UnknownEscape)
      else r == After([Unescape(s[j + 1]).1], 2, ScanString(quote, s[j + 2..]))
  {
    hide Unescape;
    assert s[j..][1..] == s[j + 1..];
    if j + 1 < |s| { assert s[j..][2..] == s[j + 2..]; }
  }

  lemma ScanNothing(quote: char, s: string)
    ensures ScanString(quote, s[|s|..]) == ScanFail(UnterminatedString)
  {
  }

  /** `text` was read from `used` characters before `r`. */
  function After(text: string, used: nat, r: Scanned): Scanned {
    match r case ScanFail(e) => ScanFail(e) case Scanned(t, n) => Scanned(text + t, used + n)
  }

  lemma AfterAfter(a: string, n: nat, b: string, m: nat, r: Scanned)
    ensures After(a, n, After(b, m, r)) == After(a + b, n + m, r)
  {
    if r.Scanned? {
      assert a + (b + r.text) == a + b + r.text;
    }
  }

  /** The tokens so far, then what the rest of the text gives. */
  function Following(ts: seq<Token>, r: Lexed): Lexed {
    match r case LexFail(e) => LexFail(e) case Lexemes(more) => Lexemes(ts + more)
  }

  method Tokenize(source: string) returns (r: Lexed)
    ensures r == Lex(source)
  {
    var tokens: seq<Token>, i := [], 0;
    hide Lex, NextToken, Following;
    assert source[0..] == source;
    FollowingNothing(Lex(source));
    while i < |source|
      invariant i <= |source|
      invariant Lex(source) == Following(tokens, Lex(source[i..]))
    {
      FollowTurn(source, tokens, i);
      var c := source[i];
      if IsBlank(c) {
        i := i + 1;
        continue;
      }
      var step := ReadToken(source, i);
      if step.StepFail? { return LexFail(step.error); }
      tokens := tokens + [step.token];
      i := i + step.used;
    }
    FollowEnd(tokens);
    assert source[i..] == "";
    return Lexemes(tokens + [EofTok]);
  }

  /** What one more turn of the loop makes of the tokens so far. */
  lemma FollowTurn(source: string, ts: seq<Token>, i: nat)
    requires i < |source|
    ensures Following(ts, Lex(source[i..])) ==
      if IsBlank(source[i]) then Following(ts, Lex(source[i + 1..])) else
      match NextToken(source[i..])
      case StepFail(e) => LexFail(e)
      case StepTo(t, used) => Following(ts + [t], Lex(source[i + used..]))
  {
    hide Lex, NextToken;
    LexTurn(source, i);
    if !IsBlank(source[i]) && NextToken(source[i..]).StepTo? {
      var StepTo(t, used) := NextToken(source[i..]);
      FollowingToken(ts, t, Lex(source[i + used..]));
    }
  }

  lemma FollowEnd(ts: seq<Token>)
    ensures Following(ts, Lex("")) == Lexemes(ts + [EofTok])
  {
  }

  lemma LexTurn(source: string, i: nat)
    requires i < |source|
    ensures Lex(source[i..]) ==
      if IsBlank(source[i]) then Lex(source[i + 1..]) else
      match NextToken(source[i..])
      case StepFail(e) => LexFail(e)
      case StepTo(t, used) => Prepend(t, Lex(source[i + used..]))
  {
    hide NextToken;
    var rest := source[i..];
    if IsBlank(rest[0]) {
      assert rest[1..] == source[i + 1..];
    } else if NextToken(rest).StepTo? {
      assert rest[NextToken(rest).used..] == source[i + NextToken(rest).used..];
    }
  }

  lemma FollowingNothing(r: Lexed)
    ensures Following([], r) == r
  {
    if r.Lexemes? { assert [] + r.tokens == r.tokens; }
  }

  lemma FollowingToken(ts: seq<Token>, t: Token, r: Lexed)
    ensures Following(ts, Prepend(t, r)) == Following(ts + [t], r)
  {
    if r.Lexemes? {
      assert ts + ([t] + r.tokens) == ts + [t] + r.tokens;
    }
  }

  /** The end of the numeral that starts at `start`. */
  method ReadNumeral(s: string, start: nat) returns (j: nat)
    requires start < |s| && IsDigit(s[start])
    ensures start < j <= |s| && j - start == NumeralLength(s[start..])
  {
    ghost var front := s[start..];
    j := Skip(s, start, IsDigit);
    if j + 1 < |s| && s[j] == '.' && IsDigit(s[j + 1]) {
      assert front[j - start + 1..] == s[j + 1..];
      j := Skip(s, j + 1, IsDigit);
    }
  }

  /** The end of the root or identifier that starts at `start`. */
  method ReadWord(s: string, start: nat) returns (j: nat)
    requires start < |s|
    ensures start < j <= |s| && j - start == 1 + Span(IsIdentPart, s[start..][1..])
  {
    assert s[start..][1..] == s[start + 1..];
    j := Skip(s, start + 1, IsIdentPart);
  }

  /** The token that starts at `start`. */
  method ReadToken(s: string, start: nat) returns (r: Step)
    requires start < |s| && !IsBlank(s[start])
    ensures r == NextToken(s[start..])
  {
    hide NumeralLength, ScanString, Span, RootOf, Punct1, Punct2;
    var c := s[start];
    ghost var front := s[start..];
    if IsDigit(c) {
      var j := ReadNumeral(s, start);
      assert s[start..j] == front[..j - start];
      r := StepTo(NumTok(s[start..j]), j - start);
    } else if c == '"' || c == '\'' {
      assert front[1..] == s[start + 1..];
      var scanned := ReadString(s, start);
      r := if scanned.ScanFail? then StepFail(scanned.error) else StepTo(StrTok(scanned.text), scanned.used + 1);
    } else if c == '$' {
      var j := ReadWord(s, start);
      assert s[start..j] == front[..j - start];
      var root := RootOf(s[start..j]);
      r := if root.NoRoot? then StepFail(UnknownRoot) else StepTo(RootTok(root.root), j - start);
    } else if IsIdentStart(c) {
      var j := ReadWord(s, start);
      assert s[start..j] == front[..j - start];
      assert NextToken(front).StepTo?;
      r := StepTo(IdentTok(s[start..j]), j - start);
    } else if start + 1 < |s| && Punct2(c, s[start + 1]).SomePunct? {
      r := StepTo(PunctTok(Punct2(c, s[start + 1]).p), 2);
    } else {
      match Punct1(c)
      case SomePunct(p) => r := StepTo(PunctTok(p), 1);
      case NoPunct => r := StepFail(UnexpectedCharacter);
    }
  }

  // ------------------------------------------------------------------- parse

  /** What source text means: a tree, or the first reason it has none. */
  function Meaning(source: string, functionNames: set<string>): ParseResult {
    if Utf8Length(source) > MAX_SOURCE_BYTES then TooLong else
    match Lex(source)
    case LexFail(e) => NotLexed(e)
    case Lexemes(ts) =>
      match ExprGrammar.Program(ExprGrammar.Input(ts, functionNames))
      case Fail(e) => NotParsed(e)
      case Done(e, _, _) => Tree(e)
  }

  method ParseSource(source: string, functionNames: set<string>) returns (r: ParseResult)
    ensures r == Meaning(source, functionNames)
  {
    var bytes := ByteLength(source);
    if bytes > MAX_SOURCE_BYTES { return TooLong; }
    var lexed := Tokenize(source);
    if lexed.LexFail? { return NotLexed(lexed.error); }
    var parser := new ExprParser.Parser(lexed.tokens, functionNames);
    var outcome := parser.ParseProgram();
    match outcome
    case Parsed(e) => return Tree(e);
    case Refused(e) => return NotParsed(e);
  }

  /** The canonical text of a tree: its minimal spelling, a blank after every token. */
  function Render(e: Expr): string {
    PrintHasNoEof(e, 0);
    Text(ExprGrammar.Print(e, 0))
  }

  lemma {:induction false} PrintHasNoEof(e: Expr, level: nat)
    ensures EofTok !in ExprGrammar.Print(e, level)
    decreases e
  {
    match e
    case Lit(_) =>
    case Root(_) =>
    case Member(on, _) => PrintHasNoEof(on, 8);
    case Index(on, idx) => PrintHasNoEof(on, 8); PrintHasNoEof(idx, 0);
    case Unary(_, on) => PrintHasNoEof(on, 7);
    case Bin(op, l, r) => PrintHasNoEof(l, ExprGrammar.OpLevel(op)); PrintHasNoEof(r, ExprGrammar.OpLevel(op) + 1);
    case Cond(c, a, b) => PrintHasNoEof(c, 1); PrintHasNoEof(a, 0); PrintHasNoEof(b, 0);
    case Call(_, args) => ArgsHaveNoEof(args);
  }

  lemma {:induction false} ArgsHaveNoEof(args: seq<Expr>)
    ensures EofTok !in ExprGrammar.PrintArgs(args)
    decreases args
  {
    if args != [] {
      PrintHasNoEof(args[|args| - 1], 0);
      ArgsHaveNoEof(args[..|args| - 1]);
    }
  }

  /**
   * Text to tree and back: the canonical text of an accepted source means the same
   * tree. Only the size limit on source text can refuse it.
   */
  lemma RenderedSourceMeansTheSame(source: string, functionNames: set<string>)
    requires Meaning(source, functionNames).Tree?
    ensures var e := Meaning(source, functionNames).e;
      Meaning(Render(e), functionNames) == if Utf8Length(Render(e)) <= MAX_SOURCE_BYTES then Tree(e) else TooLong
  {
    var e := Meaning(source, functionNames).e;
    PrintHasNoEof(e, 0);
    LexText(ExprGrammar.Print(e, 0));
    ExprRoundTrip.SpellingParses(e, functionNames);
  }

  /** Every tree a source can mean obeys the limits and names only table functions. */
  lemma AcceptedSourceIsWellFormed(source: string, functionNames: set<string>)
    requires Meaning(source, functionNames).Tree?
    ensures var e := Meaning(source, functionNames).e;
      WellFormed(e, functionNames) && Size(e) <= MAX_AST_NODES && ExprGrammar.Need(e, 0) <= MAX_DEPTH
  {
  }
}
