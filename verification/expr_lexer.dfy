/** The tokeniser, as a function of the text still to read. */
module ExprLexing {
  import opened ExprText
  import opened ExprAst

  datatype LexError = UnknownEscape | UnterminatedString | UnknownRoot | UnexpectedCharacter

  datatype Lexed = LexFail(error: LexError) | Lexemes(tokens: seq<Token>)

  /** How many characters at the front of `s` satisfy `p`. */
  function Span(p: char -> bool, s: string): (n: nat)
    ensures n <= |s| && (forall i | 0 <= i < n :: p(s[i])) && (n < |s| ==> !p(s[n]))
  {
    if s != "" && p(s[0]) then 1 + Span(p, s[1..]) else 0
  }

  /** The length of the numeral at the front of `s`. */
  function NumeralLength(s: string): (n: nat)
    requires s != "" && IsDigit(s[0])
    ensures 0 < n <= |s| && IsNumeral(s[..n])
  {
    var k := Span(IsDigit, s);
    if k + 1 < |s| && s[k] == '.' && IsDigit(s[k + 1]) then
      var n := k + 1 + Span(IsDigit, s[k + 1..]);
      assert IsNumeralSplitAt(s[..n], k) by {
        assert s[..n][k + 1..] == s[k + 1..][..n - k - 1];
      }
      n
    else k
  }

  datatype Scanned = ScanFail(error: LexError) | Scanned(text: string, used: nat)

  /** The character an escape stands for. */
  function Unescape(c: char): (r: (bool, char)) {
    if c == 'n' then (true, '\n')
    else if c == 't' then (true, '\t')
    else if c == 'r' then (true, '\r')
    else if c == '\\' || c == '"' || c == '\'' then (true, c)
    else (false, c)
  }

  /** The body of a string literal, up to and including its closing quote. */
  function ScanString(quote: char, s: string): (r: Scanned)
    ensures r.Scanned? ==> 0 < r.used <= |s|
  {
    if s == "" then ScanFail(UnterminatedString)
    else if s[0] == quote then Scanned("", 1)
    else if s[0] == '\\' then
      if |s| == 1 || !Unescape(s[1]).0 then ScanFail(UnknownEscape) else
      match ScanString(quote, s[2..])
      case ScanFail(e) => ScanFail(e)
      case Scanned(text, used) => Scanned([Unescape(s[1]).1] + text, used + 2)
    else
      match ScanString(quote, s[1..])
      case ScanFail(e) => ScanFail(e)
      case Scanned(text, used) => Scanned([s[0]] + text, used + 1)
  }

  function RootText(root: RootName): string {
    match root
    case RootParams => "$params"
    case RootNodes => "$nodes"
    case RootInput => "$input"
    case RootRun => "$run"
    case RootNow => "$now"
    case RootRandom => "$random"
    case RootDevice => "$device"
  }

  datatype MaybeRoot = NoRoot | SomeRoot(root: RootName)

  function RootOf(s: string): (m: MaybeRoot)
    ensures m.SomeRoot? ==> s == RootText(m.root)
  {
    if s == "$params" then SomeRoot(RootParams)
    else if s == "$nodes" then SomeRoot(RootNodes)
    else if s == "$input" then SomeRoot(RootInput)
    else if s == "$run" then SomeRoot(RootRun)
    else if s == "$now" then SomeRoot(RootNow)
    else if s == "$random" then SomeRoot(RootRandom)
    else if s == "$device" then SomeRoot(RootDevice)
    else NoRoot
  }

  datatype MaybePunct = NoPunct | SomePunct(p: Punct)

  /** The two-character operator `c d`, if it is one. */
  function Punct2(c: char, d: char): MaybePunct {
    if c == '&' && d == '&' then SomePunct(AndAnd)
    else if c == '|' && d == '|' then SomePunct(OrOr)
    else if d != '=' then NoPunct
    else if c == '=' then SomePunct(EqEq)
    else if c == '!' then SomePunct(NotEq)
    else if c == '<' then SomePunct(LessEq)
    else if c == '>' then SomePunct(GreaterEq)
    else NoPunct
  }

  function Punct1(c: char): MaybePunct {
    if c == '+' then SomePunct(Plus) else if c == '-' then SomePunct(Minus)
    else if c == '*' then SomePunct(Star) else if c == '/' then SomePunct(Slash)
    else if c == '%' then SomePunct(Percent) else if c == '!' then SomePunct(Bang)
    else if c == '<' then SomePunct(Less) else if c == '>' then SomePunct(Greater)
    else if c == '?' then SomePunct(Question) else if c == ':' then SomePunct(Colon)
    else if c == '.' then SomePunct(Dot) else if c == '(' then SomePunct(LParen)
    else if c == ')' then SomePunct(RParen) else if c == '[' then SomePunct(LBracket)
    else if c == ']' then SomePunct(RBracket) else if c == ',' then SomePunct(Comma)
    else NoPunct
  }

  datatype Step = StepFail(error: LexError) | StepTo(token: Token, used: nat)

  /** The token at the front of `s`, which does not start with a blank. */
  function NextToken(s: string): (r: Step)
    requires s != "" && !IsBlank(s[0])
    ensures r.StepTo? ==> 0 < r.used <= |s| && r.token != EofTok
  {
    var c := s[0];
    if IsDigit(c) then
      var n := NumeralLength(s);
      StepTo(NumTok(s[..n]), n)
    else if c == '"' || c == '\'' then
      match ScanString(c, s[1..])
      case ScanFail(e) => StepFail(e)
      case Scanned(text, used) => StepTo(StrTok(text), used + 1)
    else if c == '$' then
      var n := 1 + Span(IsIdentPart, s[1..]);
      match RootOf(s[..n])
      case NoRoot => StepFail(UnknownRoot)
      case SomeRoot(root) => StepTo(RootTok(root), n)
    else if IsIdentStart(c) then
      var n := 1 + Span(IsIdentPart, s[1..]);
      assert forall i | 1 <= i < n :: s[..n][i] == s[1..][i - 1];
      StepTo(IdentTok(s[..n]), n)
    else if |s| >= 2 && Punct2(c, s[1]).SomePunct? then StepTo(PunctTok(Punct2(c, s[1]).p), 2)
    else
      match Punct1(c)
      case SomePunct(p) => StepTo(PunctTok(p), 1)
      case NoPunct => StepFail(UnexpectedCharacter)
  }

  /** Every token of `s`, then `EofTok`. */
  function Lex(s: string): (r: Lexed)
    ensures r.Lexemes? ==> r.tokens != [] && r.tokens[|r.tokens| - 1] == EofTok
    decreases |s|
  {
    if s == "" then Lexemes([EofTok])
    else if IsBlank(s[0]) then Lex(s[1..])
    else
      match NextToken(s)
      case StepFail(e) => LexFail(e)
      case StepTo(t, used) => Prepend(t, Lex(s[used..]))
  }

  function Prepend(t: Token, r: Lexed): Lexed {
    match r case LexFail(e) => LexFail(e) case Lexemes(ts) => Lexemes([t] + ts)
  }

  // ------------------------------------------------------------ spelling text

  /** `text` inside double quotes: a quote and a backslash are escaped, nothing else. */
  function Quoted(text: string): string {
    if text == "" then ""
    else (if text[0] == '"' || text[0] == '\\' then ['\\', text[0]] else [text[0]]) + Quoted(text[1..])
  }

  function PunctText(p: Punct): string {
    match p
    case AndAnd => "&&" case OrOr => "||" case EqEq => "==" case NotEq => "!=" case LessEq => "<=" case GreaterEq => ">="
    case Plus => "+" case Minus => "-" case Star => "*" case Slash => "/" case Percent => "%" case Bang => "!"
    case Less => "<" case Greater => ">" case Question => "?" case Colon => ":" case Dot => "."
    case LParen => "(" case RParen => ")" case LBracket => "[" case RBracket => "]" case Comma => ","
  }

  function TokenText(t: Token): string
    requires t != EofTok
  {
    match t
    case NumTok(n) => n
    case StrTok(s) => "\"" + Quoted(s) + "\""
    case IdentTok(name) => name
    case RootTok(root) => RootText(root)
    case PunctTok(p) => PunctText(p)
  }

  /** The tokens' texts, each followed by one blank. */
  function Text(ts: seq<Token>): string
    requires EofTok !in ts
  {
    if ts == [] then "" else TokenText(ts[0]) + " " + Text(ts[1..])
  }

  lemma {:induction false} SpanPrefix(p: char -> bool, a: string, b: string)
    requires forall i | 0 <= i < |a| :: p(a[i])
    requires b != "" ==> !p(b[0])
    ensures Span(p, a + b) == |a|
  {
    if a != "" {
      assert (a + b)[1..] == a[1..] + b;
      SpanPrefix(p, a[1..], b);
    } else {
      assert a + b == b;
    }
  }

  lemma {:induction false} ScanQuoted(text: string, rest: string)
    ensures ScanString('"', Quoted(text) + "\"" + rest) == Scanned(text, |Quoted(text)| + 1)
  {
    hide ScanString, Quoted;
    QuotedStarts(text, rest);
    if text == "" {
      ScanEnd(rest);
    } else {
      ScanQuoted(text[1..], rest);
      var tail := Quoted(text[1..]) + "\"" + rest;
      assert text == [text[0]] + text[1..];
      if text[0] == '"' || text[0] == '\\' {
        ScanEscaped(text[0], tail);
      } else {
        ScanPlain(text[0], tail);
      }
    }
  }

  lemma QuotedStarts(text: string, rest: string)
    ensures text == "" ==> Quoted(text) + "\"" + rest == "\"" + rest && |Quoted(text)| == 0
    ensures text != "" ==> var tail, escaped := Quoted(text[1..]) + "\"" + rest, text[0] == '"' || text[0] == '\\';
      && Quoted(text) + "\"" + rest == (if escaped then ['\\', text[0]] else [text[0]]) + tail
      && |Quoted(text)| == |Quoted(text[1..])| + if escaped then 2 else 1
  {
  }

  lemma ScanEnd(rest: string)
    ensures ScanString('"', "\"" + rest) == Scanned("", 1)
  {
  }

  lemma ScanEscaped(c: char, tail: string)
    requires c == '"' || c == '\\'
    ensures ScanString('"', ['\\', c] + tail)
      == match ScanString('"', tail) case ScanFail(e) => ScanFail(e) case Scanned(t, used) => Scanned([c] + t, used + 2)
  {
    assert (['\\', c] + tail)[2..] == tail;
  }

  lemma ScanPlain(c: char, tail: string)
    requires c != '"' && c != '\\'
    ensures ScanString('"', [c] + tail)
      == match ScanString('"', tail) case ScanFail(e) => ScanFail(e) case Scanned(t, used) => Scanned([c] + t, used + 1)
  {
    assert ([c] + tail)[1..] == tail;
  }

  lemma NumeralPrefix(n: Numeral, tail: string)
    requires tail != "" ==> !IsDigit(tail[0]) && tail[0] != '.'
    ensures IsDigit(n[0]) && NumeralLength(n + tail) == |n|
  {
    hide Span, NumeralLength;
    if n != "" && AllDigits(n) {
      WholePrefix(n, tail);
    } else {
      var k :| 0 < k < |n| - 1 && IsNumeralSplitAt(n, k);
      PointPrefix(n, k, tail);
    }
  }

  lemma WholePrefix(d: string, tail: string)
    requires d != "" && AllDigits(d) && (tail != "" ==> !IsDigit(tail[0]) && tail[0] != '.')
    ensures NumeralLength(d + tail) == |d|
  {
    hide Span, IsNumeral;
    SpanPrefix(IsDigit, d, tail);
  }

  lemma PointPrefix(n: string, k: nat, tail: string)
    requires 0 < k < |n| - 1 && IsNumeralSplitAt(n, k) && (tail != "" ==> !IsDigit(tail[0]))
    ensures IsDigit(n[0]) && NumeralLength(n + tail) == |n|
  {
    hide Span, NumeralLength, IsNumeral;
    var d, f := n[..k], n[k + 1..];
    FractionPrefix(d, f, tail);
    assert n + tail == d + ("." + (f + tail));
    assert n[0] == d[0];
  }

  lemma FractionPrefix(d: string, f: string, tail: string)
    requires d != "" && AllDigits(d) && f != "" && AllDigits(f) && (tail != "" ==> !IsDigit(tail[0]))
    ensures NumeralLength(d + ("." + (f + tail))) == |d| + 1 + |f|
  {
    hide Span, IsNumeral;
    var more := "." + (f + tail);
    SpanPrefix(IsDigit, d, more);
    SpanPrefix(IsDigit, f, tail);
    assert (d + more)[|d|..] == more;
    assert (d + more)[|d| + 1..] == f + tail;
  }

  lemma WordPrefix(w: string, tail: string)
    requires w != "" && (forall i | 1 <= i < |w| :: IsIdentPart(w[i])) && (tail != "" ==> !IsIdentPart(tail[0]))
    ensures 1 + Span(IsIdentPart, (w + tail)[1..]) == |w|
  {
    assert (w + tail)[1..] == w[1..] + tail;
    SpanPrefix(IsIdentPart, w[1..], tail);
  }

  lemma PunctPrefix(p: Punct, tail: string)
    requires tail != "" ==> NoLonger(p, tail[0])
    ensures NextToken(PunctText(p) + tail) == StepTo(PunctTok(p), |PunctText(p)|)
  {
    PunctShape(p);
    hide PunctText, Punct1, NumeralLength, ScanString, Span, RootOf;
    var w := PunctText(p);
    var s := w + tail;
    assert s[0] == w[0] && (|w| == 2 ==> s[1] == w[1]) && (|w| == 1 && tail != "" ==> s[1] == tail[0]);
    if |w| == 1 && tail != "" { NoLongerIs(p, tail[0]); }
  }

  /** No operator is spelled by `p` and `c`. */
  ghost predicate NoLonger(p: Punct, c: char) {
    forall q: Punct :: PunctText(q) != PunctText(p) + [c]
  }

  /** The tables of operators, read from their texts: by two characters, or by one. */
  lemma PunctTables(c: char, d: char, p: Punct)
    ensures Punct2(c, d) == SomePunct(p) <==> PunctText(p) == [c, d]
    ensures Punct1(c) == SomePunct(p) <==> PunctText(p) == [c]
  {
    OnlyText(c, d, p);
    assert [c, d][0] == c && [c, d][1] == d && [c][0] == c;
  }

  lemma OnlyText(c: char, d: char, p: Punct)
    ensures Punct2(c, d) == SomePunct(p) ==> PunctText(p) == [c, d]
    ensures Punct1(c) == SomePunct(p) ==> PunctText(p) == [c]
  {
  }

  lemma NoLongerIs(p: Punct, c: char)
    requires NoLonger(p, c) && |PunctText(p)| == 1
    ensures Punct2(PunctText(p)[0], c) == NoPunct
  {
    hide PunctText, Punct2;
    var w := PunctText(p);
    var two := Punct2(w[0], c);
    assert w + [c] == [w[0], c];
    if two.SomePunct? { PunctTables(w[0], c, two.p); }
  }

  /** The first character of an operator starts nothing else, and the operator is told by one or two of them. */
  lemma PunctShape(p: Punct)
    ensures var w := PunctText(p);
      && 1 <= |w| <= 2 && !IsBlank(w[0]) && !IsDigit(w[0]) && !IsIdentStart(w[0]) && w[0] !in {'"', '\'', '$'}
      && (|w| == 2 ==> Punct2(w[0], w[1]) == SomePunct(p))
      && (|w| == 1 ==> Punct2(w[0], ' ') == NoPunct && Punct1(w[0]) == SomePunct(p))
  {
  }

  lemma RootTextShape(root: RootName)
    ensures var w := RootText(root);
      w != "" && w[0] == '$' && RootOf(w) == SomeRoot(root) && forall i | 1 <= i < |w| :: IsIdentPart(w[i])
  {
  }

  /** `tail` cannot make the text of `t` part of a longer token. */
  ghost predicate Apart(t: Token, tail: string) {
    tail == "" ||
    match t
    case NumTok(_) => !IsDigit(tail[0]) && tail[0] != '.'
    case IdentTok(_) => !IsIdentPart(tail[0])
    case RootTok(_) => !IsIdentPart(tail[0])
    case PunctTok(p) => NoLonger(p, tail[0])
    case _ => true
  }

  /** One token's text is read back as that token, whatever follows that does not run into it. */
  lemma TokenReads(t: Token, tail: string)
    requires t != EofTok && Apart(t, tail)
    ensures TokenText(t) != "" && !IsBlank(TokenText(t)[0])
    ensures NextToken(TokenText(t) + tail) == StepTo(t, |TokenText(t)|)
  {
    hide NextToken, PunctText, RootText, Quoted;
    match t
    case NumTok(n) => NumeralReads(n, tail);
    case StrTok(text) => StringReads(text, tail);
    case IdentTok(name) => IdentReads(name, tail);
    case RootTok(root) => RootReads(root, tail);
    case PunctTok(p) => PunctShape(p); PunctPrefix(p, tail);
  }

  lemma NumeralReads(n: Numeral, tail: string)
    requires tail != "" ==> !IsDigit(tail[0]) && tail[0] != '.'
    ensures n != "" && !IsBlank(n[0]) && NextToken(n + tail) == StepTo(NumTok(n), |n|)
  {
    hide NumeralLength, ScanString, Span, RootOf, Punct1, Punct2;
    NumeralPrefix(n, tail);
    assert (n + tail)[..|n|] == n;
  }

  lemma IdentReads(name: Ident, tail: string)
    requires tail != "" ==> !IsIdentPart(tail[0])
    ensures name != "" && !IsBlank(name[0]) && NextToken(name + tail) == StepTo(IdentTok(name), |name|)
  {
    hide NumeralLength, ScanString, Span, RootOf, Punct1, Punct2;
    WordPrefix(name, tail);
    assert (name + tail)[..|name|] == name;
  }

  lemma StringReads(text: string, tail: string)
    ensures var w := "\"" + Quoted(text) + "\""; NextToken(w + tail) == StepTo(StrTok(text), |w|)
  {
    hide Quoted, ScanString, Span, RootOf, Punct1, Punct2, NumeralLength;
    ScanQuoted(text, tail);
    var body := Quoted(text) + "\"" + tail;
    assert "\"" + Quoted(text) + "\"" + tail == "\"" + body;
    assert ("\"" + body)[1..] == body;
  }

  lemma RootReads(root: RootName, tail: string)
    requires tail != "" ==> !IsIdentPart(tail[0])
    ensures var w := RootText(root);
      w != "" && !IsBlank(w[0]) && NextToken(w + tail) == StepTo(RootTok(root), |w|)
  {
    var w := RootText(root);
    RootTextShape(root);
    WordPrefix(w, tail);
    assert (w + tail)[..|w|] == w;
  }

  lemma BlankIsApart(t: Token, rest: string)
    requires t != EofTok
    ensures Apart(t, " " + rest)
  {
    if t.PunctTok? {
      forall q: Punct
        ensures PunctText(q) != PunctText(t.p) + [' ']
      {
        NoBlankInside(q);
        assert (PunctText(t.p) + [' '])[|PunctText(t.p)|] == ' ';
      }
    }
  }

  lemma NoBlankInside(p: Punct)
    ensures ' ' !in PunctText(p)
  {
  }

  /** Tokenising spelled tokens gives the tokens back. */
  lemma {:induction false} LexText(ts: seq<Token>)
    requires EofTok !in ts
    ensures Lex(Text(ts)) == Lexemes(ts + [EofTok])
    decreases |ts|
  {
    hide Lex, TokenText;
    if ts == [] {
      LexNothing();
      assert ts + [EofTok] == [EofTok];
    } else {
      LexText(ts[1..]);
      LexOneMore(ts[0], Text(ts[1..]), ts[1..] + [EofTok]);
      assert [ts[0]] + (ts[1..] + [EofTok]) == ts + [EofTok];
    }
  }

  lemma LexNothing()
    ensures Lex("") == Lexemes([EofTok])
  {
  }

  lemma LexOneMore(t: Token, rest: string, ts: seq<Token>)
    requires t != EofTok && Lex(rest) == Lexemes(ts)
    ensures Lex(TokenText(t) + " " + rest) == Lexemes([t] + ts)
  {
    hide TokenText, NextToken;
    var w := TokenText(t);
    var s := w + " " + rest;
    assert s == w + (" " + rest);
    BlankIsApart(t, rest);
    TokenReads(t, " " + rest);
    assert s[|w|..] == [' '] + rest;
    assert ([' '] + rest)[1..] == rest;
  }

  // --------------------------------------------------------- any way of writing

  /** Blanks and line ends between tokens do not matter; nothing else is skipped. */
  lemma BlanksAreSkipped(c: char, rest: string)
    ensures c in {' ', '\t', '\n', '\r'} ==> Lex([c] + rest) == Lex(rest)
    ensures c !in {' ', '\t', '\n', '\r'} ==> Lex([c] + rest).LexFail? || Lex([c] + rest).tokens[0] != EofTok
  {
    hide NextToken;
    assert ([c] + rest)[1..] == rest;
  }

  /** The characters of words and numerals, listed. */
  lemma CharacterClasses(c: char)
    ensures IsDigit(c) <==> c in DIGITS
    ensures IsIdentStart(c) <==> c in LOWER || c in UPPER || c == '_'
    ensures IsIdentPart(c) <==> c in LOWER || c in UPPER || c == '_' || c in DIGITS
  {
  }

  const DIGITS: set<char> := {'0', '1', '2', '3', '4', '5', '6', '7', '8', '9'}

  const LOWER: set<char> := {
    'a', 'b', 'c', 'd', 'e', 'f', 'g', 'h', 'i', 'j', 'k', 'l', 'm', 'n', 'o', 'p', 'q', 'r', 's', 't', 'u', 'v', 'w', 'x', 'y', 'z'}

  const UPPER: set<char> := {
    'A', 'B', 'C', 'D', 'E', 'F', 'G', 'H', 'I', 'J', 'K', 'L', 'M', 'N', 'O', 'P', 'Q', 'R', 'S', 'T', 'U', 'V', 'W', 'X', 'Y', 'Z'}

  /** A numeral is digits, or digits, a point and digits. */
  lemma NumeralShapes(s: string)
    ensures IsNumeral(s) <==>
      || (s != "" && AllDigits(s))
      || exists a, b :: a != "" && b != "" && AllDigits(a) && AllDigits(b) && s == a + "." + b
  {
    if k :| 0 < k < |s| - 1 && IsNumeralSplitAt(s, k) {
      assert s == s[..k] + "." + s[k + 1..];
    }
    if a, b :| a != "" && b != "" && AllDigits(a) && AllDigits(b) && s == a + "." + b {
      assert s[..|a|] == a && s[|a|] == '.' && s[|a| + 1..] == b;
      assert IsNumeralSplitAt(s, |a|);
    }
  }

  /** What a backslash and a letter stand for. */
  const ESCAPES: map<char, char> :=
    map['n' := '\n', 't' := '\t', 'r' := '\r', '\\' := '\\', '"' := '"', '\'' := '\'']

  /** One character of a string literal as it is written: itself, or a letter after a backslash. */
  datatype Piece = Plain(c: char) | Escaped(letter: char)

  predicate Writes(p: Piece, quote: char) {
    match p case Plain(c) => c != quote && c != '\\' case Escaped(letter) => letter in ESCAPES
  }

  predicate AllWrite(ps: seq<Piece>, quote: char) {
    forall i | 0 <= i < |ps| :: Writes(ps[i], quote)
  }

  function PieceText(p: Piece): string {
    match p case Plain(c) => [c] case Escaped(letter) => ['\\', letter]
  }

  function Written(ps: seq<Piece>): string {
    if ps == [] then "" else PieceText(ps[0]) + Written(ps[1..])
  }

  /** The text the pieces stand for. */
  function Stands(ps: seq<Piece>, quote: char): string
    requires AllWrite(ps, quote)
  {
    if ps == [] then "" else [if ps[0].Plain? then ps[0].c else ESCAPES[ps[0].letter]] + Stands(ps[1..], quote)
  }

  /** `text` in front of what `r` scanned, `used` characters later. */
  function InFront(text: string, used: nat, r: Scanned): Scanned {
    match r case ScanFail(e) => ScanFail(e) case Scanned(t, n) => Scanned(text + t, used + n)
  }

  lemma EscapesAre(letter: char)
    ensures Unescape(letter).0 <==> letter in ESCAPES
    ensures letter in ESCAPES ==> Unescape(letter).1 == ESCAPES[letter]
  {
  }

  /** Whatever is written is scanned as what it stands for, and scanning goes on behind it. */
  lemma {:induction false} WrittenIsScanned(quote: char, ps: seq<Piece>, rest: string)
    requires quote != '\\' && AllWrite(ps, quote)
    ensures ScanString(quote, Written(ps) + rest) == InFront(Stands(ps, quote), |Written(ps)|, ScanString(quote, rest))
    decreases |ps|
  {
    hide ScanString, Unescape;
    if ps == [] {
      assert Written(ps) + rest == rest;
      InFrontNothing(ScanString(quote, rest));
    } else {
      var tail := Written(ps[1..]) + rest;
      WrittenIsScanned(quote, ps[1..], rest);
      assert Written(ps) + rest == PieceText(ps[0]) + tail;
      OnePiece(quote, ps[0], tail);
      InFrontTwice([if ps[0].Plain? then ps[0].c else ESCAPES[ps[0].letter]], |PieceText(ps[0])|,
                   Stands(ps[1..], quote), |Written(ps[1..])|, ScanString(quote, rest));
    }
  }

  lemma InFrontNothing(r: Scanned)
    ensures InFront("", 0, r) == r
  {
    if r.Scanned? { assert "" + r.text == r.text; }
  }

  lemma InFrontTwice(a: string, n: nat, b: string, m: nat, r: Scanned)
    ensures InFront(a, n, InFront(b, m, r)) == InFront(a + b, n + m, r)
  {
    if r.Scanned? { assert a + (b + r.text) == a + b + r.text; }
  }

  lemma OnePiece(quote: char, p: Piece, tail: string)
    requires quote != '\\' && Writes(p, quote)
    ensures ScanString(quote, PieceText(p) + tail)
      == InFront([if p.Plain? then p.c else ESCAPES[p.letter]], |PieceText(p)|, ScanString(quote, tail))
  {
    hide Unescape;
    match p
    case Plain(c) => assert ([c] + tail)[1..] == tail;
    case Escaped(letter) =>
      EscapesAre(letter);
      assert ('\\' != quote) && (['\\', letter] + tail)[2..] == tail && (['\\', letter] + tail)[1] == letter;
  }

  /** A string literal, in either quotes and with any escapes, is the text it stands for. */
  lemma LiteralReads(quote: char, ps: seq<Piece>, rest: string)
    requires quote in {'"', '\''} && AllWrite(ps, quote)
    ensures var w := [quote] + Written(ps) + [quote];
      NextToken(w + rest) == StepTo(StrTok(Stands(ps, quote)), |w|)
  {
    hide ScanString, Unescape, NumeralLength, Span, RootOf, Punct1, Punct2;
    var tail := [quote] + rest;
    var s := [quote] + Written(ps) + [quote] + rest;
    assert s == [quote] + (Written(ps) + tail);
    assert s[1..] == Written(ps) + tail;
    WrittenIsScanned(quote, ps, tail);
    ScanCloses(quote, rest);
  }

  lemma ScanCloses(quote: char, rest: string)
    ensures ScanString(quote, [quote] + rest) == Scanned("", 1)
    ensures ScanString(quote, "") == ScanFail(UnterminatedString)
  {
  }

  /** A literal that is never closed, or holds a backslash and a letter that is no escape, is refused as that. */
  lemma LiteralRefused(quote: char, ps: seq<Piece>, bad: string)
    requires quote in {'"', '\''} && AllWrite(ps, quote)
    requires bad == "" || (bad[0] == '\\' && (|bad| == 1 || bad[1] !in ESCAPES))
    ensures NextToken([quote] + Written(ps) + bad) == StepFail(if bad == "" then UnterminatedString else UnknownEscape)
  {
    hide ScanString, Unescape, NumeralLength, Span, RootOf, Punct1, Punct2;
    var s := [quote] + Written(ps) + bad;
    assert s == [quote] + (Written(ps) + bad);
    assert s[1..] == Written(ps) + bad;
    WrittenIsScanned(quote, ps, bad);
    BadScans(quote, bad);
  }

  lemma BadScans(quote: char, bad: string)
    requires quote in {'"', '\''} && (bad == "" || (bad[0] == '\\' && (|bad| == 1 || bad[1] !in ESCAPES)))
    ensures ScanString(quote, bad) == ScanFail(if bad == "" then UnterminatedString else UnknownEscape)
  {
    hide Unescape;
    if |bad| > 1 { EscapesAre(bad[1]); }
  }

  lemma {:induction false} SpanAtLeast(p: char -> bool, a: string, b: string)
    requires forall i | 0 <= i < |a| :: p(a[i])
    ensures Span(p, a + b) >= |a|
  {
    if a != "" {
      assert (a + b)[1..] == a[1..] + b;
      SpanAtLeast(p, a[1..], b);
    }
  }

  /** A numeral is the longest there is at the front. */
  lemma LongestNumeral(n: Numeral, rest: string)
    ensures n != "" && IsDigit(n[0]) && |n| <= NumeralLength(n + rest)
  {
    hide Span, IsNumeral, NumeralLength;
    if AllDigits(n) && n != "" {
      WholeIsRead(n, rest);
    } else {
      NotWhole(n);
      var k :| 0 < k < |n| - 1 && IsNumeralSplitAt(n, k);
      var tail := n[k..] + rest;
      assert n + rest == n[..k] + tail && n[0] == n[..k][0] && tail[0] == n[k];
      PointIsRead(n[..k], n[k + 1..], rest);
      assert n == n[..k] + "." + n[k + 1..];
      assert n + rest == n[..k] + ("." + (n[k + 1..] + rest));
    }
  }

  lemma NotWhole(n: Numeral)
    requires !AllDigits(n) || n == ""
    ensures exists k :: 0 < k < |n| - 1 && IsNumeralSplitAt(n, k)
  {
  }

  lemma WholeIsRead(d: string, rest: string)
    requires d != "" && AllDigits(d)
    ensures |d| <= NumeralLength(d + rest)
  {
    hide Span, IsNumeral;
    SpanAtLeast(IsDigit, d, rest);
  }

  lemma PointIsRead(d: string, f: string, rest: string)
    requires d != "" && AllDigits(d) && f != "" && AllDigits(f)
    ensures |d| + 1 + |f| <= NumeralLength(d + ("." + (f + rest)))
  {
    hide Span, IsNumeral;
    var more := "." + (f + rest);
    SpanPrefix(IsDigit, d, more);
    SpanAtLeast(IsDigit, f, rest);
    assert (d + more)[|d|..] == more;
    assert (d + more)[|d| + 1..] == f + rest;
  }

  /** So is an identifier; and a root is the whole word behind its dollar sign. */
  lemma LongestWord(s: string)
    requires s != "" && (IsIdentStart(s[0]) || s[0] == '$') && NextToken(s).StepTo?
    ensures var r := NextToken(s);
      && r.used <= |s| && (r.used < |s| ==> !IsIdentPart(s[r.used]))
      && (s[0] != '$' ==> r.token == IdentTok(s[..r.used])) && (s[0] == '$' ==> r.token.RootTok? && RootText(r.token.root) == s[..r.used])
  {
    hide NumeralLength, ScanString, RootOf, Punct1, Punct2;
    var n := Span(IsIdentPart, s[1..]);
    if n < |s[1..]| { assert s[1..][n] == s[n + 1]; }
  }
}
