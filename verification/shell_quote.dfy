/** Quoting for adb's on-device shell, against a reader of shell words. */
module ShellQuote {
  import opened Options

  /** Every single quote of `value`, closed over: end the quotes, an escaped quote, reopen them. */
  function Body(value: string): string {
    if value == "" then "" else (if value[0] == '\'' then "'\\''" else [value[0]]) + Body(value[1..])
  }

  function Quote(value: string): string {
    "'" + Body(value) + "'"
  }

  // ------------------------------------------------------------------ the shell

  /** Characters a shell gives a meaning of their own outside quotes; `#` only where a word begins. */
  const OPERATORS: set<char> := {'|', '&', ';', '<', '>', '(', ')', '$', '`', '"', '\n', '*', '?', '[', '~', '{', '}', '='}

  predicate IsBlank(c: char) { c == ' ' || c == '\t' }

  /** Where the reader is: between words, in a word, behind a backslash (`started` when in a word), in single quotes. */
  datatype Mode = Between | InWord(text: string) | Escaped(text: string, started: bool) | Quoted(text: string)

  /** `Stop` is a character that would do something: this reader goes no further. */
  datatype Reader = Reading(words: seq<string>, mode: Mode) | Stop

  const START: Reader := Reading([], Between)

  /** The text of the word being read. */
  function Text(m: Mode): string {
    if m.Between? then "" else m.text
  }

  /**
   * One character, by sections 2.2.1 (a backslash keeps the next character, and vanishes
   * with a newline), 2.2.2 (single quotes keep everything) and 2.3 (blanks separate
   * words) of the POSIX.1-2017 Shell Command Language, quotes removed.
   */
  function Feed(r: Reader, c: char): Reader {
    if r.Stop? then Stop else
    match r.mode
    case Quoted(text) => Reading(r.words, if c == '\'' then InWord(text) else Quoted(text + [c]))
    case Escaped(text, started) =>
      Reading(r.words, if c != '\n' then InWord(text + [c]) else if started then InWord(text) else Between)
    case Between => if c == '#' then Stop else FeedPlain(r.words, "", false, c)
    case InWord(text) => FeedPlain(r.words, text, true, c)
  }

  /** An unquoted character, in the word `text` if one is `started`. */
  function FeedPlain(words: seq<string>, text: string, started: bool, c: char): Reader {
    if c == '\'' then Reading(words, Quoted(text))
    else if c == '\\' then Reading(words, Escaped(text, started))
    else if IsBlank(c) then Reading(if started then words + [text] else words, Between)
    else if c in OPERATORS then Stop
    else Reading(words, InWord(text + [c]))
  }

  function Run(r: Reader, input: string): Reader
    decreases |input|
  {
    if input == "" then r else Run(Feed(r, input[0]), input[1..])
  }

  /** The words of a whole command line, if it is nothing but words. */
  function Words(input: string): Option<seq<string>> {
    match Run(START, input)
    case Reading(words, Between) => Some(words)
    case Reading(words, InWord(text)) => Some(words + [text])
    case _ => None
  }

  lemma {:induction false} RunAppend(r: Reader, a: string, b: string)
    ensures Run(r, a + b) == Run(Run(r, a), b)
    decreases |a|
  {
    if a == "" {
      assert a + b == b;
    } else {
      assert (a + b)[1..] == a[1..] + b;
      RunAppend(Feed(r, a[0]), a[1..], b);
    }
  }

  // --------------------------------------------------------------------- proofs

  /** Inside quotes, the body of a value reads as the value. */
  lemma {:induction false} BodyReads(words: seq<string>, text: string, value: string)
    ensures Run(Reading(words, Quoted(text)), Body(value)) == Reading(words, Quoted(text + value))
    decreases |value|
  {
    if value == "" {
      assert text + value == text;
    } else {
      var head := if value[0] == '\'' then "'\\''" else [value[0]];
      assert Body(value) == head + Body(value[1..]);
      RunAppend(Reading(words, Quoted(text)), head, Body(value[1..]));
      HeadReads(words, text, value[0]);
      BodyReads(words, text + [value[0]], value[1..]);
      assert text + [value[0]] + value[1..] == text + value;
    }
  }

  lemma HeadReads(words: seq<string>, text: string, c: char)
    ensures var head := if c == '\'' then "'\\''" else [c];
      Run(Reading(words, Quoted(text)), head) == Reading(words, Quoted(text + [c]))
  {
    var r := Reading(words, Quoted(text));
    if c == '\'' {
      var head := "'\\''";
      assert head[1..] == "\\''" && head[1..][1..] == "''" && head[1..][1..][1..] == "'" && head[1..][1..][1..][1..] == "";
      assert Feed(r, '\'') == Reading(words, InWord(text));
      assert Feed(Reading(words, InWord(text)), '\\') == Reading(words, Escaped(text, true));
      assert Feed(Reading(words, Escaped(text, true)), '\'') == Reading(words, InWord(text + ['\'']));
      assert Run(Reading(words, InWord(text + ['\''])), "'") == Reading(words, Quoted(text + ['\'']));
      assert Run(Reading(words, Escaped(text, true)), "''") == Reading(words, Quoted(text + ['\'']));
      assert Run(Reading(words, InWord(text)), "\\''") == Reading(words, Quoted(text + ['\'']));
    } else {
      assert [c][1..] == "";
    }
  }

  /** Wherever a word may stand or goes on, a quoted value adds exactly itself to it. */
  lemma QuoteReads(words: seq<string>, mode: Mode, value: string)
    requires mode.Between? || mode.InWord?
    ensures Run(Reading(words, mode), Quote(value)) == Reading(words, InWord(Text(mode) + value))
  {
    var r, text := Reading(words, mode), Text(mode);
    assert Quote(value) == "'" + (Body(value) + "'");
    RunAppend(r, "'", Body(value) + "'");
    assert "'"[1..] == "";
    assert Run(r, "'") == Reading(words, Quoted(text));
    RunAppend(Reading(words, Quoted(text)), Body(value), "'");
    BodyReads(words, text, value);
    assert Run(Reading(words, Quoted(text + value)), "'") == Reading(words, InWord(text + value));
  }

  /** A quoted value is one word, the value, whatever characters it holds. */
  lemma QuotedIsOneWord(value: string)
    ensures Words(Quote(value)) == Some([value])
  {
    QuoteReads([], Between, value);
    assert "" + value == value;
    assert [] + [value] == [value];
  }

  /** The values quoted, with a space between them. */
  function QuoteAll(values: seq<string>): string {
    if values == [] then "" else
    if |values| == 1 then Quote(values[0]) else
    QuoteAll(values[..|values| - 1]) + " " + Quote(values[|values| - 1])
  }

  /** A list of values quoted and joined with spaces reads as that list. */
  lemma {:induction false} QuotedListReads(values: seq<string>)
    ensures Words(QuoteAll(values)) == Some(values)
    ensures values != [] ==>
      Run(START, QuoteAll(values)) == Reading(values[..|values| - 1], InWord(values[|values| - 1]))
    decreases |values|
  {
    hide Quote;
    if |values| == 1 {
      QuotedIsOneWord(values[0]);
      QuoteReads([], Between, values[0]);
      assert "" + values[0] == values[0];
      assert values == [values[0]];
    } else if values != [] {
      var init, last := values[..|values| - 1], values[|values| - 1];
      QuotedListReads(init);
      assert init[..|init| - 1] + [init[|init| - 1]] == init;
      OneMoreQuoted(QuoteAll(init), init[..|init| - 1], init[|init| - 1], last);
      assert values == init + [last];
    }
  }

  lemma OneMoreQuoted(start: string, words: seq<string>, word: string, value: string)
    requires Run(START, start) == Reading(words, InWord(word))
    ensures Run(START, start + " " + Quote(value)) == Reading(words + [word], InWord(value))
  {
    hide Quote;
    assert start + " " + Quote(value) == start + (" " + Quote(value));
    RunAppend(START, start, " " + Quote(value));
    RunAppend(Reading(words, InWord(word)), " ", Quote(value));
    assert " "[1..] == "";
    QuoteReads(words + [word], Between, value);
    assert "" + value == value;
  }

  /**
   * A value quoted into a command changes how nothing around it is read: behind any words
   * `before` and a space, and in front of a space and any rest, it is one more word.
   */
  lemma QuotedInContext(before: string, words: seq<string>, value: string, after: string)
    requires Run(START, before + " ") == Reading(words, Between)
    ensures Run(START, before + " " + Quote(value) + " " + after) == Run(Reading(words + [value], Between), after)
  {
    hide Quote;
    var line := before + " " + Quote(value) + " " + after;
    assert line == (before + " ") + (Quote(value) + (" " + after));
    RunAppend(START, before + " ", Quote(value) + (" " + after));
    RunAppend(Reading(words, Between), Quote(value), " " + after);
    QuoteReads(words, Between, value);
    assert "" + value == value;
    RunAppend(Reading(words, InWord(value)), " ", after);
    assert " "[1..] == "";
  }

  /** Different values never quote to the same text. */
  lemma QuoteInjective(v: string, w: string)
    requires Quote(v) == Quote(w)
    ensures v == w
  {
    QuotedIsOneWord(v);
    QuotedIsOneWord(w);
    assert [v][0] == [w][0];
  }
}
