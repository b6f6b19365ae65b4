/** Shell quoting against the shell's own grammar.  The lexer follows sections 2.2 and 2.3 of the
    POSIX Shell Command Language for one simple command: quoting, blanks, and `"$NAME"`.  Anything
    that would be an operator, a comment, an unquoted expansion or a pattern makes it fail. */
module Shell {
  import opened Wrappers
  import opened Text

  /** A piece of a word: a character taken literally, or a quoted parameter expansion. */
  datatype Part = Lit(c: char) | Param(name: string)

  type Word = seq<Part>

  datatype Mode =
    | Between           // no word begun
    | Unquoted          // inside a word
    | Escaped           // after an unquoted backslash
    | SingleQuoted
    | DoubleQuoted
    | DoubleEscaped     // after a backslash inside double quotes
    | DoubleParam(name: string)
    | Unsupported

  datatype Lexer = Lexer(mode: Mode, word: Word, words: seq<Word>)

  predicate IsBlank(c: char) { c == ' ' || c == '\t' }

  predicate IsNameStart(c: char) { IsUpper(c) || IsLower(c) || c == '_' }

  predicate IsNameChar(c: char) { IsNameStart(c) || IsDigit(c) }

  /** Unquoted, these end a command, expand, or match files. */
  predicate IsSpecial(c: char) {
    c in ['|', '&', ';', '<', '>', '(', ')', '$', '`', '*', '?', '[', '~', '\n']
  }

  function Fail(lx: Lexer): Lexer {
    lx.(mode := Unsupported)
  }

  function StepUnquoted(lx: Lexer, c: char): Lexer {
    if IsBlank(c) then
      (if lx.mode.Between? then lx else Lexer(Between, [], lx.words + [lx.word]))
    else if c == '\'' then lx.(mode := SingleQuoted)
    else if c == '"' then lx.(mode := DoubleQuoted)
    else if c == '\\' then lx.(mode := Escaped)
    else if IsSpecial(c) || (c == '#' && lx.mode.Between?) then Fail(lx)
    else lx.(mode := Unquoted, word := lx.word + [Lit(c)])
  }

  function StepDouble(lx: Lexer, c: char): Lexer {
    if c == '"' then lx.(mode := Unquoted)
    else if c == '\\' then lx.(mode := DoubleEscaped)
    else if c == '$' then lx.(mode := DoubleParam([]))
    else if c == '`' then Fail(lx)
    else lx.(word := lx.word + [Lit(c)])
  }

  function Step(lx: Lexer, c: char): Lexer {
    match lx.mode
    case Between | Unquoted => StepUnquoted(lx, c)
    case Escaped =>
      if c == '\n' then Fail(lx) else lx.(mode := Unquoted, word := lx.word + [Lit(c)])
    case SingleQuoted =>
      if c == '\'' then lx.(mode := Unquoted) else lx.(word := lx.word + [Lit(c)])
    case DoubleQuoted => StepDouble(lx, c)
    case DoubleEscaped =>
      if c in ['$', '`', '"', '\\'] then lx.(mode := DoubleQuoted, word := lx.word + [Lit(c)])
      else if c == '\n' then lx.(mode := DoubleQuoted)
      else lx.(mode := DoubleQuoted, word := lx.word + [Lit('\\'), Lit(c)])
    case DoubleParam(name) =>
      if (if name == [] then IsNameStart(c) else IsNameChar(c)) then lx.(mode := DoubleParam(name + [c]))
      else if name == [] then Fail(lx)
      else StepDouble(lx.(mode := DoubleQuoted, word := lx.word + [Param(name)]), c)
    case Unsupported => lx
  }

  function Run(lx: Lexer, s: string): Lexer
    decreases |s|
  {
    if s == [] then lx else Run(Step(lx, s[0]), s[1..])
  }

  function Finish(lx: Lexer): Option<seq<Word>> {
    match lx.mode
    case Between => Some(lx.words)
    case Unquoted => Some(lx.words + [lx.word])
    case _ => None
  }

  const START: Lexer := Lexer(Between, [], [])

  /** The words a command line splits into. */
  function Words(s: string): Option<seq<Word>> {
    Finish(Run(START, s))
  }

  function Lits(s: string): Word {
    seq(|s|, i requires 0 <= i < |s| => Lit(s[i]))
  }

  // ------------------------------------------------------------------ composition

  lemma {:induction false} RunAppend(lx: Lexer, a: string, b: string)
    ensures Run(lx, a + b) == Run(Run(lx, a), b)
    decreases |a|
  {
    if a == [] {
      assert a + b == b;
    } else {
      assert (a + b)[1..] == a[1..] + b;
      RunAppend(Step(lx, a[0]), a[1..], b);
    }
  }

  function Behind(lx: Lexer, before: seq<Word>): Lexer {
    lx.(words := before + lx.words)
  }

  lemma StepBehind(lx: Lexer, before: seq<Word>, c: char)
    ensures Step(Behind(lx, before), c) == Behind(Step(lx, c), before)
  {
    assert before + (lx.words + [lx.word]) == before + lx.words + [lx.word];
  }

  /** Words already read have no influence on the rest. */
  lemma {:induction false} RunBehind(lx: Lexer, before: seq<Word>, s: string)
    ensures Run(Behind(lx, before), s) == Behind(Run(lx, s), before)
    decreases |s|
  {
    if s != [] {
      StepBehind(lx, before, s[0]);
      RunBehind(Step(lx, s[0]), before, s[1..]);
    }
  }

  lemma {:induction false} BetweenHasNoWord(lx: Lexer, s: string)
    requires lx.mode.Between? ==> lx.word == []
    ensures Run(lx, s).mode.Between? ==> Run(lx, s).word == []
    decreases |s|
  {
    if s != [] {
      BetweenHasNoWord(Step(lx, s[0]), s[1..]);
    }
  }

  /** Two complete command pieces joined by a space give the words of the first, then those of the
      second. */
  lemma JoinedWords(a: string, b: string)
    requires Words(a).Some?
    ensures Words(a + " " + b)
         == if Words(b).Some? then Some(Words(a).value + Words(b).value) else None
  {
    var mid := Run(START, a);
    RunAppend(START, a + " ", b);
    RunAppend(START, a, " ");
    assert " "[1..] == [];
    assert Run(mid, " ") == Run(Step(mid, ' '), []) == Step(mid, ' ');
    BetweenHasNoWord(START, a);
    var words := Words(a).value;
    assert Step(mid, ' ') == Lexer(Between, [], words) == Behind(START, words) by {
      assert words + [] == words;
    }
    RunBehind(START, words, b);
    var end := Run(START, b);
    assert words + (end.words + [end.word]) == words + end.words + [end.word];
  }

  // ------------------------------------------------------------------ quoting

  /** How a single quote is written inside single quotes. */
  datatype Style = DoubleQuoteStyle | BackslashStyle

  function QuoteEscape(style: Style): string {
    if style.DoubleQuoteStyle? then "'\"'\"'" else "'\\''"
  }

  function Replaced(s: string, style: Style): string {
    if s == [] then []
    else (if s[0] == '\'' then QuoteEscape(style) else [s[0]]) + Replaced(s[1..], style)
  }

  function SingleQuote(s: string, style: Style): string {
    "'" + Replaced(s, style) + "'"
  }

  lemma RunOne(lx: Lexer, c: char)
    ensures Run(lx, [c]) == Step(lx, c)
  {
    assert [c][1..] == [];
  }

  lemma RunEscape(lx: Lexer, style: Style)
    requires lx.mode == SingleQuoted
    ensures Run(lx, QuoteEscape(style)) == lx.(word := lx.word + [Lit('\'')])
  {
    var quoted := lx.(word := lx.word + [Lit('\'')]);
    if style.DoubleQuoteStyle? {
      assert QuoteEscape(style) == (((['\''] + ['"']) + ['\'']) + ['"']) + ['\''];
      RunAppend(lx, ((['\''] + ['"']) + ['\'']) + ['"'], ['\'']);
      RunAppend(lx, (['\''] + ['"']) + ['\''], ['"']);
      RunAppend(lx, ['\''] + ['"'], ['\'']);
      RunAppend(lx, ['\''], ['"']);
      RunOne(lx, '\'');
      RunOne(lx.(mode := Unquoted), '"');
      RunOne(lx.(mode := DoubleQuoted), '\'');
      RunOne(quoted.(mode := DoubleQuoted), '"');
      RunOne(quoted.(mode := Unquoted), '\'');
    } else {
      assert QuoteEscape(style) == ((['\''] + ['\\']) + ['\'']) + ['\''];
      RunAppend(lx, (['\''] + ['\\']) + ['\''], ['\'']);
      RunAppend(lx, ['\''] + ['\\'], ['\'']);
      RunAppend(lx, ['\''], ['\\']);
      RunOne(lx, '\'');
      RunOne(lx.(mode := Unquoted), '\\');
      RunOne(lx.(mode := Escaped), '\'');
      RunOne(quoted.(mode := Unquoted), '\'');
    }
  }

  lemma {:induction false} RunReplaced(lx: Lexer, s: string, style: Style)
    requires lx.mode == SingleQuoted
    ensures Run(lx, Replaced(s, style)) == lx.(word := lx.word + Lits(s))
    decreases |s|
  {
    if s == [] {
      assert lx.word + Lits(s) == lx.word;
    } else {
      var head := if s[0] == '\'' then QuoteEscape(style) else [s[0]];
      var next := lx.(word := lx.word + [Lit(s[0])]);
      RunAppend(lx, head, Replaced(s[1..], style));
      if s[0] == '\'' {
        RunEscape(lx, style);
      } else {
        RunOne(lx, s[0]);
      }
      RunReplaced(next, s[1..], style);
      assert lx.word + [Lit(s[0])] + Lits(s[1..]) == lx.word + Lits(s);
    }
  }

  /** Quoting inside any unquoted context appends exactly the string to the current word. */
  lemma RunQuoted(lx: Lexer, s: string, style: Style)
    requires lx.mode.Between? || lx.mode.Unquoted?
    ensures Run(lx, SingleQuote(s, style)) == lx.(mode := Unquoted, word := lx.word + Lits(s))
  {
    RunAppend(lx, "'" + Replaced(s, style), "'");
    RunAppend(lx, "'", Replaced(s, style));
    RunOne(lx, '\'');
    RunReplaced(lx.(mode := SingleQuoted), s, style);
    RunOne(lx.(mode := SingleQuoted, word := lx.word + Lits(s)), '\'');
  }

  /** For every string and both ways of writing a quote, the shell reads back one word, the string. */
  lemma QuotedIsOneWord(s: string, style: Style)
    ensures Words(SingleQuote(s, style)) == Some([Lits(s)])
  {
    RunQuoted(START, s, style);
    assert [] + Lits(s) == Lits(s);
    assert [] + [Lits(s)] == [Lits(s)];
  }

  // ------------------------------------------------------------------ plain text and "$NAME"

  predicate PlainChar(c: char) {
    IsAlphanumeric(c) || c == '-' || c == '_' || c == '/' || c == '.'
  }

  /** Words of plain characters, separated by spaces. */
  predicate Plain(s: string) {
    forall c | c in s :: PlainChar(c) || c == ' '
  }

  lemma {:induction false} RunPlain(lx: Lexer, s: string)
    requires Plain(s) && (lx.mode.Between? || lx.mode.Unquoted?)
    ensures Run(lx, s).mode.Between? || Run(lx, s).mode.Unquoted?
    decreases |s|
  {
    if s != [] {
      assert s[0] in s;
      assert forall c | c in s[1..] :: c in s;
      RunPlain(Step(lx, s[0]), s[1..]);
    }
  }

  predicate PlainWord(s: string) {
    s != [] && forall c | c in s :: PlainChar(c)
  }

  lemma {:induction false} RunPlainWord(lx: Lexer, s: string)
    requires (forall c | c in s :: PlainChar(c)) && (lx.mode.Unquoted? || (lx.mode.Between? && s != []))
    ensures Run(lx, s) == lx.(mode := Unquoted, word := lx.word + Lits(s))
    decreases |s|
  {
    if s == [] {
      assert lx.word + Lits(s) == lx.word;
    } else {
      assert s[0] in s;
      assert forall c | c in s[1..] :: c in s;
      RunPlainWord(Step(lx, s[0]), s[1..]);
      assert lx.word + [Lit(s[0])] + Lits(s[1..]) == lx.word + Lits(s);
    }
  }

  lemma PlainWordIsOneWord(s: string)
    requires PlainWord(s)
    ensures Words(s) == Some([Lits(s)])
  {
    RunPlainWord(START, s);
    assert [] + Lits(s) == Lits(s);
    assert [] + [Lits(s)] == [Lits(s)];
  }

  predicate IsName(name: string) {
    name != [] && IsNameStart(name[0]) && forall c | c in name :: IsNameChar(c)
  }

  lemma {:induction false} RunName(lx: Lexer, begun: string, more: string)
    requires lx.mode == DoubleParam(begun) && IsName(begun + more)
    ensures Run(lx, more) == lx.(mode := DoubleParam(begun + more))
    decreases |more|
  {
    if more == [] {
      assert begun + more == begun;
    } else {
      assert more[0] in begun + more;
      assert begun == [] ==> (begun + more)[0] == more[0];
      assert begun + [more[0]] + more[1..] == begun + more;
      RunName(lx.(mode := DoubleParam(begun + [more[0]])), begun + [more[0]], more[1..]);
    }
  }

  /** `"$NAME"` is one word whatever the variable holds. */
  lemma ParamIsOneWord(name: string)
    requires IsName(name)
    ensures Words("\"$" + name + "\"") == Some([[Param(name)]])
  {
    var open := START.(mode := DoubleParam([]));
    RunAppend(START, "\"$" + name, "\"");
    RunAppend(START, "\"$", name);
    RunAppend(START, "\"", "$");
    assert "\"" + "$" == "\"$";
    RunOne(START, '"');
    RunOne(START.(mode := DoubleQuoted), '$');
    assert [] + name == name;
    RunName(open, [], name);
    RunOne(open.(mode := DoubleParam(name)), '"');
    assert [] + [Param(name)] == [Param(name)];
    assert [] + [[Param(name)]] == [[Param(name)]];
  }
}
