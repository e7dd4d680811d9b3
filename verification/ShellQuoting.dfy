/**
 The command line handed to `sh -c`: arguments are quoted into one string,
 and a toolchain wraps that string into a further, quoted, shell command.
 Quoting is checked against a tokeniser for token recognition and quote removal.
 */
module ShellQuoting {
  import opened Sequences

  // ----- The tokeniser

  datatype Mode = Unquoted | Escaped | Single | Double | DoubleEscaped | Failed

  /** The words so far, the word being read, and the quoting in force. */
  datatype Lexer = Lexer(words: seq<string>, word: Option<string>, mode: Mode)

  const START := Lexer([], None, Unquoted)

  /** Operators, expansions, patterns and comments; unquoted, the text is more than a list of words. */
  const SPECIAL: set<char> :=
    {'|', '&', ';', '<', '>', '(', ')', '$', '`', '*', '?', '[', '#', '~', '\n'}

  function Text(lexer: Lexer): string {
    if lexer.word.Some? then lexer.word.value else ""
  }

  function Push(lexer: Lexer, c: char, mode: Mode): Lexer {
    Lexer(lexer.words, Some(Text(lexer) + [c]), mode)
  }

  /** Quotes make a word even where they enclose nothing. */
  function Enter(lexer: Lexer, mode: Mode): Lexer {
    Lexer(lexer.words, Some(Text(lexer)), mode)
  }

  function EndWord(lexer: Lexer): Lexer {
    if lexer.word.Some? then Lexer(lexer.words + [lexer.word.value], None, lexer.mode) else lexer
  }

  function Next(lexer: Lexer, c: char): Lexer {
    match lexer.mode
    case Failed => lexer
    case Unquoted =>
      if c == ' ' || c == '\t' then EndWord(lexer)
      else if c == '\'' then Enter(lexer, Single)
      else if c == '"' then Enter(lexer, Double)
      else if c == '\\' then lexer.(mode := Escaped)
      else if c in SPECIAL then lexer.(mode := Failed)
      else Push(lexer, c, Unquoted)
    case Escaped =>
      if c == '\n' then lexer.(mode := Unquoted) else Push(lexer, c, Unquoted)
    case Single =>
      if c == '\'' then lexer.(mode := Unquoted) else Push(lexer, c, Single)
    case Double =>
      if c == '"' then lexer.(mode := Unquoted)
      else if c == '\\' then lexer.(mode := DoubleEscaped)
      else if c == '$' || c == '`' then lexer.(mode := Failed)
      else Push(lexer, c, Double)
    case DoubleEscaped =>
      if c == '\n' then lexer.(mode := Double)
      else if c in {'$', '`', '"', '\\'} then Push(lexer, c, Double)
      else Push(Push(lexer, '\\', Double), c, Double)
  }

  function Lex(lexer: Lexer, s: string): Lexer
    decreases |s|
  {
    if s == "" then lexer else Lex(Next(lexer, s[0]), s[1..])
  }

  /** The words of `s`; None when it holds unquoted special characters or an open quote. */
  function Tokenize(s: string): Option<seq<string>> {
    var end := Lex(START, s);
    if end.mode == Unquoted then Some(EndWord(end).words) else None
  }

  lemma {:induction false} LexAppend(lexer: Lexer, a: string, b: string)
    ensures Lex(lexer, a + b) == Lex(Lex(lexer, a), b)
    decreases |a|
  {
    if a == "" {
      assert a + b == b;
    } else {
      assert (a + b)[0] == a[0] && (a + b)[1..] == a[1..] + b;
      LexAppend(Next(lexer, a[0]), a[1..], b);
    }
  }

  lemma LexOne(lexer: Lexer, c: char)
    ensures Lex(lexer, [c]) == Next(lexer, c)
  {
    assert Lex(lexer, [c]) == Lex(Next(lexer, c), "");
  }

  /** Words read before stay in front and change nothing behind. */
  lemma {:induction false} LexBehind(read: seq<string>, lexer: Lexer, s: string)
    ensures var end := Lex(lexer, s);
            Lex(lexer.(words := read + lexer.words), s) == end.(words := read + end.words)
    decreases |s|
  {
    if s != "" {
      NextBehind(read, lexer, s[0]);
      LexBehind(read, Next(lexer, s[0]), s[1..]);
    }
  }

  lemma NextBehind(read: seq<string>, lexer: Lexer, c: char)
    ensures var next := Next(lexer, c);
            Next(lexer.(words := read + lexer.words), c) == next.(words := read + next.words)
  {
    if lexer.word.Some? {
      ConcatAssoc(read, lexer.words, [lexer.word.value]);
    }
  }

  /** A blank outside quotes separates: the words in front of it, then the words behind it. */
  lemma TokensApart(a: string, blank: char, b: string)
    requires Lex(START, a).mode == Unquoted && (blank == ' ' || blank == '\t')
    ensures Tokenize(a + [blank] + b)
         == if Tokenize(b).Some? then Some(Tokenize(a).value + Tokenize(b).value) else None
  {
    var front, end := EndWord(Lex(START, a)), Lex(START, b);
    LexAppend(START, a + [blank], b);
    LexAppend(START, a, [blank]);
    LexOne(Lex(START, a), blank);
    LexBehind(front.words, START, b);
    assert front.words + START.words == front.words;
    if end.word.Some? {
      ConcatAssoc(front.words, end.words, [end.word.value]);
    }
  }

  lemma {:induction false} LexFailed(lexer: Lexer, s: string)
    requires lexer.mode == Failed
    ensures Lex(lexer, s) == lexer
    decreases |s|
  {
    if s != "" {
      LexFailed(lexer, s[1..]);
    }
  }

  /** Pipes, lists, redirections, groups, expansions, patterns, comments, and the end of the line. */
  predicate IsOperator(c: char) {
    c in ['|', '&', ';', '<', '>', '(', ')', '$', '`', '*', '?', '[', '#', '~', '\n']
  }

  lemma OperatorFails(lexer: Lexer, c: char)
    requires lexer.mode == Unquoted
    requires IsOperator(c)
    ensures Next(lexer, c) == lexer.(mode := Failed)
  {
  }

  /** Text that would need more of the shell than words is refused. */
  lemma OperatorRefused(a: string, c: char, b: string)
    requires Lex(START, a).mode == Unquoted
    requires IsOperator(c)
    ensures Tokenize(a + [c] + b) == None
  {
    var lexer := Lex(START, a);
    LexAppend(START, a + [c], b);
    LexAppend(START, a, [c]);
    LexOne(lexer, c);
    OperatorFails(lexer, c);
    LexFailed(lexer.(mode := Failed), b);
  }

  const DOUBLE_QUOTE := '"'

  predicate PlainInDouble(s: string) {
    DOUBLE_QUOTE !in s && '\\' !in s && '$' !in s && '`' !in s
  }

  lemma {:induction false} LexDouble(lexer: Lexer, s: string)
    requires lexer.mode == Double && lexer.word.Some? && PlainInDouble(s)
    ensures Lex(lexer, s) == Lexer(lexer.words, Some(Text(lexer) + s), Double)
    decreases |s|
  {
    if s == "" {
      assert Text(lexer) + s == Text(lexer);
    } else {
      assert s[0] in s;
      LexDouble(Push(lexer, s[0], Double), s[1..]);
      assert (Text(lexer) + [s[0]]) + s[1..] == Text(lexer) + s;
    }
  }

  /** Plain text between double quotes is one word, blanks and all. */
  lemma DoubleQuoted(s: string)
    requires PlainInDouble(s)
    ensures Tokenize([DOUBLE_QUOTE] + s + [DOUBLE_QUOTE]) == Some([s])
  {
    var inside := Lexer([], Some(""), Double);
    LexAppend(START, ['"'] + s, ['"']);
    LexAppend(START, ['"'], s);
    LexOne(START, '"');
    LexDouble(inside, s);
    assert "" + s == s;
    LexOne(Lexer([], Some(s), Double), '"');
    OnlyWord(s, Unquoted);
  }

  lemma OnlyWord(word: string, mode: Mode)
    ensures EndWord(Lexer([], Some(word), mode)).words == [word]
  {
  }

  /** Outside quotes a backslash takes any character but a line feed as it is. */
  lemma BackslashEscapes(c: char)
    requires c != '\n'
    ensures Tokenize(['\\', c]) == Some([[c]])
  {
    LexOne(START, '\\');
    LexAppend(START, ['\\'], [c]);
    assert ['\\'] + [c] == ['\\', c];
    LexOne(START.(mode := Escaped), c);
    assert "" + [c] == [c];
    OnlyWord([c], Unquoted);
  }

  lemma OpensEscape()
    ensures Lex(START, [DOUBLE_QUOTE, '\\']) == Lexer([], Some(""), DoubleEscaped)
  {
    LexAppend(START, ['"'], ['\\']);
    assert ['"'] + ['\\'] == ['"', '\\'];
    LexOne(START, '"');
    LexOne(Lexer([], Some(""), Double), '\\');
  }

  function InDouble(c: char): string {
    if c in ['$', '`', '"', '\\'] then [c] else ['\\', c]
  }

  lemma EscapedInDouble(c: char)
    requires c != '\n'
    ensures Next(Lexer([], Some(""), DoubleEscaped), c) == Lexer([], Some(InDouble(c)), Double)
  {
    assert "" + [c] == [c] && ("" + ['\\']) + [c] == ['\\', c];
  }

  lemma ClosesDouble(word: string)
    ensures Lex(Lexer([], Some(word), Double), [DOUBLE_QUOTE]) == Lexer([], Some(word), Unquoted)
  {
    LexOne(Lexer([], Some(word), Double), '"');
  }

  /** Between double quotes it does so before four characters, and stands for itself before others. */
  lemma BackslashInDouble(c: char)
    requires c != '\n'
    ensures Tokenize([DOUBLE_QUOTE, '\\'] + ([c] + [DOUBLE_QUOTE])) == Some([InDouble(c)])
  {
    OpensEscape();
    LexAppend(START, ['"', '\\'], [c] + ['"']);
    LexAppend(Lexer([], Some(""), DoubleEscaped), [c], ['"']);
    LexOne(Lexer([], Some(""), DoubleEscaped), c);
    EscapedInDouble(c);
    ClosesDouble(InDouble(c));
    OnlyWord(InDouble(c), Unquoted);
  }

  // ----- Quoting

  predicate SafeChar(c: char) {
    'a' <= c <= 'z' || 'A' <= c <= 'Z' || '0' <= c <= '9' || c in {'_', '@', '%', '+', '=', ':', ',', '.', '/', '-'}
  }

  predicate Safe(s: string) {
    forall i :: 0 <= i < |s| ==> SafeChar(s[i])
  }

  /** Every single quote closes the quotes, appears escaped, and opens them again. */
  function EscapeQuotes(s: string): string {
    if s == "" then "" else (if s[0] == '\'' then ['\'', '\\', '\'', '\''] else [s[0]]) + EscapeQuotes(s[1..])
  }

  function QuoteArg(arg: string): string {
    if arg != "" && Safe(arg) then arg else ['\''] + EscapeQuotes(arg) + ['\'']
  }

  /** The quoted arguments with one space between them. */
  function ShellQuoteArgs(args: seq<string>): string {
    if args == [] then ""
    else if |args| == 1 then QuoteArg(args[0])
    else QuoteArg(args[0]) + ([' '] + ShellQuoteArgs(args[1..]))
  }

  lemma {:induction false} EscapingGrows(s: string)
    ensures |EscapeQuotes(s)| >= |s|
  {
    if s != "" {
      EscapingGrows(s[1..]);
    }
  }

  /** An argument goes unquoted exactly when it is not empty and all letters, digits and these ten. */
  lemma UnquotedExact(arg: string)
    ensures QuoteArg(arg) == arg
       <==> arg != "" && forall i :: 0 <= i < |arg| ==>
              || 'a' <= arg[i] <= 'z' || 'A' <= arg[i] <= 'Z' || '0' <= arg[i] <= '9'
              || arg[i] in "_@%+=:,./-"
  {
    EscapingGrows(arg);
    assert "_@%+=:,./-" == ['_', '@', '%', '+', '=', ':', ',', '.', '/', '-'];
  }

  lemma SafeIsPlain(lexer: Lexer, c: char)
    requires lexer.mode == Unquoted && SafeChar(c)
    ensures Next(lexer, c) == Push(lexer, c, Unquoted)
  {
  }

  lemma {:induction false} LexSafe(lexer: Lexer, s: string)
    requires lexer.mode == Unquoted && Safe(s) && s != ""
    ensures Lex(lexer, s) == Lexer(lexer.words, Some(Text(lexer) + s), Unquoted)
    decreases |s|
  {
    var next := Push(lexer, s[0], Unquoted);
    SafeIsPlain(lexer, s[0]);
    if |s| == 1 {
      assert s == [s[0]] && Lex(next, s[1..]) == next;
    } else {
      LexSafe(next, s[1..]);
      assert (Text(lexer) + [s[0]]) + s[1..] == Text(lexer) + s;
    }
  }

  /** Between single quotes every other character stands for itself. */
  lemma {:induction false} LexSingle(lexer: Lexer, s: string)
    requires lexer.mode == Single && lexer.word.Some? && '\'' !in s
    ensures Lex(lexer, s) == Lexer(lexer.words, Some(Text(lexer) + s), Single)
    decreases |s|
  {
    if s == "" {
      assert Text(lexer) + s == Text(lexer);
    } else {
      LexSingle(Push(lexer, s[0], Single), s[1..]);
      assert (Text(lexer) + [s[0]]) + s[1..] == Text(lexer) + s;
    }
  }

  /** Outside, then escaped, then inside again: one quote is added to the word. */
  lemma LexEscapedQuote(lexer: Lexer)
    requires lexer.mode == Single && lexer.word.Some?
    ensures Lex(lexer, ['\'', '\\', '\'', '\'']) == Push(lexer, '\'', Single)
  {
    var l1 := lexer.(mode := Unquoted);
    var l2 := lexer.(mode := Escaped);
    var l3 := Push(lexer, '\'', Unquoted);
    LexOne(lexer, '\'');
    LexOne(l1, '\\');
    LexOne(l2, '\'');
    LexOne(l3, '\'');
    LexAppend(lexer, ['\''], ['\\', '\'', '\'']);
    LexAppend(l1, ['\\'], ['\'', '\'']);
    LexAppend(l2, ['\''], ['\'']);
    assert ['\''] + ['\\', '\'', '\''] == ['\'', '\\', '\'', '\''];
    assert ['\\'] + ['\'', '\''] == ['\\', '\'', '\''];
    assert ['\''] + ['\''] == ['\'', '\''];
  }

  /** Between single quotes, escaped text reads as the original text. */
  lemma {:induction false} LexEscaped(lexer: Lexer, s: string)
    requires lexer.mode == Single && lexer.word.Some?
    ensures Lex(lexer, EscapeQuotes(s)) == Lexer(lexer.words, Some(Text(lexer) + s), Single)
    decreases |s|
  {
    if s == "" {
      assert Text(lexer) + s == Text(lexer);
    } else {
      var first := if s[0] == '\'' then ['\'', '\\', '\'', '\''] else [s[0]];
      var next := Push(lexer, s[0], Single);
      assert Lex(lexer, first) == next by {
        if s[0] == '\'' {
          LexEscapedQuote(lexer);
        } else {
          assert first[1..] == "" && Next(lexer, s[0]) == next;
        }
      }
      LexAppend(lexer, first, EscapeQuotes(s[1..]));
      LexEscaped(next, s[1..]);
      assert (Text(lexer) + [s[0]]) + s[1..] == Text(lexer) + s;
    }
  }

  /** A quoted text becomes one word, whatever is in it. */
  lemma LexQuoted(words: seq<string>, s: string)
    ensures Lex(Lexer(words, None, Unquoted), ['\''] + EscapeQuotes(s) + ['\'']) == Lexer(words, Some(s), Unquoted)
  {
    LexIntroduced(words, "", s);
    assert ['\''] + "" + EscapeQuotes(s) + ['\''] == ['\''] + EscapeQuotes(s) + ['\''];
    assert "" + s == s;
  }

  lemma LexIntroduced(words: seq<string>, intro: string, s: string)
    requires '\'' !in intro
    ensures Lex(Lexer(words, None, Unquoted), ['\''] + intro + EscapeQuotes(s) + ['\''])
         == Lexer(words, Some(intro + s), Unquoted)
  {
    var start, quoted := Lexer(words, None, Unquoted), Lexer(words, Some(""), Single);
    LexAppend(start, ['\''] + intro + EscapeQuotes(s), ['\'']);
    LexAppend(start, ['\''] + intro, EscapeQuotes(s));
    LexAppend(start, ['\''], intro);
    LexOne(start, '\'');
    LexSingle(quoted, intro);
    assert "" + intro == intro;
    var inside := Lexer(words, Some(intro), Single);
    LexEscaped(inside, s);
    var full := Lexer(words, Some(intro + s), Single);
    LexOne(full, '\'');
  }

  lemma LexArg(words: seq<string>, arg: string)
    ensures Lex(Lexer(words, None, Unquoted), QuoteArg(arg)) == Lexer(words, Some(arg), Unquoted)
  {
    if arg != "" && Safe(arg) {
      LexSafe(Lexer(words, None, Unquoted), arg);
      assert "" + arg == arg;
    } else {
      LexQuoted(words, arg);
    }
  }

  lemma LexSpace(words: seq<string>, word: string)
    ensures Lex(Lexer(words, Some(word), Unquoted), [' ']) == Lexer(words + [word], None, Unquoted)
  {
    LexOne(Lexer(words, Some(word), Unquoted), ' ');
  }

  lemma LexArgThenSpace(words: seq<string>, arg: string, rest: string)
    ensures Lex(Lexer(words, None, Unquoted), QuoteArg(arg) + ([' '] + rest))
         == Lex(Lexer(words + [arg], None, Unquoted), rest)
  {
    LexAppend(Lexer(words, None, Unquoted), QuoteArg(arg), [' '] + rest);
    LexArg(words, arg);
    LexAppend(Lexer(words, Some(arg), Unquoted), [' '], rest);
    LexSpace(words, arg);
  }

  lemma {:induction false} LexArgs(words: seq<string>, args: seq<string>)
    ensures var end := Lex(Lexer(words, None, Unquoted), ShellQuoteArgs(args));
            end.mode == Unquoted && EndWord(end).words == words + args
    decreases |args|
  {
    if args == [] {
      assert words + args == words;
    } else if |args| == 1 {
      LexArg(words, args[0]);
      assert args == [args[0]];
    } else {
      LexArgThenSpace(words, args[0], ShellQuoteArgs(args[1..]));
      LexArgs(words + [args[0]], args[1..]);
      ConcatAssoc(words, [args[0]], args[1..]);
      assert [args[0]] + args[1..] == args;
    }
  }

  /** Tokenising the quoted arguments gives back the arguments, for every list. */
  lemma QuotedArgsRoundTrip(args: seq<string>)
    ensures Tokenize(ShellQuoteArgs(args)) == Some(args)
  {
    LexArgs([], args);
    assert [] + args == args;
  }

  /** A safe first word in front of a command adds just that word. */
  lemma PrefixedTokens(first: string, command: string, words: seq<string>)
    requires Safe(first) && first != ""
    requires var end := Lex(Lexer([first], None, Unquoted), command);
             end.mode == Unquoted && EndWord(end).words == [first] + words
    ensures Tokenize(first + ([' '] + command)) == Some([first] + words)
  {
    LexArgThenSpace([], first, command);
    assert [] + [first] == [first];
  }

  /** Behind a safe first word, a text has the words it has alone, or none if it has none alone. */
  lemma TokensBehind(first: string, s: string)
    requires Safe(first) && first != ""
    ensures Tokenize(first + ([' '] + s))
         == if Tokenize(s).Some? then Some([first] + Tokenize(s).value) else None
  {
    LexArgThenSpace([], first, s);
    assert [] + [first] == [first] && [first] + START.words == [first];
    LexBehind([first], START, s);
    var end := Lex(START, s);
    assert Lex(Lexer([first], None, Unquoted), s) == end.(words := [first] + end.words);
    if end.word.Some? {
      ConcatAssoc([first], end.words, [end.word.value]);
    }
  }
}
