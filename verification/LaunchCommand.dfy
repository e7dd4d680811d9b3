/**
 The command that is launched: quoted arguments or a command line, behind
 `exec` or inside a toolchain's own shell.
 */
module LaunchCommand {
  import opened Sequences
  import opened ShellQuoting

  // ----- Toolchains

  datatype Toolchain = Toolchain(name: string, commandTemplate: string)

  const MISE := Toolchain("mise", "mise exec -- sh -c '{cmd}'")
  const ASDF := Toolchain("asdf", "asdf exec sh -c '{cmd}'")
  const NVM := Toolchain("nvm", "bash -c 'source \"$NVM_DIR/nvm.sh\" && {cmd}'")
  const RBENV := Toolchain("rbenv", "rbenv exec sh -c '{cmd}'")
  const PYENV := Toolchain("pyenv", "pyenv exec sh -c '{cmd}'")
  const NODENV := Toolchain("nodenv", "nodenv exec sh -c '{cmd}'")
  const JENV := Toolchain("jenv", "jenv exec sh -c '{cmd}'")
  const TFENV := Toolchain("tfenv", "tfenv exec sh -c '{cmd}'")
  const GOENV := Toolchain("goenv", "goenv exec sh -c '{cmd}'")
  const RUSTUP := Toolchain("rustup", "rustup run stable sh -c '{cmd}'")

  const ALL: seq<Toolchain> := [MISE, ASDF, NVM, RBENV, PYENV, NODENV, JENV, TFENV, GOENV, RUSTUP]

  function ToAsciiLower(c: char): char {
    if 'A' <= c <= 'Z' then c - 'A' + 'a' else c
  }

  predicate EqIgnoreAsciiCase(a: string, b: string) {
    |a| == |b| && forall i :: 0 <= i < |a| ==> ToAsciiLower(a[i]) == ToAsciiLower(b[i])
  }

  function FindNamed(all: seq<Toolchain>, s: string): (r: Option<Toolchain>)
    ensures r.Some? ==> r.value in all && EqIgnoreAsciiCase(r.value.name, s)
    ensures r.None? <==> forall t :: t in all ==> !EqIgnoreAsciiCase(t.name, s)
  {
    if all == [] then None
    else if EqIgnoreAsciiCase(all[0].name, s) then Some(all[0])
    else FindNamed(all[1..], s)
  }

  function Parse(s: string): Option<Toolchain> {
    FindNamed(ALL, s)
  }

  /** Names are equal up to the case of ASCII letters, which are 32 apart. */
  lemma CaseExact(a: string, b: string)
    ensures EqIgnoreAsciiCase(a, b)
       <==> |a| == |b| && forall i :: 0 <= i < |a| ==>
              || a[i] == b[i]
              || ('A' <= a[i] <= 'Z' && b[i] as int == a[i] as int + 32)
              || ('A' <= b[i] <= 'Z' && a[i] as int == b[i] as int + 32)
  {
  }

  lemma {:induction false} FindFirst(all: seq<Toolchain>, s: string, i: nat)
    requires i < |all| && EqIgnoreAsciiCase(all[i].name, s)
    requires forall j :: 0 <= j < i ==> !EqIgnoreAsciiCase(all[j].name, s)
    ensures FindNamed(all, s) == Some(all[i])
    decreases i
  {
    if i > 0 {
      FindFirst(all[1..], s, i - 1);
    }
  }

  /** The first letter and the length tell the names apart. */
  lemma NamesDiffer(i: nat, j: nat)
    requires i < j < |ALL|
    ensures |ALL[i].name| > 0 && |ALL[j].name| > 0
    ensures |ALL[i].name| != |ALL[j].name| || ToAsciiLower(ALL[i].name[0]) != ToAsciiLower(ALL[j].name[0])
  {
  }

  /** Each of the ten toolchains is found under its name in any mix of cases. */
  lemma ParseNamed(i: nat, s: string)
    requires i < |ALL| && EqIgnoreAsciiCase(ALL[i].name, s)
    ensures Parse(s) == Some(ALL[i])
  {
    forall j | 0 <= j < i ensures !EqIgnoreAsciiCase(ALL[j].name, s) {
      NamesDiffer(j, i);
    }
    FindFirst(ALL, s, i);
  }

  const PLACEHOLDER := ['{', 'c', 'm', 'd', '}']

  /** Every occurrence of `pattern`, from left to right, is replaced. */
  function Replace(s: string, pattern: string, replacement: string): string
    requires pattern != ""
    decreases |s|
  {
    if s == "" then ""
    else if pattern <= s then replacement + Replace(s[|pattern|..], pattern, replacement)
    else [s[0]] + Replace(s[1..], pattern, replacement)
  }

  function WrapCommand(t: Toolchain, command: string): string {
    Replace(t.commandTemplate, PLACEHOLDER, EscapeQuotes(command))
  }

  lemma ReplaceSkips(s: string, replacement: string)
    requires s != "" && s[0] != '{'
    ensures Replace(s, PLACEHOLDER, replacement) == [s[0]] + Replace(s[1..], PLACEHOLDER, replacement)
  {
    assert PLACEHOLDER[0] == '{';
  }

  lemma {:induction false} ReplaceLater(before: string, s: string, replacement: string)
    requires '{' !in before
    ensures Replace(before + s, PLACEHOLDER, replacement) == before + Replace(s, PLACEHOLDER, replacement)
    decreases |before|
  {
    var replaced := Replace(s, PLACEHOLDER, replacement);
    if before == "" {
      assert before + s == s && before + replaced == replaced;
    } else {
      ReplaceSkips(before + s, replacement);
      assert (before + s)[0] == before[0] && (before + s)[1..] == before[1..] + s;
      ReplaceLater(before[1..], s, replacement);
      ConcatAssoc([before[0]], before[1..], replaced);
      assert [before[0]] + before[1..] == before;
    }
  }

  lemma ReplaceHere(replacement: string)
    ensures Replace(PLACEHOLDER + ['\''], PLACEHOLDER, replacement) == replacement + ['\'']
  {
    assert PLACEHOLDER <= PLACEHOLDER + ['\''];
    assert (PLACEHOLDER + ['\''])[|PLACEHOLDER|..] == ['\''];
    assert !(PLACEHOLDER <= ['\'']);
    assert Replace(['\''], PLACEHOLDER, replacement) == ['\''] + Replace("", PLACEHOLDER, replacement);
  }

  // ----- Every template has the same shape

  /** Plain words, then one single-quoted word that ends in the command. */
  datatype Shape = Shape(words: seq<string>, intro: string)

  function Spread(words: seq<string>, tail: string): string {
    if words == [] then tail else words[0] + ([' '] + Spread(words[1..], tail))
  }

  predicate PlainWords(words: seq<string>) {
    forall i :: 0 <= i < |words| ==> words[i] != "" && Safe(words[i])
  }

  predicate HasShape(t: Toolchain, shape: Shape) {
    && t.commandTemplate == Spread(shape.words, ['\''] + shape.intro + (PLACEHOLDER + ['\'']))
    && PlainWords(shape.words)
    && '{' !in shape.intro && '\'' !in shape.intro
  }

  const NVM_INTRO := "source \"$NVM_DIR/nvm.sh\" && "

  /** The shapes of `ALL`, in the same order. */
  const SHAPES: seq<Shape> := [
    Shape(["mise", "exec", "--", "sh", "-c"], ""),
    ExecShape("asdf"),
    Shape(["bash", "-c"], NVM_INTRO),
    ExecShape("rbenv"),
    ExecShape("pyenv"),
    ExecShape("nodenv"),
    ExecShape("jenv"),
    ExecShape("tfenv"),
    ExecShape("goenv"),
    Shape(["rustup", "run", "stable", "sh", "-c"], "")]

  function ExecShape(name: string): Shape {
    Shape([name, "exec", "sh", "-c"], "")
  }

  lemma {:induction false} ReplaceBehind(words: seq<string>, tail: string, replacement: string)
    requires PlainWords(words)
    ensures Replace(Spread(words, tail), PLACEHOLDER, replacement)
         == Spread(words, Replace(tail, PLACEHOLDER, replacement))
    decreases |words|
  {
    if words != [] {
      var rest := Spread(words[1..], tail);
      ReplaceLater(words[0], [' '] + rest, replacement);
      ReplaceLater([' '], rest, replacement);
      ReplaceBehind(words[1..], tail, replacement);
    }
  }

  lemma {:induction false} LexSpread(read: seq<string>, words: seq<string>, tail: string)
    requires PlainWords(words)
    ensures Lex(Lexer(read, None, Unquoted), Spread(words, tail)) == Lex(Lexer(read + words, None, Unquoted), tail)
    decreases |words|
  {
    if words == [] {
      assert read + words == read;
    } else {
      LexArgThenSpace(read, words[0], Spread(words[1..], tail));
      LexSpread(read + [words[0]], words[1..], tail);
      ConcatAssoc(read, [words[0]], words[1..]);
      assert [words[0]] + words[1..] == words;
    }
  }

  /** What a template of this shape becomes. */
  lemma WrappedShape(t: Toolchain, shape: Shape, command: string)
    requires HasShape(t, shape)
    ensures WrapCommand(t, command) == Spread(shape.words, ['\''] + shape.intro + EscapeQuotes(command) + ['\''])
  {
    var escaped := EscapeQuotes(command);
    ReplaceBehind(shape.words, ['\''] + shape.intro + (PLACEHOLDER + ['\'']), escaped);
    ReplaceLater(['\''] + shape.intro, PLACEHOLDER + ['\''], escaped);
    ReplaceHere(escaped);
    ConcatAssoc(['\''] + shape.intro, escaped, ['\'']);
  }

  lemma SpreadTwo(a: string, b: string, tail: string)
    ensures Spread([a, b], tail) == a + ([' '] + (b + ([' '] + tail)))
  {
    assert [a, b][1..] == [b] && [b][1..] == [];
    assert Spread([b], tail) == b + ([' '] + Spread([], tail));
  }

  lemma SpreadFour(a: string, b: string, c: string, d: string, tail: string)
    ensures Spread([a, b, c, d], tail) == a + ([' '] + (b + ([' '] + (c + ([' '] + (d + ([' '] + tail)))))))
  {
    assert [a, b, c, d][1..] == [b, c, d] && [b, c, d][1..] == [c, d];
    SpreadTwo(c, d, tail);
    assert Spread([b, c, d], tail) == b + ([' '] + Spread([c, d], tail));
  }

  lemma SpreadFive(a: string, b: string, c: string, d: string, e: string, tail: string)
    ensures Spread([a, b, c, d, e], tail) == a + ([' '] + Spread([b, c, d, e], tail))
  {
    assert [a, b, c, d, e][1..] == [b, c, d, e];
  }

  const QUOTED_PLACEHOLDER := ['\'', '{', 'c', 'm', 'd', '}', '\'']

  /** The seven toolchains that differ in their name only. */
  lemma ExecTemplate(t: Toolchain)
    requires t.commandTemplate
          == t.name + ([' '] + ("exec" + ([' '] + ("sh" + ([' '] + ("-c" + ([' '] + QUOTED_PLACEHOLDER)))))))
    requires t.name != "" && Safe(t.name)
    ensures HasShape(t, ExecShape(t.name))
  {
    SpreadFour(t.name, "exec", "sh", "-c", QUOTED_PLACEHOLDER);
    assert ['\''] + "" + (PLACEHOLDER + ['\'']) == QUOTED_PLACEHOLDER;
  }

  lemma FiveWordTemplate(t: Toolchain, a: string, b: string, c: string, d: string, e: string)
    requires t.commandTemplate
          == a + ([' '] + (b + ([' '] + (c + ([' '] + (d + ([' '] + (e + ([' '] + QUOTED_PLACEHOLDER)))))))))
    requires PlainWords([a, b, c, d, e])
    ensures HasShape(t, Shape([a, b, c, d, e], ""))
  {
    SpreadFive(a, b, c, d, e, QUOTED_PLACEHOLDER);
    SpreadFour(b, c, d, e, QUOTED_PLACEHOLDER);
    assert ['\''] + "" + (PLACEHOLDER + ['\'']) == QUOTED_PLACEHOLDER;
  }

  lemma IntroducedTemplate(t: Toolchain, a: string, b: string, intro: string)
    requires t.commandTemplate == (a + ([' '] + (b + ([' '] + ['\''])))) + (intro + (PLACEHOLDER + ['\'']))
    requires PlainWords([a, b]) && '{' !in intro && '\'' !in intro
    ensures HasShape(t, Shape([a, b], intro))
  {
    var rest := intro + (PLACEHOLDER + ['\'']);
    var tail := ['\''] + intro + (PLACEHOLDER + ['\'']);
    SpreadTwo(a, b, tail);
    ConcatAssoc(['\''], intro, PLACEHOLDER + ['\'']);
    ConcatAssoc(a, [' '] + (b + ([' '] + ['\''])), rest);
    ConcatAssoc([' '], b + ([' '] + ['\'']), rest);
    ConcatAssoc(b, [' '] + ['\''], rest);
    ConcatAssoc([' '], ['\''], rest);
  }

  lemma MiseTemplate()
    ensures MISE.commandTemplate
         == "mise" + ([' '] + ("exec" + ([' '] + ("--" + ([' '] + ("sh" + ([' '] + ("-c" + ([' ']
            + QUOTED_PLACEHOLDER)))))))))
  {
  }

  lemma PlainPrefixes()
    ensures PlainWords(["mise", "exec", "--", "sh", "-c"])
    ensures PlainWords(["rustup", "run", "stable", "sh", "-c"])
  {
  }

  lemma RustupTemplate()
    ensures RUSTUP.commandTemplate
         == "rustup" + ([' '] + ("run" + ([' '] + ("stable" + ([' '] + ("sh" + ([' '] + ("-c" + ([' ']
            + QUOTED_PLACEHOLDER)))))))))
  {
  }

  lemma NvmTemplate()
    ensures "bash -c 'source \"$NVM_DIR/nvm.sh\" && {cmd}'"
         == "bash -c '" + ("source \"$NVM_DIR/nvm.sh\" && " + "{cmd}'")
  {
  }

  lemma NvmParts()
    ensures "bash -c '" == "bash" + ([' '] + ("-c" + ([' '] + ['\''])))
    ensures "{cmd}'" == PLACEHOLDER + ['\'']
    ensures PlainWords(["bash", "-c"]) && '{' !in NVM_INTRO && '\'' !in NVM_INTRO
  {
  }

  lemma AsdfShape()
    ensures HasShape(ASDF, ExecShape("asdf"))
  {
    ExecTemplate(ASDF);
  }

  lemma RbenvShape()
    ensures HasShape(RBENV, ExecShape("rbenv"))
  {
    ExecTemplate(RBENV);
  }

  lemma PyenvShape()
    ensures HasShape(PYENV, ExecShape("pyenv"))
  {
    ExecTemplate(PYENV);
  }

  lemma NodenvShape()
    ensures HasShape(NODENV, ExecShape("nodenv"))
  {
    ExecTemplate(NODENV);
  }

  lemma JenvShape()
    ensures HasShape(JENV, ExecShape("jenv"))
  {
    ExecTemplate(JENV);
  }

  lemma TfenvShape()
    ensures HasShape(TFENV, ExecShape("tfenv"))
  {
    ExecTemplate(TFENV);
  }

  lemma GoenvShape()
    ensures HasShape(GOENV, ExecShape("goenv"))
  {
    ExecTemplate(GOENV);
  }

  /** Every supported toolchain runs plain words and one quoted word that ends in the command. */
  lemma EveryToolchainShaped(i: nat)
    requires i < |ALL|
    ensures |SHAPES| == |ALL| && HasShape(ALL[i], SHAPES[i])
    ensures ALL[i] != NVM ==> SHAPES[i].intro == ""
  {
    match i {
      case 0 =>
        PlainPrefixes();
        MiseTemplate();
        FiveWordTemplate(MISE, "mise", "exec", "--", "sh", "-c");
      case 1 => AsdfShape();
      case 2 =>
        NvmTemplate();
        NvmParts();
        IntroducedTemplate(NVM, "bash", "-c", NVM_INTRO);
      case 3 => RbenvShape();
      case 4 => PyenvShape();
      case 5 => NodenvShape();
      case 6 => JenvShape();
      case 7 => TfenvShape();
      case 8 => GoenvShape();
      case 9 =>
        PlainPrefixes();
        RustupTemplate();
        FiveWordTemplate(RUSTUP, "rustup", "run", "stable", "sh", "-c");
    }
  }

  // ----- The whole command

  datatype LaunchError = NoCommand | UnsupportedToolchain(name: string)

  datatype Command = Command(text: string) | Invalid(error: LaunchError)

  const SHELL_CHARS: set<char> := {'|', '>', '<', '&', ';', '$', '`', '*', '?', '[', '~'}

  predicate NeedsShell(command: string) {
    exists c :: c in SHELL_CHARS && c in command
  }

  function Exec(command: string): string {
    "exec" + ([' '] + command)
  }

  /** What `sh -c` is given. */
  function FinalCommand(args: seq<string>, cmd: Option<string>, toolchain: Option<string>): Command {
    if args == [] && cmd.None? then Invalid(NoCommand)
    else
      var command := if args != [] then ShellQuoteArgs(args) else cmd.value;
      if toolchain.Some? then
        match Parse(toolchain.value)
        case Some(t) => Command(Exec(WrapCommand(t, command)))
        case None => Invalid(UnsupportedToolchain(toolchain.value))
      else Command(if NeedsShell(command) then command else Exec(command))
  }

  /** The characters that ask for a shell. */
  predicate HasOperator(s: string) {
    '|' in s || '>' in s || '<' in s || '&' in s || ';' in s || '$' in s || '`' in s || '*' in s || '?' in s
    || '[' in s || '~' in s
  }

  lemma NeedsShellExact(s: string)
    ensures NeedsShell(s) <==> HasOperator(s)
  {
    if HasOperator(s) {
      var c :| c in ['|', '>', '<', '&', ';', '$', '`', '*', '?', '[', '~'] && c in s;
    }
  }

  /** It fails without a command, or for a toolchain whose name no supported one has in any mix of cases. */
  lemma LaunchFailsExactly(args: seq<string>, cmd: Option<string>, toolchain: Option<string>)
    ensures FinalCommand(args, cmd, toolchain).Invalid?
       <==> (args == [] && cmd.None?)
            || (toolchain.Some? && forall t :: t in ALL ==> !EqIgnoreAsciiCase(t.name, toolchain.value))
    ensures FinalCommand(args, cmd, toolchain).Invalid? ==>
              FinalCommand(args, cmd, toolchain).error
              == if args == [] && cmd.None? then NoCommand else UnsupportedToolchain(toolchain.value)
  {
  }

  lemma {:induction false} EscapeKeeps(s: string, c: char)
    requires c != '\'' && c != '\\'
    ensures c in EscapeQuotes(s) <==> c in s
    decreases |s|
  {
    if s != "" {
      EscapeKeeps(s[1..], c);
      assert s == [s[0]] + s[1..];
      assert c in s <==> c == s[0] || c in s[1..];
    }
  }

  lemma {:induction false} QuotingKeeps(args: seq<string>, c: char)
    requires c != '\'' && c != '\\' && c != ' '
    ensures c in ShellQuoteArgs(args) <==> exists i :: 0 <= i < |args| && c in args[i]
    decreases |args|
  {
    if args != [] {
      EscapeKeeps(args[0], c);
      assert c in QuoteArg(args[0]) <==> c in args[0];
      if |args| > 1 {
        QuotingKeeps(args[1..], c);
        QuotingKeepsStep(args, c);
      }
    }
  }

  lemma QuotingKeepsStep(args: seq<string>, c: char)
    requires |args| > 1
    ensures (exists i :: 0 <= i < |args| && c in args[i])
       <==> c in args[0] || (exists i :: 0 <= i < |args[1..]| && c in args[1..][i])
  {
    if i :| 0 <= i < |args| && c in args[i] {
      assert i > 0 ==> args[1..][i - 1] == args[i];
    }
  }

  lemma ShellCharKept(args: seq<string>, c: char)
    requires c in SHELL_CHARS
    ensures c in ShellQuoteArgs(args) <==> exists i :: 0 <= i < |args| && c in args[i]
  {
    QuotingKeeps(args, c);
  }

  /** Quoted arguments ask for a shell exactly when one of them holds such a character. */
  lemma QuotedNeedsShell(args: seq<string>)
    ensures NeedsShell(ShellQuoteArgs(args)) <==> exists i :: 0 <= i < |args| && NeedsShell(args[i])
  {
    var s := ShellQuoteArgs(args);
    if NeedsShell(s) {
      var c :| c in SHELL_CHARS && c in s;
      ShellCharKept(args, c);
      var i :| 0 <= i < |args| && c in args[i];
      assert NeedsShell(args[i]);
    }
    if i :| 0 <= i < |args| && NeedsShell(args[i]) {
      var c :| c in SHELL_CHARS && c in args[i];
      ShellCharKept(args, c);
      assert c in s;
    }
  }

  lemma ExecSafe()
    ensures Safe("exec")
  {
  }

  /** Without a toolchain the shell reads the arguments themselves, behind `exec` unless one looks like shell syntax. */
  lemma ArgumentsArrive(args: seq<string>, cmd: Option<string>)
    requires args != []
    ensures var c := FinalCommand(args, cmd, None);
            c.Command? && Tokenize(c.text)
              == Some(if exists i :: 0 <= i < |args| && HasOperator(args[i]) then args else ["exec"] + args)
  {
    forall i | 0 <= i < |args| ensures NeedsShell(args[i]) <==> HasOperator(args[i]) {
      NeedsShellExact(args[i]);
    }
    QuotedNeedsShell(args);
    QuotedArgsRoundTrip(args);
    LexArgs(["exec"], args);
    ExecSafe();
    PrefixedTokens("exec", ShellQuoteArgs(args), args);
  }

  /** With a toolchain the last word ends in the command, whatever it contains; what comes before is fixed. */
  lemma WrappedCommandArrives(i: nat, command: string)
    requires i < |ALL| == |SHAPES|
    ensures Tokenize(Exec(WrapCommand(ALL[i], command)))
         == Some(["exec"] + SHAPES[i].words + [SHAPES[i].intro + command])
    ensures ALL[i] != NVM ==> SHAPES[i].intro + command == command
  {
    EveryToolchainShaped(i);
    var shape := SHAPES[i];
    WrappedShape(ALL[i], shape, command);
    WrappedTokens(shape, command);
  }

  lemma WrappedTokens(shape: Shape, command: string)
    requires PlainWords(shape.words) && '\'' !in shape.intro
    ensures Tokenize(Exec(Spread(shape.words, ['\''] + shape.intro + EscapeQuotes(command) + ['\''])))
         == Some(["exec"] + shape.words + [shape.intro + command])
  {
    var tail := ['\''] + shape.intro + EscapeQuotes(command) + ['\''];
    LexSpread(["exec"], shape.words, tail);
    LexIntroduced(["exec"] + shape.words, shape.intro, command);
    ConcatAssoc(["exec"], shape.words, [shape.intro + command]);
    ExecSafe();
    PrefixedTokens("exec", Spread(shape.words, tail), shape.words + [shape.intro + command]);
  }

  /**
   A command line is handed over as it stands if it holds a shell character;
   otherwise the shell reads the words it has on its own, behind `exec`.
   */
  lemma CommandLineArrives(cmd: string)
    ensures var c := FinalCommand([], Some(cmd), None);
            && c.Command?
            && (HasOperator(cmd) ==> c.text == cmd)
            && (!HasOperator(cmd) ==>
                  Tokenize(c.text) == if Tokenize(cmd).Some? then Some(["exec"] + Tokenize(cmd).value) else None)
  {
    NeedsShellExact(cmd);
    ExecSafe();
    TokensBehind("exec", cmd);
  }

  /** With a toolchain, the command line is the end of the last word, whatever it holds. */
  lemma WrappedLineArrives(i: nat, cmd: string, toolchain: string)
    requires i < |ALL| == |SHAPES| && EqIgnoreAsciiCase(ALL[i].name, toolchain)
    ensures var c := FinalCommand([], Some(cmd), Some(toolchain));
            c.Command? && Tokenize(c.text) == Some(["exec"] + SHAPES[i].words + [SHAPES[i].intro + cmd])
    ensures ALL[i].name != "nvm" ==> SHAPES[i].intro + cmd == cmd
  {
    ParseNamed(i, toolchain);
    WrappedCommandArrives(i, cmd);
  }

  /** And what the inner shell is given reads as the arguments again, for all toolchains but nvm as a whole. */
  lemma ArgumentsArriveTwice(i: nat, args: seq<string>, cmd: Option<string>, toolchain: string)
    requires i < |ALL| == |SHAPES| && args != [] && EqIgnoreAsciiCase(ALL[i].name, toolchain)
    ensures var c := FinalCommand(args, cmd, Some(toolchain));
            var command := ShellQuoteArgs(args);
            && c.Command?
            && Tokenize(c.text) == Some(["exec"] + SHAPES[i].words + [SHAPES[i].intro + command])
            && Tokenize(command) == Some(args)
            && (ALL[i] != NVM ==> Tokenize(SHAPES[i].intro + command) == Some(args))
  {
    ParseNamed(i, toolchain);
    WrappedCommandArrives(i, ShellQuoteArgs(args));
    QuotedArgsRoundTrip(args);
  }
}
