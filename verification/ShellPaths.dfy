/** Paths a shell command would touch (`extractShellCandidatePaths` of src/evidence.ts). */
module ShellPaths {
  import opened Options
  import opened Sequences
  import opened ShellTokens

  datatype Found = Found(paths: seq<string>, signals: seq<string>)

  const NONE := Found([], [])

  function Both(a: Found, b: Found): Found {
    Found(a.paths + b.paths, a.signals + b.signals)
  }

  lemma BothAssociates(a: Found, b: Found, c: Found)
    ensures Both(Both(a, b), c) == Both(a, Both(b, c)) && Both(a, NONE) == a && Both(NONE, a) == a
  {
    assert (a.paths + b.paths) + c.paths == a.paths + (b.paths + c.paths);
    assert (a.signals + b.signals) + c.signals == a.signals + (b.signals + c.signals);
    assert a.paths + [] == a.paths && a.signals + [] == a.signals;
    assert [] + a.paths == a.paths && [] + a.signals == a.signals;
  }

  predicate Redirects(t: Token) {
    t.Operator? && (t.text == ">" || t.text == ">>" || t.text == "&>" || t.text == "&>>")
  }

  predicate OpensHeredoc(t: Token) {
    t.Operator? && (t.text == "<<" || t.text == "<<-")
  }

  predicate SeparatesCommands(t: Token) {
    t.Operator? && (t.text == ";" || t.text == "\n" || t.text == "|" || t.text == "||" || t.text == "&&" || t.text == "&"
                    || t.text == "(" || t.text == ")")
  }

  predicate LiteralWord(t: Token) {
    t.Word? && t.literal
  }

  // ---------------------------------------------------------------- redirections

  /** What the token at the front gives, seen with the one after it. */
  function RedirectionAt(tokens: seq<Token>, nullSink: string -> bool): Found
    requires tokens != []
  {
    var t := tokens[0];
    if Redirects(t) then
      Found(if |tokens| > 1 && LiteralWord(tokens[1]) && !nullSink(tokens[1].text) then [tokens[1].text] else [],
            ["shell_redirection"])
    else if OpensHeredoc(t) then Found([], ["heredoc"])
    else NONE
  }

  function Redirections(tokens: seq<Token>, nullSink: string -> bool): Found {
    if tokens == [] then NONE else Both(RedirectionAt(tokens, nullSink), Redirections(tokens[1..], nullSink))
  }

  // ---------------------------------------------------------------- simple commands

  predicate Letter(c: char) {
    'a' <= c <= 'z' || 'A' <= c <= 'Z'
  }

  function LetterRun(s: string): (n: nat)
    ensures n <= |s|
  {
    if s == [] || !Letter(s[0]) then 0 else 1 + LetterRun(s[1..])
  }

  /** A dash and letters only. */
  predicate Flag(s: string) {
    |s| > 1 && s[0] == '-' && LetterRun(s[1..]) == |s| - 1
  }

  /** A dash and letters, the last of them an `i` that ends its word. */
  predicate EditsInPlace(s: string) {
    && s != [] && s[0] == '-' && LetterRun(s[1..]) > 0
    && var n := LetterRun(s[1..]);
    s[n] == 'i' && (n + 1 == |s| || !(Digit(s[n + 1]) || s[n + 1] == '_'))
  }

  function DropFlags(args: seq<Token>): seq<Token> {
    if args != [] && LiteralWord(args[0]) && Flag(args[0].text) then DropFlags(args[1..]) else args
  }

  function InPlaceSignal(tool: string, args: seq<Token>): seq<string> {
    if (tool == "sed" || tool == "perl") && exists k | 0 <= k < |args| :: EditsInPlace(args[k].text)
    then ["in_place_shell_edit"] else []
  }

  /** The first operands of a tool that writes or removes files. */
  function OperandPaths(tool: string, args: seq<Token>, nullSink: string -> bool): Found {
    var firstLiteral := args != [] && LiteralWord(args[0]);
    if tool == "tee" && firstLiteral then
      if StartsWith(args[0].text, "-") then NONE
      else Found(if nullSink(args[0].text) then [] else [args[0].text], ["tee_write"])
    else if (tool == "touch" || tool == "rm" || tool == "mkdir") && firstLiteral then
      Found([args[0].text], ["shell_" + tool])
    else if (tool == "cp" || tool == "mv") && firstLiteral && |args| > 1 && LiteralWord(args[1]) then
      Found((if tool == "mv" then [args[0].text] else []) + [args[1].text], ["shell_" + tool])
    else NONE
  }

  function Effects(tool: string, args: seq<Token>, nullSink: string -> bool): Found {
    Both(Found([], InPlaceSignal(tool, args)), OperandPaths(tool, DropFlags(args), nullSink))
  }

  /** The words up to the next operator. */
  function Arguments(tokens: seq<Token>): seq<Token> {
    if tokens == [] || tokens[0].Operator? then [] else [tokens[0]] + Arguments(tokens[1..])
  }

  function Commands(tokens: seq<Token>, commandStart: bool, nullSink: string -> bool): Found
    decreases |tokens|
  {
    if tokens == [] then NONE
    else
      var t := tokens[0];
      if SeparatesCommands(t) then Commands(tokens[1..], true, nullSink)
      else if t.Operator? then if |tokens| == 1 then NONE else Commands(tokens[2..], commandStart, nullSink)
      else if !commandStart then Commands(tokens[1..], false, nullSink)
      else if t.assignment || t.commandPrefix then Commands(tokens[1..], true, nullSink)
      else if !t.literal then Commands(tokens[1..], false, nullSink)
      else Both(Effects(t.text, Arguments(tokens[1..]), nullSink), Commands(tokens[1..], false, nullSink))
  }

  // ---------------------------------------------------------------- the extraction

  predicate UsefulPath(path: string) {
    path != "" && path != "-" && path[0] != '$' && DigitRun(path) != |path|
  }

  function Unique(s: seq<string>): (r: seq<string>)
    ensures forall x :: x in r <==> x in s
  {
    if s == [] then []
    else if s[|s| - 1] in s[..|s| - 1] then UniqueOfFront(s, Unique(s[..|s| - 1]))
    else Unique(s[..|s| - 1]) + [s[|s| - 1]]
  }

  /** The front already has the last element. */
  function UniqueOfFront(s: seq<string>, r: seq<string>): (q: seq<string>)
    requires s != [] && s[|s| - 1] in s[..|s| - 1] && forall x :: x in r <==> x in s[..|s| - 1]
    ensures q == r && forall x :: x in q <==> x in s
  {
    assert s == s[..|s| - 1] + [s[|s| - 1]];
    r
  }

  function FoundIn(tokens: seq<Token>, nullSink: string -> bool): Found {
    Both(Redirections(tokens, nullSink), Commands(tokens, true, nullSink))
  }

  function Extracted(f: Found): Found {
    Found(Unique(Filter(f.paths, UsefulPath)), Unique(f.signals))
  }

  method ScanRedirections(tokens: seq<Token>, nullSink: string -> bool) returns (f: Found)
    ensures f == Redirections(tokens, nullSink)
  {
    f := NONE;
    assert tokens[0..] == tokens;
    BothAssociates(Redirections(tokens, nullSink), NONE, NONE);
    for index := 0 to |tokens|
      invariant Both(f, Redirections(tokens[index..], nullSink)) == Redirections(tokens, nullSink)
    {
      var here := RedirectionAt(tokens[index..], nullSink);
      assert tokens[index..][1..] == tokens[index + 1..];
      BothAssociates(f, here, Redirections(tokens[index + 1..], nullSink));
      f := Both(f, here);
    }
    BothAssociates(f, NONE, NONE);
  }

  method CollectArguments(tokens: seq<Token>, start: nat) returns (args: seq<Token>)
    requires start <= |tokens|
    ensures args == Arguments(tokens[start..])
  {
    args := [];
    var next := start;
    while next < |tokens| && !tokens[next].Operator?
      invariant start <= next <= |tokens|
      invariant args + Arguments(tokens[next..]) == Arguments(tokens[start..])
    {
      assert tokens[next..][1..] == tokens[next + 1..];
      assert args + ([tokens[next]] + Arguments(tokens[next + 1..])) == (args + [tokens[next]]) + Arguments(tokens[next + 1..]);
      args := args + [tokens[next]];
      next := next + 1;
    }
  }

  method ScanCommands(tokens: seq<Token>, nullSink: string -> bool) returns (f: Found)
    ensures f == Commands(tokens, true, nullSink)
  {
    f := NONE;
    var commandStart := true;
    var index := 0;
    assert tokens[0..] == tokens;
    BothAssociates(Commands(tokens, true, nullSink), NONE, NONE);
    while index < |tokens|
      invariant 0 <= index <= |tokens|
      invariant Both(f, Commands(tokens[index..], commandStart, nullSink)) == Commands(tokens, true, nullSink)
      decreases |tokens| - index
    {
      ghost var s := tokens[index..];
      var token := tokens[index];
      assert s[1..] == tokens[index + 1..];
      if token.Operator? {
        if SeparatesCommands(token) {
          commandStart := true;
          index := index + 1;
        } else {
          assert index + 2 <= |tokens| ==> s[2..] == tokens[index + 2..];
          assert tokens[|tokens|..] == [];
          index := if index + 2 <= |tokens| then index + 2 else |tokens|;
        }
        continue;
      }
      index := index + 1;
      if !commandStart || token.assignment || token.commandPrefix {
        continue;
      }
      commandStart := false;
      if !token.literal {
        continue;
      }
      var args := CollectArguments(tokens, index);
      BothAssociates(f, Effects(token.text, args, nullSink), Commands(tokens[index..], false, nullSink));
      f := Both(f, Effects(token.text, args, nullSink));
    }
    BothAssociates(f, NONE, NONE);
  }

  /** `extractShellCandidatePaths`; nullSink tells which paths resolve to /dev/null. */
  method ExtractShellCandidatePaths(command: string, powershell: bool, nullSink: string -> bool) returns (r: Found)
    ensures r == Extracted(FoundIn(Tokens(command, powershell), nullSink))
  {
    var tokens := LiteralShellTokens(command, powershell);
    var a := ScanRedirections(tokens, nullSink);
    var b := ScanCommands(tokens, nullSink);
    r := Extracted(Both(a, b));
  }

  // ---------------------------------------------------------------- what is extracted

  ghost predicate LiteralIn(path: string, tokens: seq<Token>) {
    exists t | t in tokens :: LiteralWord(t) && t.text == path
  }

  ghost predicate AllLiteral(paths: seq<string>, tokens: seq<Token>) {
    forall p | p in paths :: LiteralIn(p, tokens)
  }

  lemma LiteralInMore(paths: seq<string>, some: seq<Token>, tokens: seq<Token>)
    requires AllLiteral(paths, some) && forall t | t in some :: t in tokens
    ensures AllLiteral(paths, tokens)
  {
    forall p | p in paths ensures LiteralIn(p, tokens) {
      var t :| t in some && LiteralWord(t) && t.text == p;
    }
  }

  lemma {:induction false} RedirectionsAreLiteral(tokens: seq<Token>, nullSink: string -> bool)
    ensures AllLiteral(Redirections(tokens, nullSink).paths, tokens)
  {
    if tokens != [] {
      RedirectionsAreLiteral(tokens[1..], nullSink);
      LiteralInMore(Redirections(tokens[1..], nullSink).paths, tokens[1..], tokens);
    }
  }

  lemma {:induction false} ArgumentsAreTokens(tokens: seq<Token>)
    ensures forall t | t in Arguments(tokens) :: t in tokens
  {
    if tokens != [] {
      ArgumentsAreTokens(tokens[1..]);
    }
  }

  lemma {:induction false} FlagsDropped(args: seq<Token>)
    ensures forall t | t in DropFlags(args) :: t in args
  {
    if args != [] {
      FlagsDropped(args[1..]);
    }
  }

  lemma EffectsAreLiteral(tool: string, args: seq<Token>, nullSink: string -> bool)
    ensures AllLiteral(Effects(tool, args, nullSink).paths, args)
  {
    var operands := DropFlags(args);
    FlagsDropped(args);
    assert AllLiteral(OperandPaths(tool, operands, nullSink).paths, operands);
    LiteralInMore(OperandPaths(tool, operands, nullSink).paths, operands, args);
  }

  lemma {:induction false} CommandsAreLiteral(tokens: seq<Token>, commandStart: bool, nullSink: string -> bool)
    ensures AllLiteral(Commands(tokens, commandStart, nullSink).paths, tokens)
    decreases |tokens|
  {
    if tokens != [] {
      var t := tokens[0];
      if t.Operator? && !SeparatesCommands(t) && |tokens| > 1 {
        CommandsAreLiteral(tokens[2..], commandStart, nullSink);
        LiteralInMore(Commands(tokens[2..], commandStart, nullSink).paths, tokens[2..], tokens);
      } else {
        forall start: bool ensures AllLiteral(Commands(tokens[1..], start, nullSink).paths, tokens) {
          CommandsAreLiteral(tokens[1..], start, nullSink);
          LiteralInMore(Commands(tokens[1..], start, nullSink).paths, tokens[1..], tokens);
        }
        if t.Word? {
          var args := Arguments(tokens[1..]);
          EffectsAreLiteral(t.text, args, nullSink);
          ArgumentsAreTokens(tokens[1..]);
          LiteralInMore(Effects(t.text, args, nullSink).paths, args, tokens);
        }
      }
    }
  }

  /** Every path extracted from any command is the text of one of its literal words. */
  lemma PathsAreLiteralWords(command: string, powershell: bool, nullSink: string -> bool)
    ensures AllLiteral(Extracted(FoundIn(Tokens(command, powershell), nullSink)).paths, Tokens(command, powershell))
  {
    RedirectionsAreLiteral(Tokens(command, powershell), nullSink);
    CommandsAreLiteral(Tokens(command, powershell), true, nullSink);
  }

  lemma {:induction false} RedirectionSignals(tokens: seq<Token>, nullSink: string -> bool)
    ensures "shell_redirection" in Redirections(tokens, nullSink).signals <==> exists t | t in tokens :: Redirects(t)
    ensures "heredoc" in Redirections(tokens, nullSink).signals <==> exists t | t in tokens :: OpensHeredoc(t)
  {
    if tokens != [] {
      RedirectionSignals(tokens[1..], nullSink);
      assert |"shell_redirection"| != |"heredoc"|;
      assert forall t :: t in tokens <==> t == tokens[0] || t in tokens[1..];
    }
  }

  /** No command gives a signal as long as one of the redirections'. */
  ghost predicate OtherSignals(signals: seq<string>) {
    forall x | x in signals :: |x| != |"shell_redirection"| && |x| != |"heredoc"|
  }

  lemma EffectSignals(tool: string, args: seq<Token>, nullSink: string -> bool)
    ensures OtherSignals(Effects(tool, args, nullSink).signals)
  {
    OperandSignals(tool, DropFlags(args), nullSink);
    assert OtherSignals(InPlaceSignal(tool, args));
  }

  lemma OperandSignals(tool: string, args: seq<Token>, nullSink: string -> bool)
    ensures OtherSignals(OperandPaths(tool, args, nullSink).signals)
  {
  }

  lemma {:induction false} CommandSignals(tokens: seq<Token>, commandStart: bool, nullSink: string -> bool)
    ensures OtherSignals(Commands(tokens, commandStart, nullSink).signals)
    decreases |tokens|
  {
    if tokens != [] {
      forall start: bool ensures OtherSignals(Commands(tokens[1..], start, nullSink).signals) {
        CommandSignals(tokens[1..], start, nullSink);
      }
      if |tokens| > 1 {
        CommandSignals(tokens[2..], commandStart, nullSink);
      }
      if tokens[0].Word? {
        EffectSignals(tokens[0].text, Arguments(tokens[1..]), nullSink);
      }
    }
  }

  lemma {:induction false} TargetIsFound(tokens: seq<Token>, k: nat, nullSink: string -> bool)
    requires k + 1 < |tokens| && Redirects(tokens[k]) && LiteralWord(tokens[k + 1]) && !nullSink(tokens[k + 1].text)
    ensures tokens[k + 1].text in Redirections(tokens, nullSink).paths
  {
    if k > 0 {
      TargetIsFound(tokens[1..], k - 1, nullSink);
    }
  }

  /** A command is reported as redirecting exactly when one of its tokens redirects, and as holding a
      here-document exactly when one opens it; a redirection's literal target is among the
      extracted paths whenever it is useful and no null sink. */
  lemma RedirectionIsSeen(command: string, powershell: bool, nullSink: string -> bool)
    ensures var tokens, found := Tokens(command, powershell), Extracted(FoundIn(Tokens(command, powershell), nullSink));
      && ("shell_redirection" in found.signals <==> exists t | t in tokens :: Redirects(t))
      && ("heredoc" in found.signals <==> exists t | t in tokens :: OpensHeredoc(t))
      && forall k {:trigger Redirects(tokens[k])} | 0 <= k < |tokens| - 1 && Redirects(tokens[k]) && LiteralWord(tokens[k + 1])
           && UsefulPath(tokens[k + 1].text) && !nullSink(tokens[k + 1].text) :: tokens[k + 1].text in found.paths
  {
    var tokens := Tokens(command, powershell);
    RedirectionSignals(tokens, nullSink);
    CommandSignals(tokens, true, nullSink);
    forall k {:trigger Redirects(tokens[k])} | 0 <= k < |tokens| - 1 && Redirects(tokens[k]) && LiteralWord(tokens[k + 1])
        && UsefulPath(tokens[k + 1].text) && !nullSink(tokens[k + 1].text)
      ensures tokens[k + 1].text in Extracted(FoundIn(tokens, nullSink)).paths
    {
      TargetIsFound(tokens, k, nullSink);
    }
  }

  // ---------------------------------------------------------------- quoted commands

  lemma {:induction false} LiteralWordsFacts(words: seq<string>, nullSink: string -> bool)
    ensures Redirections(LiteralWords(words), nullSink) == NONE
    ensures Commands(LiteralWords(words), false, nullSink) == NONE
    ensures Arguments(LiteralWords(words)) == LiteralWords(words)
  {
    if words != [] {
      LiteralWordsFacts(words[1..], nullSink);
      assert LiteralWords(words)[1..] == LiteralWords(words[1..]);
    }
  }

  /** Of a command whose words are all quoted, only the first acts: the others are its data, whatever
      they contain. */
  lemma QuotedCommandActsOnce(tool: string, args: seq<string>, powershell: bool, nullSink: string -> bool)
    ensures FoundIn(Tokens(QuoteAll([tool] + args, powershell), powershell), nullSink)
      == Effects(tool, LiteralWords(args), nullSink)
  {
    QuotedWordsReadBack([tool] + args, powershell);
    LiteralWordsFacts([tool] + args, nullSink);
    LiteralWordsFacts(args, nullSink);
    assert ([tool] + args)[1..] == args;
    assert LiteralWords([tool] + args)[1..] == LiteralWords(args);
    BothAssociates(Effects(tool, LiteralWords(args), nullSink), NONE, NONE);
  }
}
