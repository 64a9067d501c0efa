/** What the commands of a script do to paths, said on their own words (`extractShellCandidatePaths` of
    src/evidence.ts). */
module ShellEffects {
  import opened Options
  import opened ShellTokens
  import opened ShellPaths
  import ShellWords

  // ---------------------------------------------------------------- flags

  predicate IsLetter(c: char) {
    'a' <= c <= 'z' || 'A' <= c <= 'Z'
  }

  predicate WordChar(c: char) {
    IsLetter(c) || '0' <= c <= '9' || c == '_'
  }

  /** A dash and one letter or more. */
  predicate FlagWord(s: string) {
    |s| > 1 && s[0] == '-' && forall k | 1 <= k < |s| :: IsLetter(s[k])
  }

  /** A dash, letters, an `i` at n, and then the end of the word. */
  predicate InPlaceAt(s: string, n: nat) {
    && 1 <= n < |s| && s[0] == '-' && (forall k | 1 <= k < n :: IsLetter(s[k])) && s[n] == 'i'
    && (n + 1 < |s| ==> !WordChar(s[n + 1]))
  }

  lemma {:induction false} LetterRunIs(s: string, n: nat)
    requires n <= |s| && (forall k | 0 <= k < n :: IsLetter(s[k])) && (n < |s| ==> !IsLetter(s[n]))
    ensures LetterRun(s) == n
  {
    if n > 0 {
      LetterRunIs(s[1..], n - 1);
    }
  }

  lemma {:induction false} LetterRunLetters(s: string)
    ensures forall k | 0 <= k < LetterRun(s) :: IsLetter(s[k])
    ensures LetterRun(s) < |s| ==> !IsLetter(s[LetterRun(s)])
  {
    if s != [] && Letter(s[0]) {
      LetterRunLetters(s[1..]);
      forall k | 0 <= k < LetterRun(s) ensures IsLetter(s[k]) {
        assert k > 0 ==> s[k] == s[1..][k - 1];
      }
    }
  }

  lemma FlagIff(s: string)
    ensures Flag(s) <==> FlagWord(s)
  {
    if s != "" {
      LetterRunLetters(s[1..]);
      if FlagWord(s) {
        LetterRunIs(s[1..], |s| - 1);
      } else if Flag(s) {
        forall k | 1 <= k < |s| ensures IsLetter(s[k]) {
          assert s[k] == s[1..][k - 1];
        }
      }
    }
  }

  /** An argument edits in place exactly when it is a group of flags whose last is `i`, with or without a
      suffix that cannot go on the word. */
  lemma InPlaceIff(s: string)
    ensures EditsInPlace(s) <==> exists n: nat :: InPlaceAt(s, n)
  {
    if s != "" {
      LetterRunLetters(s[1..]);
      if EditsInPlace(s) {
        var n := LetterRun(s[1..]);
        forall k | 1 <= k < n ensures IsLetter(s[k]) {
          assert s[k] == s[1..][k - 1];
        }
        assert n + 1 < |s| ==> s[n + 1] == s[1..][n];
        assert InPlaceAt(s, n);
      }
      forall n: nat | InPlaceAt(s, n) ensures EditsInPlace(s) {
        LetterRunIs(s[1..], n);
      }
    }
  }

  // ---------------------------------------------------------------- one command

  predicate AllFlags(flags: seq<string>) {
    flags == [] || (FlagWord(flags[0]) && AllFlags(flags[1..]))
  }

  lemma FirstWord(words: seq<string>, rest: seq<Token>)
    requires words != []
    ensures var args := LiteralWords(words) + rest;
      args != [] && args[0] == Word(words[0], true, false, false) && args[1..] == LiteralWords(words[1..]) + rest
  {
    ConsThen(Word(words[0], true, false, false), LiteralWords(words[1..]), rest);
  }

  lemma ConsThen(t: Token, more: seq<Token>, rest: seq<Token>)
    ensures ([t] + more) + rest == [t] + (more + rest) && ([t] + (more + rest))[1..] == more + rest
  {
  }

  lemma Assoc(a: seq<Token>, b: seq<Token>, c: seq<Token>)
    ensures (a + b) + c == a + (b + c)
  {
  }

  lemma {:induction false} FlagsGone(flags: seq<string>, rest: seq<Token>)
    requires AllFlags(flags) && (rest != [] && LiteralWord(rest[0]) ==> !FlagWord(rest[0].text))
    ensures DropFlags(LiteralWords(flags) + rest) == rest
  {
    if flags == [] {
      assert LiteralWords(flags) + rest == rest;
      if rest != [] && LiteralWord(rest[0]) {
        FlagIff(rest[0].text);
      }
    } else {
      FlagIff(flags[0]);
      FirstWord(flags, rest);
      FlagsGone(flags[1..], rest);
    }
  }

  predicate FirstIs(operands: seq<Token>, path: string) {
    operands != [] && LiteralWord(operands[0]) && operands[0].text == path
  }

  predicate SecondIs(operands: seq<Token>, path: string) {
    |operands| > 1 && LiteralWord(operands[1]) && operands[1].text == path
  }

  const TOOLS: set<string> := {"tee", "touch", "rm", "mkdir", "cp", "mv", "sed", "perl"}

  /** What each tool does to its operands, behind any flags: `cp` writes its second, `mv` touches both,
      `rm`, `touch` and `mkdir` touch their first, and `tee` writes its first. */
  lemma CommandActs(tool: string, flags: seq<string>, operands: seq<Token>, nullSink: string -> bool, a: string, b: string)
    requires AllFlags(flags)
    requires operands != [] && LiteralWord(operands[0]) ==> !FlagWord(operands[0].text)
    ensures var f := Effects(tool, LiteralWords(flags) + operands, nullSink);
      && (tool == "cp" && FirstIs(operands, a) && SecondIs(operands, b) ==> f == Found([b], ["shell_cp"]))
      && (tool == "mv" && FirstIs(operands, a) && SecondIs(operands, b) ==> f == Found([a, b], ["shell_mv"]))
      && (tool == "rm" && FirstIs(operands, a) ==> f == Found([a], ["shell_rm"]))
      && (tool == "touch" && FirstIs(operands, a) ==> f == Found([a], ["shell_touch"]))
      && (tool == "mkdir" && FirstIs(operands, a) ==> f == Found([a], ["shell_mkdir"]))
      && (tool == "tee" && FirstIs(operands, a) && !(a != "" && a[0] == '-') ==>
            f == Found(if nullSink(a) then [] else [a], ["tee_write"]))
      && (tool !in TOOLS ==> f == NONE)
  {
    FlagsGone(flags, operands);
    BothAssociates(OperandPaths(tool, operands, nullSink), NONE, NONE);
    assert a != "" ==> a[..1] == [a[0]];
    assert "shell_" + "cp" == "shell_cp" && "shell_" + "mv" == "shell_mv" && "shell_" + "rm" == "shell_rm";
    assert "shell_" + "touch" == "shell_touch" && "shell_" + "mkdir" == "shell_mkdir";
    assert forall q: seq<string> :: [] + q == q;
  }

  /** Nothing is found without the literal operands a tool needs. */
  lemma CommandSpares(tool: string, flags: seq<string>, operands: seq<Token>, nullSink: string -> bool)
    requires AllFlags(flags) && tool !in {"sed", "perl"}
    requires operands != [] && LiteralWord(operands[0]) ==> !FlagWord(operands[0].text)
    requires operands == [] || !LiteralWord(operands[0])
      || (tool in {"cp", "mv"} && (|operands| < 2 || !LiteralWord(operands[1])))
      || (tool == "tee" && StartsWith(operands[0].text, "-"))
    ensures Effects(tool, LiteralWords(flags) + operands, nullSink) == NONE
  {
    FlagsGone(flags, operands);
    BothAssociates(OperandPaths(tool, operands, nullSink), NONE, NONE);
  }

  lemma SomeEditsInPlace(args: seq<Token>)
    ensures (exists k | 0 <= k < |args| :: EditsInPlace(args[k].text)) <==> exists t, n: nat | t in args :: InPlaceAt(t.text, n)
  {
    forall t | t in args ensures EditsInPlace(t.text) <==> exists n: nat :: InPlaceAt(t.text, n) {
      InPlaceIff(t.text);
    }
    if t, n: nat :| t in args && InPlaceAt(t.text, n) {
      var k :| 0 <= k < |args| && args[k] == t;
      assert EditsInPlace(args[k].text);
    }
  }

  /** Stream editors touch no path: they give a signal exactly when one of their arguments edits in place. */
  lemma EditorsSignal(tool: string, args: seq<Token>, nullSink: string -> bool)
    requires tool in {"sed", "perl"}
    ensures Effects(tool, args, nullSink)
      == Found([], if exists t, n: nat | t in args :: InPlaceAt(t.text, n) then ["in_place_shell_edit"] else [])
  {
    SomeEditsInPlace(args);
    BothAssociates(Found([], InPlaceSignal(tool, args)), NONE, NONE);
  }

  // ---------------------------------------------------------------- whole scripts

  /** What the scan for commands passes over: an assignment or a prefix, or a redirection with its target. */
  datatype Skip = Lead(word: Token) | Redirection(sign: string, target: Token)

  /** A command with the words after it, up to the sign that ends it. */
  datatype Step = Step(
    leads: seq<Skip>, tool: string, literal: bool, args: seq<Token>, after: seq<Skip>, sign: string)

  const ENDS: set<string> := {";", "\n", "|", "||", "&&", "&", "(", ")"}

  predicate SkipOk(s: Skip, leading: bool) {
    match s
    case Lead(word) => word.Word? && (leading ==> word.assignment || word.commandPrefix)
    case Redirection(sign, target) => sign !in ENDS
  }

  predicate SkipsOk(skips: seq<Skip>, leading: bool) {
    skips == [] || (SkipOk(skips[0], leading) && SkipsOk(skips[1..], leading))
  }

  predicate StepOk(s: Step) {
    && SkipsOk(s.leads, true) && SkipsOk(s.after, false)
    && (forall t | t in s.args :: t.Word?) && (s.after != [] ==> s.after[0].Redirection?) && s.sign in ENDS
  }

  function SkipToken(s: Skip): seq<Token> {
    match s
    case Lead(word) => [word]
    case Redirection(sign, target) => [Operator(sign), target]
  }

  function SkipTokens(skips: seq<Skip>): seq<Token> {
    if skips == [] then [] else SkipToken(skips[0]) + SkipTokens(skips[1..])
  }

  function StepTokens(s: Step): seq<Token> {
    SkipTokens(s.leads) + ([Word(s.tool, s.literal, false, false)] + (s.args + (SkipTokens(s.after) + [Operator(s.sign)])))
  }

  function ScriptTokens(steps: seq<Step>): seq<Token> {
    if steps == [] then [] else StepTokens(steps[0]) + ScriptTokens(steps[1..])
  }

  /** What each command does by itself. */
  function Acts(steps: seq<Step>, nullSink: string -> bool): Found {
    if steps == [] then NONE
    else
      Both(if steps[0].literal then Effects(steps[0].tool, steps[0].args, nullSink) else NONE, Acts(steps[1..], nullSink))
  }

  lemma EndsSeparate(sign: string)
    ensures SeparatesCommands(Operator(sign)) <==> sign in ENDS
  {
  }

  lemma SkipPasses(skip: Skip, tokens: seq<Token>, more: seq<Token>, start: bool, nullSink: string -> bool)
    requires SkipOk(skip, start) && tokens == SkipToken(skip) + more
    ensures Commands(tokens, start, nullSink) == Commands(more, start, nullSink)
  {
    if skip.Lead? {
      assert tokens[0] == skip.word && tokens[1..] == more;
    } else {
      EndsSeparate(skip.sign);
      assert tokens[0] == Operator(skip.sign) && tokens[2..] == more;
    }
  }

  lemma FirstSkip(skips: seq<Skip>, rest: seq<Token>)
    requires skips != []
    ensures SkipTokens(skips) + rest == SkipToken(skips[0]) + (SkipTokens(skips[1..]) + rest)
  {
  }

  lemma {:induction false} SkipsPass(skips: seq<Skip>, rest: seq<Token>, start: bool, nullSink: string -> bool)
    requires SkipsOk(skips, start)
    ensures Commands(SkipTokens(skips) + rest, start, nullSink) == Commands(rest, start, nullSink)
  {
    if skips == [] {
      assert SkipTokens(skips) + rest == rest;
    } else {
      var tokens, more := SkipTokens(skips) + rest, SkipTokens(skips[1..]) + rest;
      SkipsPass(skips[1..], rest, start, nullSink);
      FirstSkip(skips, rest);
      SkipPasses(skips[0], tokens, more, start, nullSink);
    }
  }

  lemma {:induction false} WordsPass(words: seq<Token>, rest: seq<Token>, nullSink: string -> bool)
    requires forall t | t in words :: t.Word?
    ensures Commands(words + rest, false, nullSink) == Commands(rest, false, nullSink)
    ensures rest == [] || rest[0].Operator? ==> Arguments(words + rest) == words
  {
    if words == [] {
      assert words + rest == rest;
    } else {
      assert words[0] in words && (words + rest)[1..] == words[1..] + rest;
      WordsPass(words[1..], rest, nullSink);
    }
  }

  lemma StepThen(s: Step, rest: seq<Token>)
    ensures StepTokens(s) + rest
      == SkipTokens(s.leads)
         + ([Word(s.tool, s.literal, false, false)] + (s.args + (SkipTokens(s.after) + ([Operator(s.sign)] + rest))))
  {
    var end, after := [Operator(s.sign)], SkipTokens(s.after);
    Assoc(after, end, rest);
    Assoc(s.args, after + end, rest);
    Assoc([Word(s.tool, s.literal, false, false)], s.args + (after + end), rest);
    Assoc(SkipTokens(s.leads), [Word(s.tool, s.literal, false, false)] + (s.args + (after + end)), rest);
  }

  lemma StepActs(s: Step, rest: seq<Token>, nullSink: string -> bool)
    requires StepOk(s)
    ensures Commands(StepTokens(s) + rest, true, nullSink)
      == Both(if s.literal then Effects(s.tool, s.args, nullSink) else NONE, Commands(rest, true, nullSink))
  {
    var end := [Operator(s.sign)] + rest;
    var after := SkipTokens(s.after) + end;
    var tail := [Word(s.tool, s.literal, false, false)] + (s.args + after);
    StepThen(s, rest);
    SkipsPass(s.leads, tail, true, nullSink);
    ConsThen(Word(s.tool, s.literal, false, false), s.args, after);
    ConsThen(Operator(s.sign), [], rest);
    assert [] + rest == rest;
    WordsPass(s.args, after, nullSink);
    SkipsPass(s.after, end, false, nullSink);
    EndsSeparate(s.sign);
    BothAssociates(Commands(rest, true, nullSink), NONE, NONE);
  }

  /** Main result: in a script every command acts by itself: assignments, prefixes and redirections
      before it do not hide it, and nothing behind its name is taken for another. */
  lemma {:induction false} ScriptActs(steps: seq<Step>, nullSink: string -> bool)
    requires forall s | s in steps :: StepOk(s)
    ensures Commands(ScriptTokens(steps), true, nullSink) == Acts(steps, nullSink)
  {
    if steps != [] {
      assert steps[0] in steps;
      ScriptActs(steps[1..], nullSink);
      StepActs(steps[0], ScriptTokens(steps[1..]), nullSink);
    }
  }

  /** The same for the text of a script, however its words are quoted. */
  lemma WrittenScriptActs(items: seq<ShellWords.Item>, steps: seq<Step>, powershell: bool, nullSink: string -> bool)
    requires ShellWords.CommandOk(items, powershell) && forall s | s in steps :: StepOk(s)
    requires ShellWords.TokensOf(items, powershell) == ScriptTokens(steps)
    ensures FoundIn(Tokens(ShellWords.WriteCommand(items, powershell), powershell), nullSink)
      == Both(Redirections(ScriptTokens(steps), nullSink), Acts(steps, nullSink))
  {
    ShellWords.CommandReads(items, powershell);
    ScriptActs(steps, nullSink);
  }

  // ---------------------------------------------------------------- what is extracted

  lemma {:induction false} DigitsOnly(path: string)
    ensures DigitRun(path) == |path| <==> forall c | c in path :: '0' <= c <= '9'
  {
    assert path != "" ==> path[0] in path;
    if path != "" {
      DigitsOnly(path[1..]);
      assert forall c :: c in path <==> c == path[0] || c in path[1..];
    }
  }

  /** Each element once, in the order in which they first come. */
  lemma {:induction false} UniqueKeepsFirst(s: seq<string>, more: seq<string>)
    ensures forall i, j | 0 <= i < j < |Unique(s)| :: Unique(s)[i] != Unique(s)[j]
    ensures Unique(s) <= Unique(s + more)
    decreases |s| + |more|
  {
    if more != [] {
      var n := |more| - 1;
      UniqueKeepsFirst(s, more[..n]);
      assert (s + more)[..|s + more| - 1] == s + more[..n];
    } else {
      assert s + more == s;
      if s != [] {
        UniqueKeepsFirst(s[..|s| - 1], []);
      }
    }
  }

  /** Of what a script touches, exactly the paths are extracted that are no empty word, no lone dash, no
      variable and no number; every signal is. */
  lemma ExtractedIff(f: Found, path: string, signal: string)
    ensures path in Extracted(f).paths <==>
      path in f.paths && path != "" && path != "-" && path[0] != '$' && exists c | c in path :: !('0' <= c <= '9')
    ensures signal in Extracted(f).signals <==> signal in f.signals
  {
    DigitsOnly(path);
  }
}
