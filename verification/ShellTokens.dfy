/** The literal token scan of shell commands (`literalShellTokens` of src/evidence.ts). */
module ShellTokens {
  import opened Options

  datatype Token = Operator(text: string) | Word(text: string, literal: bool, assignment: bool, commandPrefix: bool)

  datatype Heredoc = Heredoc(delimiter: string, stripTabs: bool)

  // ---------------------------------------------------------------- character classes

  /** The white space of JavaScript regular expressions. */
  predicate Space(c: char) {
    var v := c as int;
    || 9 <= v <= 13 || v == 0x20 || v == 0xA0 || v == 0x1680 || 0x2000 <= v <= 0x200A
    || v == 0x2028 || v == 0x2029 || v == 0x202F || v == 0x205F || v == 0x3000 || v == 0xFEFF
  }

  predicate OperatorChar(c: char) {
    c == '<' || c == '>' || c == ';' || c == '|' || c == '&' || c == '(' || c == ')'
  }

  predicate EndsWord(c: char) {
    Space(c) || OperatorChar(c)
  }

  predicate Digit(c: char) {
    '0' <= c <= '9'
  }

  predicate NameStart(c: char) {
    'A' <= c <= 'Z' || 'a' <= c <= 'z' || c == '_'
  }

  function Escape(powershell: bool): char {
    if powershell then '`' else '\\'
  }

  predicate StartsWith(s: string, prefix: string) {
    |prefix| <= |s| && s[..|prefix|] == prefix
  }

  // ---------------------------------------------------------------- the patterns tried at a token's start

  function DigitRun(s: string): (n: nat)
    ensures n <= |s|
  {
    if s == [] || !Digit(s[0]) then 0 else 1 + DigitRun(s[1..])
  }

  /** The length of digits adjoining a redirection, or 0. */
  function Descriptor(s: string): (n: nat)
    ensures n <= |s|
  {
    var n := DigitRun(s);
    if n < |s| && (s[n] == '<' || s[n] == '>') then n else 0
  }

  /** The operator the text starts with, the longer ones tried first. */
  function OperatorAt(s: string): (o: string)
    ensures StartsWith(s, o)
    ensures o == "" <==> s == [] || !OperatorChar(s[0])
  {
    if s == [] || !OperatorChar(s[0]) then ""
    else if StartsWith(s, "&>>") then "&>>"
    else if StartsWith(s, "&>") then "&>"
    else if StartsWith(s, ">>") then ">>"
    else if StartsWith(s, ">&") then ">&"
    else if StartsWith(s, "<<<") then "<<<"
    else if StartsWith(s, "<<-") then "<<-"
    else if StartsWith(s, "<<") then "<<"
    else if StartsWith(s, "<&") then "<&"
    else if StartsWith(s, "&&") then "&&"
    else if StartsWith(s, "||") then "||"
    else s[..1]
  }

  function NameRun(s: string): (n: nat)
    ensures n <= |s|
  {
    if s == [] || !(NameStart(s[0]) || Digit(s[0])) then 0 else 1 + NameRun(s[1..])
  }

  predicate AssignmentAt(s: string) {
    s != [] && NameStart(s[0]) && NameRun(s) < |s| && s[NameRun(s)] == '='
  }

  predicate CommandPrefixAt(s: string) {
    s != [] && (s[0] == '{' || s[0] == '!') && (|s| == 1 || EndsWord(s[1]))
  }

  // ---------------------------------------------------------------- words

  /** The text of a word or of part of one, whether it is literal, and what follows it. */
  datatype Part = Part(text: string, literal: bool, rest: string)

  predicate DoubleQuoteEscapable(c: char) {
    c == '$' || c == '`' || c == '"' || c == '\\' || c == '\n'
  }

  /** A backslash before a newline is a line continuation and stands for nothing. */
  function Escaped(c: char): string {
    if c == '\n' then "" else [c]
  }

  function Before(text: string, literal: bool, p: Part): Part {
    Part(text + p.text, literal && p.literal, p.rest)
  }

  lemma BeforeBefore(text: string, literal: bool, more: string, also: bool, p: Part)
    ensures Before(text, literal, Before(more, also, p)) == Before(text + more, literal && also, p)
  {
    assert text + (more + p.text) == (text + more) + p.text;
  }

  /** Does a double-quoted character call for expansion? */
  predicate ExpandsQuoted(c: char, quote: char, powershell: bool) {
    quote == '"' && (c == '$' || (!powershell && c == '`'))
  }

  predicate EscapesQuoted(s: string, quote: char, powershell: bool)
    requires s != []
  {
    quote == '"' && s[0] == Escape(powershell) && |s| > 1 && (powershell || DoubleQuoteEscapable(s[1]))
  }

  /** What follows an opening quote. */
  function Quoted(s: string, quote: char, powershell: bool): (p: Part)
    ensures |p.rest| <= |s|
  {
    if s == [] then Part("", false, [])
    else if s[0] == quote then
      if powershell && |s| > 1 && s[1] == quote then Before([quote], true, Quoted(s[2..], quote, powershell))
      else Part("", true, s[1..])
    else if EscapesQuoted(s, quote, powershell) then
      Before(Escaped(s[1]), true, Quoted(s[2..], quote, powershell))
    else Before([s[0]], !ExpandsQuoted(s[0], quote, powershell), Quoted(s[1..], quote, powershell))
  }

  predicate Expands(c: char, powershell: bool) {
    c == '$' || c == '*' || c == '?' || c == '[' || (!powershell && c == '`')
  }

  /** A word up to the character that ends it. */
  function Unquoted(s: string, powershell: bool): (p: Part)
    ensures |p.rest| <= |s| && (s != [] && !EndsWord(s[0]) ==> |p.rest| < |s|)
    decreases |s|
  {
    if s == [] || EndsWord(s[0]) then Part("", true, s)
    else if s[0] == '\'' || s[0] == '"' then
      var q := Quoted(s[1..], s[0], powershell);
      Before(q.text, q.literal, Unquoted(q.rest, powershell))
    else if s[0] == Escape(powershell) && |s| > 1 then Before(Escaped(s[1]), true, Unquoted(s[2..], powershell))
    else Before([s[0]], !Expands(s[0], powershell), Unquoted(s[1..], powershell))
  }

  function WordAt(s: string, powershell: bool): Token {
    var p := Unquoted(s, powershell);
    Word(p.text, p.literal, !powershell && AssignmentAt(s) && p.literal, !powershell && CommandPrefixAt(s) && p.literal)
  }

  // ---------------------------------------------------------------- here-documents

  function LineLength(s: string): (n: nat)
    ensures n <= |s| && '\n' !in s[..n] && (n < |s| ==> s[n] == '\n')
  {
    if s == [] || s[0] == '\n' then 0 else 1 + LineLength(s[1..])
  }

  function WithoutTabs(line: string): string {
    if line != [] && line[0] == '\t' then WithoutTabs(line[1..]) else line
  }

  predicate Closes(line: string, h: Heredoc) {
    (if h.stripTabs then WithoutTabs(line) else line) == h.delimiter
  }

  /** What follows a line and its newline. */
  function AfterLine(s: string): (r: string)
    ensures |r| <= |s| && (s != [] ==> |r| < |s|)
  {
    if LineLength(s) == |s| then [] else s[LineLength(s) + 1..]
  }

  /** What follows the body of a here-document. */
  function AfterBody(s: string, h: Heredoc): (r: string)
    ensures |r| <= |s|
    decreases |s|
  {
    if s == [] then [] else if Closes(s[..LineLength(s)], h) then AfterLine(s) else AfterBody(AfterLine(s), h)
  }

  function AfterBodies(s: string, hs: seq<Heredoc>): (r: string)
    ensures |r| <= |s|
    decreases |hs|
  {
    if hs == [] then s else AfterBodies(AfterBody(s, hs[0]), hs[1..])
  }

  // ---------------------------------------------------------------- the scan

  /** The here-document operator waiting for its delimiter, and the documents waiting for their bodies. */
  datatype Waiting = Waiting(operator: Option<string>, heredocs: seq<Heredoc>)

  function AfterOperator(w: Waiting, o: string, powershell: bool): Waiting {
    w.(operator := if !powershell && (o == "<<" || o == "<<-") then Some(o) else None)
  }

  function AfterWord(w: Waiting, p: Part): Waiting {
    if w.operator.None? then w
    else Waiting(None, if p.literal then w.heredocs + [Heredoc(p.text, w.operator.value == "<<-")] else w.heredocs)
  }

  /** One turn of the scan: the token it gives, if any, what it leaves, and what then waits. */
  datatype Turn = Turn(token: Option<Token>, rest: string, waiting: Waiting)

  function Next(s: string, powershell: bool, w: Waiting): (t: Turn)
    requires s != []
    ensures |t.rest| < |s|
  {
    if s[0] == '\n' then Turn(Some(Operator("\n")), AfterBodies(s[1..], w.heredocs), w.(heredocs := []))
    else if Space(s[0]) then Turn(None, s[1..], w)
    else if s[0] == '#' then Turn(None, s[LineLength(s)..], w)
    else if !powershell && Descriptor(s) > 0 then Turn(None, s[Descriptor(s)..], w)
    else if OperatorAt(s) != "" then
      Turn(Some(Operator(OperatorAt(s))), s[|OperatorAt(s)|..], AfterOperator(w, OperatorAt(s), powershell))
    else
      var p := Unquoted(s, powershell);
      Turn(Some(WordAt(s, powershell)), p.rest, AfterWord(w, p))
  }

  function OneOrNone(token: Option<Token>): seq<Token> {
    if token.Some? then [token.value] else []
  }

  function Scan(s: string, powershell: bool, w: Waiting): seq<Token>
    decreases |s|
  {
    if s == [] then []
    else
      var t := Next(s, powershell, w);
      OneOrNone(t.token) + Scan(t.rest, powershell, t.waiting)
  }

  function Tokens(command: string, powershell: bool): seq<Token> {
    Scan(command, powershell, Waiting(None, []))
  }

  // ---------------------------------------------------------------- the scan as the source loops

  method ScanQuoted(command: string, start: nat, quote: char, powershell: bool)
      returns (text: string, literal: bool, index: nat)
    requires start <= |command|
    ensures start <= index <= |command|
    ensures Part(text, literal, command[index..]) == Quoted(command[start..], quote, powershell)
  {
    text, literal, index := "", true, start;
    var closed := false;
    ghost var whole := Quoted(command[start..], quote, powershell);
    assert Before("", true, whole) == whole;
    while index < |command|
      invariant start <= index <= |command|
      invariant Before(text, literal, Quoted(command[index..], quote, powershell)) == whole
    {
      ghost var s := command[index..];
      ghost var p := Quoted(s, quote, powershell);
      var quoted := command[index];
      index := index + 1;
      assert command[index..] == s[1..];
      if quoted == quote {
        if powershell && index < |command| && command[index] == quote {
          assert command[index + 1..] == s[2..];
          BeforeBefore(text, literal, [quote], true, Quoted(s[2..], quote, powershell));
          text := text + [quote];
          index := index + 1;
          continue;
        }
        closed := true;
        assert text + "" == text;
        return;
      }
      if && quote == '"' && quoted == Escape(powershell) && index < |command|
         && (powershell || DoubleQuoteEscapable(command[index])) {
        var escaped := command[index];
        index := index + 1;
        assert command[index..] == s[2..];
        BeforeBefore(text, literal, Escaped(escaped), true, Quoted(s[2..], quote, powershell));
        text := text + Escaped(escaped);
      } else {
        BeforeBefore(text, literal, [quoted], !ExpandsQuoted(quoted, quote, powershell), Quoted(s[1..], quote, powershell));
        text := text + [quoted];
        if ExpandsQuoted(quoted, quote, powershell) {
          literal := false;
        }
      }
    }
    assert command[index..] == [] && text + "" == text;
    literal := false;
  }

  method ScanWord(command: string, start: nat, powershell: bool) returns (text: string, literal: bool, index: nat)
    requires start <= |command|
    ensures start <= index <= |command|
    ensures Part(text, literal, command[index..]) == Unquoted(command[start..], powershell)
  {
    text, literal, index := "", true, start;
    ghost var whole := Unquoted(command[start..], powershell);
    assert Before("", true, whole) == whole;
    while index < |command| && !EndsWord(command[index])
      invariant start <= index <= |command|
      invariant Before(text, literal, Unquoted(command[index..], powershell)) == whole
    {
      ghost var s := command[index..];
      var next := command[index];
      index := index + 1;
      assert command[index..] == s[1..];
      if next == '\'' || next == '"' {
        var more, also, end := ScanQuoted(command, index, next, powershell);
        BeforeBefore(text, literal, more, also, Unquoted(command[end..], powershell));
        text, literal, index := text + more, literal && also, end;
      } else if next == Escape(powershell) && index < |command| {
        var escaped := command[index];
        index := index + 1;
        assert command[index..] == s[2..];
        BeforeBefore(text, literal, Escaped(escaped), true, Unquoted(s[2..], powershell));
        text := text + Escaped(escaped);
      } else {
        BeforeBefore(text, literal, [next], !Expands(next, powershell), Unquoted(s[1..], powershell));
        text := text + [next];
        if Expands(next, powershell) {
          literal := false;
        }
      }
    }
    assert text + "" == text;
  }

  /** `command.indexOf("\n", index)`, the length standing for -1. */
  method IndexOfNewline(command: string, index: nat) returns (end: nat)
    requires index <= |command|
    ensures end == index + LineLength(command[index..])
  {
    end := index;
    while end < |command| && command[end] != '\n'
      invariant index <= end <= |command|
      invariant end + LineLength(command[end..]) == index + LineLength(command[index..])
    {
      assert command[end..][1..] == command[end + 1..];
      end := end + 1;
    }
  }

  method NextLine(command: string, index: nat) returns (end: nat, next: nat)
    requires index < |command|
    ensures index <= end <= |command| && index < next <= |command|
    ensures command[index..end] == command[index..][..LineLength(command[index..])]
    ensures command[next..] == AfterLine(command[index..])
  {
    ghost var s := command[index..];
    end := IndexOfNewline(command, index);
    next := if end == |command| then |command| else end + 1;
    if end < |command| {
      assert command[next..] == s[LineLength(s) + 1..];
    }
  }

  method SkipBody(command: string, start: nat, h: Heredoc) returns (index: nat)
    requires start <= |command|
    ensures start <= index <= |command| && command[index..] == AfterBody(command[start..], h)
  {
    index := start;
    while index < |command|
      invariant start <= index <= |command|
      invariant AfterBody(command[index..], h) == AfterBody(command[start..], h)
    {
      var end, next := NextLine(command, index);
      var line := command[index..end];
      index := next;
      if Closes(line, h) {
        return;
      }
    }
  }

  method SkipBodies(command: string, start: nat, heredocs: seq<Heredoc>) returns (index: nat)
    requires start <= |command|
    ensures start <= index <= |command| && command[index..] == AfterBodies(command[start..], heredocs)
  {
    index := start;
    for i := 0 to |heredocs|
      invariant start <= index <= |command|
      invariant AfterBodies(command[index..], heredocs[i..]) == AfterBodies(command[start..], heredocs)
    {
      assert heredocs[i..][1..] == heredocs[i + 1..];
      index := SkipBody(command, index, heredocs[i]);
    }
  }

  lemma PushToken(tokens: seq<Token>, more: seq<Token>, rest: seq<Token>)
    ensures (tokens + more) + rest == tokens + (more + rest)
  {
  }

  /** One turn of the source's loop. */
  method ScanTurn(command: string, start: nat, powershell: bool, w: Waiting)
      returns (token: Option<Token>, index: nat, waiting: Waiting)
    requires start < |command|
    ensures start < index <= |command|
    ensures Turn(token, command[index..], waiting) == Next(command[start..], powershell, w)
  {
    ghost var s := command[start..];
    token, index, waiting := None, start + 1, w;
    assert command[index..] == s[1..];
    var char_ := command[start];
    if char_ == '\n' {
      index := SkipBodies(command, index, w.heredocs);
      return Some(Operator("\n")), index, w.(heredocs := []);
    }
    if Space(char_) {
      return;
    }
    if char_ == '#' {
      index := IndexOfNewline(command, start);
      assert command[index..] == s[LineLength(s)..];
      return;
    }
    var descriptor := if powershell then 0 else Descriptor(command[start..]);
    if descriptor > 0 {
      index := start + descriptor;
      assert command[index..] == s[descriptor..];
      return;
    }
    var operator := OperatorAt(command[start..]);
    if operator != "" {
      index := start + |operator|;
      assert command[index..] == s[|operator|..];
      return Some(Operator(operator)), index, AfterOperator(w, operator, powershell);
    }
    token, index, waiting := ScanWordTurn(command, start, powershell, w);
  }

  method ScanWordTurn(command: string, start: nat, powershell: bool, w: Waiting)
      returns (token: Option<Token>, index: nat, waiting: Waiting)
    requires start <= |command|
    ensures start <= index <= |command|
    ensures token == Some(WordAt(command[start..], powershell))
    ensures command[index..] == Unquoted(command[start..], powershell).rest
    ensures waiting == AfterWord(w, Unquoted(command[start..], powershell))
  {
    var assignment := !powershell && AssignmentAt(command[start..]);
    var commandPrefix := !powershell && CommandPrefixAt(command[start..]);
    var text, literal;
    text, literal, index := ScanWord(command, start, powershell);
    token, waiting := Some(Word(text, literal, assignment && literal, commandPrefix && literal)), w;
    if w.operator.Some? {
      if literal {
        waiting := waiting.(heredocs := w.heredocs + [Heredoc(text, w.operator.value == "<<-")]);
      }
      waiting := waiting.(operator := None);
    }
  }

  /** `literalShellTokens`. */
  method LiteralShellTokens(command: string, powershell: bool) returns (tokens: seq<Token>)
    ensures tokens == Tokens(command, powershell)
  {
    tokens := [];
    var waiting := Waiting(None, []);
    var index := 0;
    assert command[0..] == command;
    while index < |command|
      invariant 0 <= index <= |command|
      invariant tokens + Scan(command[index..], powershell, waiting) == Tokens(command, powershell)
      decreases |command| - index
    {
      var token, end, after := ScanTurn(command, index, powershell, waiting);
      PushToken(tokens, OneOrNone(token), Scan(command[end..], powershell, after));
      tokens := tokens + OneOrNone(token);
      index, waiting := end, after;
    }
    assert tokens + [] == tokens;
  }

  // ---------------------------------------------------------------- quoting

  /** A word in single quotes, inner quotes written as the dialect asks. */
  function Quote(word: string, powershell: bool): string {
    "'" + QuoteInner(word, powershell) + "'"
  }

  function QuoteInner(word: string, powershell: bool): string {
    if word == [] then ""
    else (if word[0] != '\'' then [word[0]] else if powershell then "''" else "'\\''") + QuoteInner(word[1..], powershell)
  }

  /** What a word reads as from just after an opening single quote. */
  function Inside(s: string, powershell: bool): Part {
    var q := Quoted(s, '\'', powershell);
    Before(q.text, q.literal, Unquoted(q.rest, powershell))
  }

  lemma InsideChar(c: char, s: string, powershell: bool)
    requires c != '\''
    ensures Inside([c] + s, powershell) == Before([c], true, Inside(s, powershell))
  {
    assert ([c] + s)[1..] == s;
    var q := Quoted(s, '\'', powershell);
    assert Quoted([c] + s, '\'', powershell) == Before([c], true, q);
    BeforeBefore([c], true, q.text, q.literal, Unquoted(q.rest, powershell));
  }

  lemma InsideQuote(s: string, powershell: bool)
    ensures Inside((if powershell then "''" else "'\\''") + s, powershell) == Before("'", true, Inside(s, powershell))
  {
    var q := Quoted(s, '\'', powershell);
    if powershell {
      var t := "''" + s;
      assert t[2..] == s;
      assert Quoted(t, '\'', true) == Before("'", true, q);
      BeforeBefore("'", true, q.text, q.literal, Unquoted(q.rest, true));
    } else {
      var t := "'\\''" + s;
      var u := t[1..];
      assert Quoted(t, '\'', false) == Part("", true, u);
      assert u[0] == '\\' && u[1] == '\'' && u[2..] == "'" + s;
      assert ("'" + s)[1..] == s;
      assert Unquoted(u[2..], false) == Inside(s, false);
      assert Unquoted(u, false) == Before("'", true, Inside(s, false));
      BeforeBefore("", true, "'", true, Inside(s, false));
    }
  }

  lemma {:induction false} InsideReads(word: string, rest: string, powershell: bool)
    requires rest == [] || EndsWord(rest[0])
    ensures Inside(QuoteInner(word, powershell) + ("'" + rest), powershell) == Part(word, true, rest)
  {
    if word == [] {
      InsideEnds(rest, powershell);
      assert "" + ("'" + rest) == "'" + rest;
    } else {
      InsideReads(word[1..], rest, powershell);
      InsideFirst(word, "'" + rest, powershell);
      assert word == [word[0]] + word[1..];
    }
  }

  lemma InsideEnds(rest: string, powershell: bool)
    requires rest == [] || EndsWord(rest[0])
    ensures Inside("'" + rest, powershell) == Part("", true, rest)
  {
    var s := "'" + rest;
    assert s[1..] == rest;
    assert Quoted(s, '\'', powershell) == Part("", true, rest);
  }

  lemma InsideFirst(word: string, rest: string, powershell: bool)
    requires word != []
    ensures Inside(QuoteInner(word, powershell) + rest, powershell)
      == Before([word[0]], true, Inside(QuoteInner(word[1..], powershell) + rest, powershell))
  {
    var s := QuoteInner(word, powershell) + rest;
    var t := QuoteInner(word[1..], powershell) + rest;
    if word[0] != '\'' {
      assert s == [word[0]] + t;
      InsideChar(word[0], t, powershell);
    } else {
      assert s == (if powershell then "''" else "'\\''") + t;
      InsideQuote(t, powershell);
    }
  }

  /** A quoted word is read back whole and literal, whatever its characters. */
  lemma QuoteReads(word: string, rest: string, powershell: bool)
    requires rest == [] || EndsWord(rest[0])
    ensures Unquoted(Quote(word, powershell) + rest, powershell) == Part(word, true, rest)
    ensures WordAt(Quote(word, powershell) + rest, powershell) == Word(word, true, false, false)
  {
    var s := Quote(word, powershell) + rest;
    assert s[0] == '\'';
    assert s[1..] == QuoteInner(word, powershell) + ("'" + rest);
    InsideReads(word, rest, powershell);
    UnquotedQuote(s, powershell);
  }

  lemma UnquotedQuote(s: string, powershell: bool)
    requires s != [] && s[0] == '\''
    ensures Unquoted(s, powershell) == Inside(s[1..], powershell) && !AssignmentAt(s) && !CommandPrefixAt(s)
  {
  }

  lemma ScanQuote(word: string, rest: string, powershell: bool, w: Waiting)
    requires rest == [] || EndsWord(rest[0])
    ensures Scan(Quote(word, powershell) + rest, powershell, w)
      == [Word(word, true, false, false)] + Scan(rest, powershell, AfterWord(w, Part(word, true, rest)))
  {
    QuoteReads(word, rest, powershell);
  }

  lemma ScanSpace(s: string, powershell: bool, w: Waiting)
    ensures Scan(" " + s, powershell, w) == Scan(s, powershell, w)
  {
    assert (" " + s)[1..] == s;
  }

  /** A quoted word, a space, and text already tokenised. */
  lemma ScanQuoteThen(word: string, s: string, more: seq<Token>, powershell: bool)
    requires Tokens(s, powershell) == more
    ensures Tokens(Quote(word, powershell) + (" " + s), powershell) == [Word(word, true, false, false)] + more
  {
    ScanQuote(word, " " + s, powershell, Waiting(None, []));
    ScanSpace(s, powershell, Waiting(None, []));
  }

  function QuoteAll(words: seq<string>, powershell: bool): string {
    if words == [] then ""
    else if |words| == 1 then Quote(words[0], powershell)
    else Quote(words[0], powershell) + (" " + QuoteAll(words[1..], powershell))
  }

  function LiteralWords(words: seq<string>): seq<Token> {
    if words == [] then [] else [Word(words[0], true, false, false)] + LiteralWords(words[1..])
  }

  /** Main result: words quoted and joined by spaces are tokenised to exactly those words, all
      literal: no operator, assignment or command prefix comes out of quoted data. */
  lemma {:induction false} QuotedWordsReadBack(words: seq<string>, powershell: bool)
    ensures Tokens(QuoteAll(words, powershell), powershell) == LiteralWords(words)
  {
    if |words| == 1 {
      assert Quote(words[0], powershell) + "" == Quote(words[0], powershell);
      ScanQuote(words[0], "", powershell, Waiting(None, []));
    } else if words != [] {
      QuotedWordsReadBack(words[1..], powershell);
      ScanQuoteThen(words[0], QuoteAll(words[1..], powershell), LiteralWords(words[1..]), powershell);
    }
  }

  // ---------------------------------------------------------------- here-document bodies

  function EndedLines(lines: seq<string>): string {
    if lines == [] then "" else lines[0] + ("\n" + EndedLines(lines[1..]))
  }

  lemma {:induction false} LineThenNewline(line: string, rest: string)
    requires '\n' !in line
    ensures LineLength(line + ("\n" + rest)) == |line|
    ensures AfterLine(line + ("\n" + rest)) == rest
  {
    var s := line + ("\n" + rest);
    if line != [] {
      assert s[1..] == line[1..] + ("\n" + rest);
      LineThenNewline(line[1..], rest);
    }
    assert s[|line| + 1..] == rest;
  }

  lemma {:induction false} BodyIsSkipped(lines: seq<string>, h: Heredoc, closing: string, rest: string)
    requires forall k | 0 <= k < |lines| :: '\n' !in lines[k] && !Closes(lines[k], h)
    requires '\n' !in closing && Closes(closing, h)
    ensures AfterBody(EndedLines(lines) + (closing + ("\n" + rest)), h) == rest
  {
    var s := EndedLines(lines) + (closing + ("\n" + rest));
    if lines == [] {
      LineThenNewline(closing, rest);
      assert s == closing + ("\n" + rest) && s[..|closing|] == closing;
    } else {
      var more := EndedLines(lines[1..]) + (closing + ("\n" + rest));
      assert s == lines[0] + ("\n" + more);
      LineThenNewline(lines[0], more);
      assert s[..|lines[0]|] == lines[0];
      BodyIsSkipped(lines[1..], h, closing, rest);
    }
  }

  /** A here-document's body as written: lines that do not close it, then one that does. */
  datatype Body = Body(lines: seq<string>, closing: string)

  ghost predicate BodyOf(b: Body, h: Heredoc) {
    && (forall k | 0 <= k < |b.lines| :: '\n' !in b.lines[k] && !Closes(b.lines[k], h))
    && '\n' !in b.closing && Closes(b.closing, h)
  }

  function BodiesThen(bodies: seq<Body>, rest: string): string {
    if bodies == [] then rest
    else EndedLines(bodies[0].lines) + (bodies[0].closing + ("\n" + BodiesThen(bodies[1..], rest)))
  }

  lemma {:induction false} BodiesAreSkipped(bodies: seq<Body>, heredocs: seq<Heredoc>, rest: string)
    requires |bodies| == |heredocs| && forall k | 0 <= k < |bodies| :: BodyOf(bodies[k], heredocs[k])
    ensures AfterBodies(BodiesThen(bodies, rest), heredocs) == rest
  {
    if bodies != [] {
      BodyIsSkipped(bodies[0].lines, heredocs[0], bodies[0].closing, BodiesThen(bodies[1..], rest));
      BodiesAreSkipped(bodies[1..], heredocs[1..], rest);
    }
  }

  /** Main result: the bodies of all pending here-documents yield no token, however command-shaped.
      After the newline that starts them, scanning resumes behind the last closing line with
      nothing pending. */
  lemma HeredocBodiesAreData(bodies: seq<Body>, rest: string, powershell: bool, w: Waiting)
    requires |bodies| == |w.heredocs| && forall k | 0 <= k < |bodies| :: BodyOf(bodies[k], w.heredocs[k])
    ensures Scan("\n" + BodiesThen(bodies, rest), powershell, w)
      == [Operator("\n")] + Scan(rest, powershell, w.(heredocs := []))
  {
    BodiesAreSkipped(bodies, w.heredocs, rest);
    assert ("\n" + BodiesThen(bodies, rest))[1..] == BodiesThen(bodies, rest);
  }

  /** A body that no line closes reaches to the end of the command. */
  lemma UnclosedBodyIsData(lines: seq<string>, powershell: bool, w: Waiting)
    requires w.heredocs != [] && forall k | 0 <= k < |lines| :: '\n' !in lines[k] && !Closes(lines[k], w.heredocs[0])
    ensures Scan("\n" + EndedLines(lines), powershell, w) == [Operator("\n")]
  {
    BodyWithoutEnd(lines, w.heredocs[0]);
    NothingAfter(w.heredocs[1..]);
    assert ("\n" + EndedLines(lines))[1..] == EndedLines(lines);
  }

  lemma {:induction false} BodyWithoutEnd(lines: seq<string>, h: Heredoc)
    requires forall k | 0 <= k < |lines| :: '\n' !in lines[k] && !Closes(lines[k], h)
    ensures AfterBody(EndedLines(lines), h) == []
  {
    if lines != [] {
      LineThenNewline(lines[0], EndedLines(lines[1..]));
      assert EndedLines(lines)[..|lines[0]|] == lines[0];
      BodyWithoutEnd(lines[1..], h);
    }
  }

  lemma {:induction false} NothingAfter(heredocs: seq<Heredoc>)
    ensures AfterBodies([], heredocs) == []
  {
    if heredocs != [] {
      NothingAfter(heredocs[1..]);
    }
  }

  function HeredocOperator(stripTabs: bool): string {
    if stripTabs then "<<-" else "<<"
  }

  /** One document from its operator on: its quoted delimiter, its body, and what follows. */
  lemma HeredocBodyIsData(h: Heredoc, body: Body, rest: string)
    requires BodyOf(body, h)
    ensures Tokens(HeredocOperator(h.stripTabs) + (Quote(h.delimiter, false) + ("\n" + BodiesThen([body], rest))), false)
      == [Operator(HeredocOperator(h.stripTabs))] + ([Word(h.delimiter, true, false, false)] + ([Operator("\n")] + Tokens(rest, false)))
  {
    var after := "\n" + BodiesThen([body], rest);
    var asked := Waiting(Some(HeredocOperator(h.stripTabs)), []);
    ScanHeredocOperator(Quote(h.delimiter, false) + after, h.stripTabs);
    ScanQuote(h.delimiter, after, false, asked);
    assert AfterWord(asked, Part(h.delimiter, true, after)) == Waiting(None, [h]);
    HeredocBodiesAreData([body], rest, false, Waiting(None, [h]));
  }

  lemma ScanHeredocOperator(s: string, stripTabs: bool)
    requires s != [] && s[0] == '\''
    ensures Scan(HeredocOperator(stripTabs) + s, false, Waiting(None, []))
      == [Operator(HeredocOperator(stripTabs))] + Scan(s, false, Waiting(Some(HeredocOperator(stripTabs)), []))
  {
    HeredocOperatorAt(s, stripTabs);
    assert (HeredocOperator(stripTabs) + s)[|HeredocOperator(stripTabs)|..] == s;
  }

  lemma HeredocOperatorAt(s: string, stripTabs: bool)
    requires s != [] && s[0] == '\''
    ensures var o := HeredocOperator(stripTabs); OperatorAt(o + s) == o && Descriptor(o + s) == 0 && (o + s)[0] == '<'
  {
    var t := HeredocOperator(stripTabs) + s;
    if stripTabs {
      assert t[2] == '-' && t[..3] == "<<-";
    } else {
      assert t[2] == '\'' && t[..2] == "<<";
    }
  }
}
